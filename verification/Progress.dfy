/** Once edits and losses stop, both sessions come to be in sync, within a bounded number of moves. */
module Progress {
  import opened Bytes
  import opened Docs
  import opened Rounds
  import opened Runs
  import opened SessionRuns

  /** `w` is where this run has come to. */
  ghost predicate Reached(run: seq<World>, w: World)
  {
    IsWorldRun(run) && w == run[|run| - 1]
  }

  lemma ReachedSound(run: seq<World>, w: World)
    requires Reached(run, w)
    ensures Sound(w)
  {
    hide Sound;
    WorldSound(run, |run| - 1);
  }

  lemma Extends(run: seq<World>, w: World, more: seq<World>)
    requires Reached(run, w) && QuietRun(w, more)
    ensures IsWorldRun(run + more)
  {
    hide Fresh, Leads, Quietly;
    var all := run + more;
    forall i | 0 < i < |all| ensures Leads(all[i - 1], all[i]) {
      if i < |run| {
        assert Leads(run[i - 1], run[i]);
      } else {
        var k := i - |run|;
        assert all[i] == more[k] && all[i - 1] == Before(w, more, k);
        QuietLeads(all[i - 1], all[i]);
      }
    }
  }

  /** Wherever a run has come to, once edits and losses stop, both sessions come to be in sync:
      in eight moves for each fact the first end has to learn, and eighteen more. */
  lemma SyncComes(run: seq<World>, w: World, now: int, pause: nat) returns (more: seq<World>)
    requires Reached(run, w) && BothReady(w, now, pause)
    ensures BothPlaced(w) && QuietRun(w, more) && IsWorldRun(run + more) && BothSay(Last(w, more))
    ensures var a, b := DocOf(w, true), DocOf(w, false);
      |more| <= 8 * (|Facts(JoinDocs(a, b))| - |Facts(a)|) + 18
  {
    hide Reached, BothReady, Inv, BagOk, EndOk, Facts, Below, JoinDocs, QuietRun, BothSay, IsWorldRun;
    ReachedSound(run, w);
    var top := JoinDocs(DocOf(w, true), DocOf(w, false));
    JoinIsAbove(w);
    FactsGrow(DocOf(w, true), top);
    more := Converge(w, now, pause, top, |Facts(top)| - |Facts(DocOf(w, true))| + 1);
    Extends(run, w, more);
  }

  /** When everything is shared ten moves are enough, and they leave both documents the join of
      what the two held. */
  lemma SharedSyncComes(run: seq<World>, w: World, now: int, pause: nat) returns (more: seq<World>)
    requires Reached(run, w) && BothReady(w, now, pause) && forall first, thing :: Here(w, first).host.share(thing)
    ensures BothPlaced(w) && QuietRun(w, more) && IsWorldRun(run + more) && |more| <= 10
    ensures var z := Last(w, more);
      && BothSay(z) && BothPlaced(z)
      && DocOf(z, true) == DocOf(z, false) == JoinDocs(DocOf(w, true), DocOf(w, false))
  {
    hide Reached, BothReady, Inv, BagOk, EndOk, Below, JoinDocs, QuietRun, BothSay, IsWorldRun;
    ReachedSound(run, w);
    more := TenMoves(w, now, pause);
    Extends(run, w, more);
  }

  /** No state a run can come to is past saving: when both sessions start again, they come to be
      in sync, six moves for opening them included. */
  lemma SyncComesAfterRestart(run: seq<World>, w: World, name: Text, other: Text, now: nat, pause: nat)
      returns (more: seq<World>)
    requires Reached(run, w) && forall first :: Patient(Here(w, first).host, pause)
    ensures BothPlaced(w) && IsWorldRun(run + more) && BothSay(Last(w, more))
    ensures var a, b := DocOf(w, true), DocOf(w, false);
      |more| <= 8 * (|Facts(JoinDocs(a, b))| - |Facts(a)|) + 24
  {
    hide Reached, BothReady, Inv, BagOk, EndOk, Facts, Below, JoinDocs, QuietRun, BothSay, IsWorldRun, Leads;
    ReachedSound(run, w);
    var opening := Opens(w, name, other, now, pause);
    Follows(run, w, opening);
    var rest := SyncComes(run + opening, opening[5], now + pause, pause);
    more := opening + rest;
    assert run + more == (run + opening) + rest;
    LastOfBoth(w, opening, rest);
  }

  lemma LastOfBoth(w: World, a: seq<World>, b: seq<World>)
    requires a != []
    ensures Last(w, a + b) == Last(a[|a| - 1], b)
  {
  }

  lemma Follows(run: seq<World>, w: World, more: seq<World>)
    requires Reached(run, w) && more != [] && forall i :: 0 <= i < |more| ==> Leads(Before(w, more, i), more[i])
    ensures Reached(run + more, more[|more| - 1])
  {
    hide Fresh, Leads;
    var all := run + more;
    forall i | 0 < i < |all| ensures Leads(all[i - 1], all[i]) {
      if i < |run| {
        assert Leads(run[i - 1], run[i]);
      } else {
        var k := i - |run|;
        assert all[i] == more[k] && all[i - 1] == Before(w, more, k);
      }
    }
  }
}
