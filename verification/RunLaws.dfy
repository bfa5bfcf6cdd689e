/** What holds in every run of the replicas. */
module RunLaws {
  import opened Bytes
  import opened Conflicts
  import opened Docs
  import opened Edits
  import opened Replicas
  import opened Runs
  import opened Tags
  import Validity

  ghost predicate IsRun(run: seq<System>)
  {
    && run != [] && run[0] == START
    && forall i :: 0 < i < |run| ==> Follows(run[i - 1], run[i])
  }

  ghost predicate Follows(s: System, s': System)
  {
    exists act :: Step(s, act, s')
  }

  lemma {:induction false} RunSound(run: seq<System>, i: nat)
    requires IsRun(run) && i < |run|
    ensures Inv(run[i])
  {
    hide Inv, Step;
    if i == 0 {
      StartInv();
    } else {
      RunSound(run, i - 1);
      assert Follows(run[i - 1], run[i]);
      var act :| Step(run[i - 1], act, run[i]);
      StepKeeps(run[i - 1], act, run[i]);
    }
  }

  /** In every run no tag names two places or two values, in any document a replica holds,
      has saved or ever sent. */
  lemma OneTagOneName(run: seq<System>, i: nat, d: Doc, e: Doc, t: Text, p: Place, q: Place, v: Text, w: Text)
    requires IsRun(run) && i < |run| && Holds(run[i], d) && Holds(run[i], e)
    requires Added(d, p, t, v) && Added(e, q, t, w)
    ensures p == q && v == w
  {
    hide IsRun, Stands, Holds, Added, Identities, Authored, Backed, Validate;
    RunSound(run, i);
    var d' := HeldBelow(run[i], d);
    var e' := HeldBelow(run[i], e);
    assert OneName(d', e');
  }

  /** In every run everything a replica holds, has saved or ever sent is fit to merge. */
  lemma EverythingIsValid(run: seq<System>, i: nat, d: Doc)
    requires IsRun(run) && i < |run| && Holds(run[i], d)
    ensures Validate(d)
  {
    hide IsRun, Stands, Holds, Below, Identities, Authored, Backed, Validate;
    RunSound(run, i);
    var e := HeldBelow(run[i], d);
    BelowIsValid(d, e);
  }

  /** In every run a merge of anything that was ever sent is taken in: no replica ever meets an
      identity collision. */
  lemma MergeAlwaysTaken(run: seq<System>, i: nat, id: Text, remote: Doc)
    requires IsRun(run) && i < |run| && id in run[i].live && remote in run[i].sent
    ensures !Refuses(run[i].live[id].doc, remote, id)
    ensures Absorbed(run[i].live[id], id, remote).doc == JoinDocs(run[i].live[id].doc, remote)
  {
    hide IsRun, Inv, Refuses, JoinDocs;
    RunSound(run, i);
    NeverCollides(run[i], id, remote);
    MergeRepOk(run[i], id, remote);
  }

  /** In every run a tag an edit mints is in no document of the system before it. */
  lemma EveryMintIsNew(run: seq<System>, i: nat, id: Text, b: Rep, d: Doc, n: nat)
    requires IsRun(run) && i < |run| && id in run[i].live && Acts(run[i].live[id], b, id)
    requires Holds(run[i], d) && n > run[i].live[id].issued
    ensures !HasTag(d, Mint(id, n))
  {
    hide IsRun, Inv, HasTag, Mint, Acts, Below, Holds;
    RunSound(run, i);
    var e := HeldBelow(run[i], d);
    BelowTags(d, e);
    MintedIsNew(run[i], id, b, e, n);
  }

  /** In every run a write minted after seeing another outranks it, as long as both counters
      are ones a tag can carry. */
  lemma LaterOutranks(run: seq<System>, i: nat, id: Text, n: nat, t: Text)
    requires IsRun(run) && i < |run| && id in run[i].live && n > run[i].live[id].issued
    requires HasTag(run[i].live[id].doc, t) && StampOf(t).n <= LAMPORT_CEILING && n / 10 <= DIGIT_LIMIT
    ensures StampLess(StampOf(t), StampOf(Mint(id, n)))
  {
    hide IsRun, HasTag, Mint, StampOf, OneName, Authored, Backed, FreshAbove, OwnNamed, ValidId, Validate, SavesOk;
    RunSound(run, i);
    assert RepOk(id, run[i].live[id]) && Lamport(run[i].live[id]);
    StampMint(id, n);
  }

  /** In every run each save a replica may return to is one `from_bytes` accepts, as long as its
      counter is within the bound. */
  lemma SavesAreAccepted(run: seq<System>, i: nat, id: Text, k: nat)
    requires IsRun(run) && i < |run| && id in run[i].live
    requires id in run[i].saved && k < |run[i].saved[id]|
    ensures var r := run[i].saved[id][k];
      ValidId(id) && Validate(r.doc) && !Behind(r.doc, id, r.issued)
  {
    hide IsRun, HasTag, Mint, OwnCounter, OneName, Authored, Backed, OwnNamed, Lamport, ValidId, Validate, SavesOk,
      Below;
    RunSound(run, i);
    var s := run[i];
    var r := s.saved[id][k];
    SaveBetween(s, id, k);
    BelowFits(s, id, r.doc);
    BelowTags(r.doc, s.live[id].doc);
    LiveStands(s, id);
    forall t | HasTag(r.doc, t) && OwnCounter(t, id).Some? ensures OwnCounter(t, id).value <= r.issued {
      var n := OwnTag(s, id, s.live[id].doc, t);
      OwnMint(id, id, n);
      assert FreshAbove(r.doc, id, r.issued);
    }
  }

  /** Observing a canonical state is an act of the replica, whatever counters are burnt. */
  lemma ObservingIsAnAct(d: Doc, e: Doc, state: State, r: Reading, id: Text, lo: nat, hi: nat)
    requires WellFormed(state) && Validity.Canonical(state, r) && FreshAbove(d, id, lo)
    requires Observation(d, e, state, r, id, lo, hi)
    ensures Acts(Rep(lo, d), Rep(hi, e), id)
  {
    hide WellFormed, Validity.Canonical, FreshAbove, EditOf, PlaceEdited, Validate;
    if Validate(d) { Validity.ObservedIsValid(d, e, state, r, id, lo, hi); }
  }

  /** So is settling a conflict. */
  lemma SettlingIsAnAct(d: Doc, e: Doc, r: Reading, c: Conflict, choice: Choice, id: Text, lo: nat, hi: nat)
    requires Fits(c, choice) && IsConflict(d, r, c) && Settles(d, e, c, choice, id, lo, hi) && FreshAbove(d, id, lo)
    ensures Acts(Rep(lo, d), Rep(hi, e), id)
  {
    hide IsConflict, FreshAbove, EditOf, Validate, WrittenTo, GivenTo;
    if Validate(d) { Validity.SettledIsValid(d, e, r, c, choice, id, lo, hi); }
  }
}
