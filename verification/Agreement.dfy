/** What a session may conclude when it says it is in sync, in every run of the world. */
module Agreement {
  import opened Docs
  import opened Exports
  import opened Options
  import Replicas
  import opened Runs
  import opened SessionRuns
  import opened Sessions

  ghost predicate SaysInSync(w: World, first: bool)
  {
    Here(w, first).id in w.moved && InSync(Here(w, first).memory, w.moved[Here(w, first).id])
  }

  /** In every run, whatever the wire loses, repeats or reorders and whatever is edited
      meanwhile: when a session says it is in sync, its peer's document contains everything it
      shares now, under the policy it last looked at its export with. Setting a policy moves no
      revision, so that is the policy of now unless it was set since. */
  lemma InSyncIsTrue(run: seq<World>, i: nat, first: bool)
    requires IsWorldRun(run) && i < |run| && SaysInSync(run[i], first)
    ensures BothPlaced(run[i])
    ensures var me, you := Here(run[i], first), There(run[i], first);
      && Below(Export(run[i].sys.live[me.id].doc, me.host.share, me.lens), run[i].sys.live[you.id].doc)
      && (me.lens == me.reading ==>
            Below(Export(run[i].sys.live[me.id].doc, me.host.share, me.reading), run[i].sys.live[you.id].doc))
  {
    hide IsWorldRun, Inv, BagOk, Below, Export;
    WorldSound(run, i);
    assert EndOk(run[i], first);
  }

  /** In every run no session ever refuses a state, nor has one refused. */
  lemma NothingRefused(run: seq<World>, i: nat, first: bool)
    requires IsWorldRun(run) && i < |run|
    ensures Here(run[i], first).memory.refused == None
    ensures forall f :: f in run[i].bag ==> !f.body.Refuse?
  {
    hide IsWorldRun, Inv, Below, Export;
    WorldSound(run, i);
    assert EndOk(run[i], first);
    forall f | f in run[i].bag ensures !f.body.Refuse? {
      assert FrameOk(f, run[i].sys.live[f.from].doc);
    }
  }

  /** When both say so and everything is shared, the two documents are one. */
  lemma BothInSync(run: seq<World>, i: nat)
    requires IsWorldRun(run) && i < |run| && SaysInSync(run[i], true) && SaysInSync(run[i], false)
    requires forall first, thing :: Here(run[i], first).host.share(thing)
    ensures BothPlaced(run[i])
    ensures run[i].sys.live[run[i].one.id].doc == run[i].sys.live[run[i].two.id].doc
  {
    hide IsWorldRun, SaysInSync, Inv, BagOk, EndOk;
    WorldSound(run, i);
    SoundAgree(run[i]);
  }

  lemma SoundAgree(w: World)
    requires Sound(w) && SaysInSync(w, true) && SaysInSync(w, false)
    requires forall first, thing :: Here(w, first).host.share(thing)
    ensures w.sys.live[w.one.id].doc == w.sys.live[w.two.id].doc
  {
    hide Below, Export, Inv, BagOk;
    AllLeaves(w, true);
    AllLeaves(w, false);
    assert EndOk(w, true) && EndOk(w, false);
    BelowAntisymmetric(w.sys.live[w.one.id].doc, w.sys.live[w.two.id].doc);
  }

  /** An end that shares everything exports its whole document, whatever its policy. */
  lemma AllLeaves(w: World, first: bool)
    requires Sound(w) && forall thing :: Here(w, first).host.share(thing)
    ensures var d := w.sys.live[Here(w, first).id].doc;
      Export(d, Here(w, first).host.share, Here(w, first).lens) == d
      && Export(d, Here(w, first).host.share, Here(w, first).reading) == d
  {
    hide Identities, OneName, Authored, Backed, BagOk, EndOk, SetAllowed, Export;
    var e := Here(w, first);
    var d := w.sys.live[e.id].doc;
    LiveStands(w.sys, e.id);
    assert Validate(d);
    EverythingLeaves(d, e.host.share, e.lens);
    EverythingLeaves(d, e.host.share, e.reading);
  }

  /** A hello under another name than the peer's last, late from an old session or not, takes a
      session out of sync: what was acknowledged is forgotten. So not every schedule of a wire
      that still repeats old frames comes to rest. */
  lemma HelloUnsettles(e: End, d: Doc, moved: nat, frame: Frame, now: int)
    requires InSync(e.memory, moved) && frame.body.Hello? && frame.from == e.memory.peer && frame.from != e.id
    requires frame.nonce != e.memory.peerNonce
    ensures !InSync(Received(e.memory, e.id, d, moved, e.host, e.reading, frame, Replicas.Invalid, now).memory, moved)
  {
    hide Export;
  }
}
