/** A run in which a session says it is in sync after its policy was set, and is not.

    The first device holds a document in which a withheld rune has two names, the second what it
    wrote of it. The system they stand in is one a run may start from; two sessions open, the
    first sends what it shares, and then reads another way. */
module StalePolicy {
  import opened Agreement
  import opened Bytes
  import opened Codec
  import opened Docs
  import opened Edits
  import opened Exports
  import OrSets
  import opened Policies
  import opened Progress
  import opened Rounds
  import opened Runs
  import opened Samples
  import opened SessionRuns
  import opened Sessions
  import opened Tags
  import opened Withheld

  /** What the second device holds: the name it gave the rune. */
  const HERS: Doc := map[Place(HIDDEN, Register(SpiritName)) := OrSets.OrSet(map[Mint(SECOND, 5) := NAME_B], {})]

  function Mine(): Rep { Rep(5, TWO_NAMED) }
  function Yours(): Rep { Rep(5, HERS) }

  /** Both replicas as they run and as they are saved. */
  function Both(): System
  {
    System(map[FIRST := Mine(), SECOND := Yours()], map[FIRST := [Mine()], SECOND := [Yours()]], {})
  }

  ghost predicate Says(p: Place, t: Text, v: Text)
  {
    || (p == Place(OWN, Present) && t == Mint(FIRST, 1) && v == ONE)
    || (p == Place(OWN, EdgeSet) && t == Mint(FIRST, 2) && v == Enc(LOOP))
    || (p == Place(HIDDEN, Present) && t == Mint(FIRST, 3) && v == ONE)
    || (p == Place(HIDDEN, Register(SpiritName)) && t == Mint(FIRST, 4) && v == NAME_A)
    || (p == Place(HIDDEN, Register(SpiritName)) && t == Mint(SECOND, 5) && v == NAME_B)
  }

  lemma TwoNamedSays(p: Place, t: Text, v: Text)
    ensures Added(TWO_NAMED, p, t, v) <==> Says(p, t, v)
    ensures !Removed(TWO_NAMED, p, t)
  {
    hide Enc, Mint;
    MintsApart(4, 5);
  }

  lemma HersSays(p: Place, t: Text, v: Text)
    ensures Added(HERS, p, t, v) <==>
      p == Place(HIDDEN, Register(SpiritName)) && t == Mint(SECOND, 5) && v == NAME_B
    ensures !Removed(HERS, p, t)
  {
    hide Enc, Mint;
  }

  // ---------------------------------------------------------------------------
  // The system is one a run may start from
  // ---------------------------------------------------------------------------

  lemma TagsAre(t: Text)
    ensures HasTag(TWO_NAMED, t) <==>
      t == Mint(FIRST, 1) || t == Mint(FIRST, 2) || t == Mint(FIRST, 3) || t == Mint(FIRST, 4) || t == Mint(SECOND, 5)
    ensures HasTag(TWO_NAMED, t) <==> Names(TWO_NAMED, t)
    ensures HasTag(HERS, t) <==> t == Mint(SECOND, 5)
    ensures HasTag(HERS, t) <==> Names(HERS, t)
  {
    hide Added, Removed, Mint, Enc;
    forall p, v ensures Added(TWO_NAMED, p, t, v) <==> Says(p, t, v) { TwoNamedSays(p, t, v); }
    forall p ensures !Removed(TWO_NAMED, p, t) { TwoNamedSays(p, t, []); }
    forall p, v
      ensures Added(HERS, p, t, v) <==> p == Place(HIDDEN, Register(SpiritName)) && t == Mint(SECOND, 5) && v == NAME_B
    {
      HersSays(p, t, v);
    }
    forall p ensures !Removed(HERS, p, t) { HersSays(p, t, []); }
    AllSaid();
  }

  lemma AllSaid()
    ensures Added(TWO_NAMED, Place(OWN, Present), Mint(FIRST, 1), ONE)
    ensures Added(TWO_NAMED, Place(OWN, EdgeSet), Mint(FIRST, 2), Enc(LOOP))
    ensures Added(TWO_NAMED, Place(HIDDEN, Present), Mint(FIRST, 3), ONE)
    ensures Added(TWO_NAMED, Place(HIDDEN, Register(SpiritName)), Mint(FIRST, 4), NAME_A)
    ensures Added(TWO_NAMED, Place(HIDDEN, Register(SpiritName)), Mint(SECOND, 5), NAME_B)
    ensures Added(HERS, Place(HIDDEN, Register(SpiritName)), Mint(SECOND, 5), NAME_B)
  {
    hide Added, Mint, Enc;
    TwoNamedSays(Place(OWN, Present), Mint(FIRST, 1), ONE);
    TwoNamedSays(Place(OWN, EdgeSet), Mint(FIRST, 2), Enc(LOOP));
    TwoNamedSays(Place(HIDDEN, Present), Mint(FIRST, 3), ONE);
    TwoNamedSays(Place(HIDDEN, Register(SpiritName)), Mint(FIRST, 4), NAME_A);
    TwoNamedSays(Place(HIDDEN, Register(SpiritName)), Mint(SECOND, 5), NAME_B);
    HersSays(Place(HIDDEN, Register(SpiritName)), Mint(SECOND, 5), NAME_B);
  }

  lemma MineIsOk()
    ensures RepOk(FIRST, Mine())
  {
    hide HasTag, Names, Mint, StampOf;
    forall t ensures HasTag(TWO_NAMED, t) ==> Names(TWO_NAMED, t) && StampOf(t).n <= 5 {
      TagsAre(t);
      if HasTag(TWO_NAMED, t) { StampsAre(t); }
    }
    forall k: nat | k > 5 ensures !HasTag(TWO_NAMED, Mint(FIRST, k)) {
      TagsAre(Mint(FIRST, k));
      ApartFromFour(k);
    }
  }

  lemma ApartFromFour(k: nat)
    requires k > 4
    ensures Mint(FIRST, k) != Mint(FIRST, 1) && Mint(FIRST, k) != Mint(FIRST, 2) && Mint(FIRST, k) != Mint(FIRST, 3)
    ensures Mint(FIRST, k) != Mint(FIRST, 4) && Mint(FIRST, k) != Mint(SECOND, 5)
  {
    hide Mint;
    MintsApart(k, 1);
    MintsApart(k, 2);
    MintsApart(k, 3);
    MintsApart(k, 4);
    MintsApart(k, 5);
  }

  lemma StampsAre(t: Text)
    requires HasTag(TWO_NAMED, t)
    ensures StampOf(t).n <= 5
  {
    hide HasTag, Mint, StampOf;
    TagsAre(t);
    TwoDevices();
    StampMint(FIRST, 1);
    StampMint(FIRST, 2);
    StampMint(FIRST, 3);
    StampMint(FIRST, 4);
    StampMint(SECOND, 5);
  }

  lemma YoursIsOk()
    ensures RepOk(SECOND, Yours())
  {
    hide HasTag, Names, Mint, StampOf;
    forall t ensures HasTag(HERS, t) ==> Names(HERS, t) && StampOf(t).n <= 5 {
      TagsAre(t);
      if HasTag(HERS, t) { StampsAre(t); }
    }
    forall k: nat | k > 5 ensures !HasTag(HERS, Mint(SECOND, k)) {
      TagsAre(Mint(SECOND, k));
      MintsApart(k, 5);
    }
  }

  lemma SameSaves(id: Text, r: Rep)
    requires RepOk(id, r)
    ensures SavesOk(id, [r], r)
  {
    hide RepOk;
    BelowSelf(r.doc);
  }

  lemma OneNameEach()
    ensures OneName(TWO_NAMED, TWO_NAMED) && OneName(TWO_NAMED, HERS)
    ensures OneName(HERS, TWO_NAMED) && OneName(HERS, HERS)
  {
    hide Added, Mint, Enc;
    HersBelow();
    forall p, q, t, v, w | Added(TWO_NAMED, p, t, v) && Added(TWO_NAMED, q, t, w) ensures p == q && v == w {
      TwoNamedSays(p, t, v);
      TwoNamedSays(q, t, w);
      AllApart();
    }
    OneNameBelow(HERS, TWO_NAMED, TWO_NAMED);
    OneNameBelow(HERS, TWO_NAMED, HERS);
  }

  lemma AllApart()
    ensures Mint(FIRST, 1) != Mint(FIRST, 2) && Mint(FIRST, 1) != Mint(FIRST, 3) && Mint(FIRST, 1) != Mint(FIRST, 4)
    ensures Mint(FIRST, 2) != Mint(FIRST, 3) && Mint(FIRST, 2) != Mint(FIRST, 4) && Mint(FIRST, 3) != Mint(FIRST, 4)
    ensures Mint(FIRST, 1) != Mint(SECOND, 5) && Mint(FIRST, 2) != Mint(SECOND, 5)
    ensures Mint(FIRST, 3) != Mint(SECOND, 5) && Mint(FIRST, 4) != Mint(SECOND, 5)
  {
    hide Mint;
    MintsApart(1, 2);
    MintsApart(1, 3);
    MintsApart(1, 4);
    MintsApart(2, 3);
    MintsApart(2, 4);
    MintsApart(3, 4);
    MintsApart(1, 5);
    MintsApart(2, 5);
    MintsApart(3, 5);
    MintsApart(4, 5);
  }

  lemma HersBelow()
    ensures Below(HERS, TWO_NAMED)
  {
    hide Added, Removed, Mint, Enc;
    forall p, t, v | Added(HERS, p, t, v) ensures Added(TWO_NAMED, p, t, v) {
      HersSays(p, t, v);
      TwoNamedSays(p, t, v);
    }
    forall p, t ensures !Removed(HERS, p, t) { HersSays(p, t, []); }
  }

  lemma AuthoredByBoth(ids: set<Text>)
    requires ids == {FIRST, SECOND}
    ensures Authored(ids, TWO_NAMED) && Authored(ids, HERS)
  {
    hide HasTag, Mint;
    forall t | HasTag(TWO_NAMED, t) || HasTag(HERS, t) ensures MintedBy(ids, t) {
      TagsAre(t);
      assert FIRST in ids && SECOND in ids;
    }
  }

  lemma BackedByBoth()
    ensures Backed(Both(), FIRST, HERS) && Backed(Both(), SECOND, TWO_NAMED)
  {
    hide HasTag, Mint;
    TwoDevices();
    forall n: nat | HasTag(HERS, Mint(FIRST, n)) ensures HasTag(TWO_NAMED, Mint(FIRST, n)) {
      TagsAre(Mint(FIRST, n));
    }
    forall n: nat | HasTag(TWO_NAMED, Mint(SECOND, n)) ensures HasTag(HERS, Mint(SECOND, n)) {
      TagsAre(Mint(SECOND, n));
      MintsApart(1, n);
      MintsApart(2, n);
      MintsApart(3, n);
      MintsApart(4, n);
    }
  }

  lemma StandingAre(d: Doc)
    ensures Stands(Both(), d) <==> d == TWO_NAMED || d == HERS
    ensures Elsewhere(Both(), FIRST, d) ==> d == HERS
    ensures Elsewhere(Both(), SECOND, d) ==> d == TWO_NAMED
  {
    hide Mint, Enc;
    TwoDevices();
    assert Both().live[FIRST].doc == TWO_NAMED && Both().live[SECOND].doc == HERS;
  }

  lemma BothIdentities()
    ensures Identities(Both())
  {
    hide RepOk, ValidId, SavesOk, Mint, Enc;
    TwoDevices();
    MineIsOk();
    YoursIsOk();
    SameSaves(FIRST, Mine());
    SameSaves(SECOND, Yours());
  }

  lemma BothAreSound()
    ensures Inv(Both())
  {
    hide Identities, OneName, Authored, Backed, Validate, Stands, Elsewhere, Mint, Enc;
    BothIdentities();
    OneNameEach();
    BothKeys();
    AuthoredByBoth(Both().live.Keys);
    BackedByBoth();
    TwoNamedIsValid();
    HersBelow();
    BelowIsValid(HERS, TWO_NAMED);
    forall d ensures Stands(Both(), d) <==> d == TWO_NAMED || d == HERS { StandingAre(d); }
    forall w, d | w in Both().live && Elsewhere(Both(), w, d) ensures Backed(Both(), w, d) { StandingAre(d); }
  }

  lemma BothKeys()
    ensures Both().live.Keys == {FIRST, SECOND} && Both().saved.Keys == {FIRST, SECOND}
    ensures forall w :: w in Both().saved ==> Both().saved[w] != []
  {
    hide Mint, Enc;
  }

  // ---------------------------------------------------------------------------
  // The run
  // ---------------------------------------------------------------------------

  /** Two sessions about to start; the first withholds the rune and reads by `lens`. */
  function Outset(a: Host, b: Host, lens: Reading, hers: Reading): World
  {
    World(Both(), map[FIRST := 0, SECOND := 0],
          End(FIRST, a, lens, Started(FIRST, [], 0).memory, lens),
          End(SECOND, b, hers, Started(SECOND, [], 0).memory, hers), {})
  }

  lemma BothPlacedAt(w: World)
    requires w.sys == Both() && w.one.id == FIRST && w.two.id == SECOND && w.moved == map[FIRST := 0, SECOND := 0]
    ensures BothPlaced(w)
  {
    TwoDevices();
    BothKeys();
    assert FIRST in w.sys.live.Keys && SECOND in w.sys.live.Keys;
  }

  lemma FreshWhen(w: World)
    requires Inv(w.sys) && BothPlaced(w) && w.bag == {}
    requires w.one.memory == Started(w.one.id, [], 0).memory && w.two.memory == Started(w.two.id, [], 0).memory
    ensures Fresh(w)
  {
    hide Inv;
    forall first ensures JustStarted(Here(w, first)) {
      assert Here(w, first).memory == Started(Here(w, first).id, [], 0).memory;
    }
  }

  lemma OutsetIsFresh(a: Host, b: Host, lens: Reading, hers: Reading)
    ensures Fresh(Outset(a, b, lens, hers)) && BothPlaced(Outset(a, b, lens, hers))
  {
    hide Inv, Both, Mint, Enc, Fresh, BothPlaced;
    BothAreSound();
    var w := Outset(a, b, lens, hers);
    BothPlacedAt(w);
    FreshWhen(w);
  }

  /** The edge is in the export read as a conflict, and in nothing the second device has. */
  lemma EdgeIsMissing(share: ExportSet, lens: Reading, r: Reading, hers: Doc)
    requires share(OWN) && !share(HIDDEN) && lens.join(SpiritName) == Latest && r.join(SpiritName) == Conflict
    requires hers == HERS || hers == JoinDocs(HERS, Export(TWO_NAMED, share, lens))
    ensures !Below(Export(TWO_NAMED, share, r), hers)
  {
    hide Enc, NameIn, Shown, Export, Mint, JoinDocs, OrSets.Values;
    var p := Place(OWN, EdgeSet);
    NamesAre(r.number);
    NamesAre(lens.number);
    assert At(TWO_NAMED, Place(HIDDEN, Register(SpiritName))) == NAMES;
    LoopLeaves(share, r, [97]);
    LoopLeaves(share, lens, [98]);
    JoinHolds(HERS, Export(TWO_NAMED, share, lens));
    HersSays(p, Mint(FIRST, 2), Enc(LOOP));
    assert !Added(hers, p, Mint(FIRST, 2), Enc(LOOP));
  }

  lemma Alone(w: World)
    requires Fresh(w)
    ensures Reached([w], w)
  {
    hide Fresh;
  }

  lemma ReadyFirst(w: World, now: int, pause: nat)
    requires BothReady(w, now, pause)
    ensures Ready(Here(w, true), There(w, true).id, now, pause) && Patient(Here(w, true).host, pause)
    ensures There(w, true).memory.phase == Open && There(w, true).memory.peer == Here(w, true).id
  {
    assert Ready(Here(w, false), There(w, false).id, now, pause);
  }

  lemma OutsetDocs(a: Host, b: Host, lens: Reading, hers: Reading)
    ensures var w := Outset(a, b, lens, hers);
      && BothPlaced(w) && DocOf(w, true) == TWO_NAMED && DocOf(w, false) == HERS
      && w.one.reading == lens && w.one.lens == lens && w.one.host == a && w.two.host == b
  {
    hide Mint, Enc, Fresh;
    TwoDevices();
    OutsetIsFresh(a, b, lens, hers);
  }

  /** Setting a policy is a move, and changes nothing that is said or held. */
  lemma PolicyLeads(w: World, r: Reading)
    requires BothPlaced(w)
    ensures var z := w.(one := w.one.(reading := r));
      && Leads(w, z) && BothPlaced(z) && DocOf(z, true) == DocOf(w, true) && DocOf(z, false) == DocOf(w, false)
      && (SaysInSync(w, true) ==> SaysInSync(z, true))
  {
    assert Moves(w, Policy(true, r), w.(one := w.one.(reading := r)));
  }

  lemma Appended(run: seq<World>, z: World)
    requires IsWorldRun(run) && Leads(run[|run| - 1], z)
    ensures IsWorldRun(run + [z])
  {
    hide Fresh, Leads;
  }

  /** What the second device holds after a round the first spoke in. */
  lemma HeardOrHeld(w: World, run: seq<World>, x: Doc, now: int)
    requires BothPlaced(w) && BothPlaced(Last(w, run)) && Took(run, w, true, x, now)
    ensures var d, e := DocOf(w, false), DocOf(Last(w, run), false); e == d || e == JoinDocs(d, x)
  {
    hide JoinDocs;
  }

  lemma LensStays(w: World, z: World, x: Doc, now: int)
    requires BothPlaced(w) && BothPlaced(z) && Spoke(w, z, true, x, now) && w.one.lens == w.one.reading
    ensures z.one.lens == w.one.reading && z.one.host == w.one.host && DocOf(z, true) == DocOf(w, true)
    ensures SaysInSync(z, true) && x == Export(DocOf(w, true), w.one.host.share, w.one.reading)
  {
    hide Export;
  }

  /** Two devices open a session, the first sends what it shares and is in sync; then its policy
      is set. Nothing moves, it still says it is in sync, and what it shares now is not in its
      peer's document. */
  lemma InSyncUnderAnOldPolicy(a: Host, b: Host, lens: Reading, hers: Reading, r: Reading, now: nat, pause: nat)
      returns (run: seq<World>)
    requires Patient(a, pause) && Patient(b, pause) && a.share(OWN) && !a.share(HIDDEN)
    requires lens.join(SpiritName) == Latest && r.join(SpiritName) == Conflict
    ensures IsWorldRun(run) && BothPlaced(run[|run| - 1])
    ensures var z := run[|run| - 1];
      && SaysInSync(z, true) && z.one.reading == r && z.one.host == a
      && !Below(Export(DocOf(z, true), a.share, r), DocOf(z, false))
  {
    hide Inv, BagOk, EndOk, Leads, Fresh, Export, Below, JoinDocs, Both, BothReady, QuietRun, IsWorldRun, Mint, Enc,
      Reached, Spoke, Took, SaysInSync, BothPlaced, Outset;
    var w := Outset(a, b, lens, hers);
    OutsetIsFresh(a, b, lens, hers);
    OutsetDocs(a, b, lens, hers);
    Alone(w);
    ReachedSound([w], w);
    var opening := Opens(w, [], [], now, pause);
    Follows([w], w, opening);
    var s := opening[5];
    ReadyFirst(s, now + pause, pause);
    var round, x := Round(s, true, now + pause, pause);
    var p := Last(s, round);
    Extends([w] + opening, s, round);
    LensStays(s, p, x, now + pause);
    HeardOrHeld(s, round, x, now + pause);
    PolicyLeads(p, r);
    var z := p.(one := p.one.(reading := r));
    var before := ([w] + opening) + round;
    assert before[|before| - 1] == p;
    Appended(before, z);
    run := before + [z];
    EdgeIsMissing(a.share, lens, r, DocOf(z, false));
  }
}
