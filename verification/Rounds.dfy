/** One session's turn after another, with nobody editing and nothing lost.

    A round is a save, a tick, and, when the tick sent a state, its delivery and the delivery
    of its acknowledgement. It leaves its speaker in sync and its listener holding what was
    said; two rounds leave both in sync unless one of them taught the other something, and
    there is only so much to teach. */
module Rounds {
  import opened Agreement
  import opened Bytes
  import opened Docs
  import opened Edits
  import opened Exports
  import opened Options
  import opened Replicas
  import opened Runs
  import opened SessionRuns
  import opened Sessions

  // ---------------------------------------------------------------------------
  // Runs without edits or losses
  // ---------------------------------------------------------------------------

  /** Saving, time passing, and frames arriving: nobody edits, restarts or changes a policy. */
  ghost predicate IsQuiet(move: Move)
  {
    match move
    case Around(act) => act.Save?
    case Pass(_, _) => true
    case Deliver(_, _, _) => true
    case _ => false
  }

  ghost predicate Quietly(w: World, w': World)
  {
    BothPlaced(w) && exists move :: IsQuiet(move) && Moves(w, move, w')
  }

  function Last(w: World, run: seq<World>): World
  {
    if run == [] then w else run[|run| - 1]
  }

  /** The world just before the `i`th of a run from `w`. */
  function Before(w: World, run: seq<World>, i: nat): World
    requires i <= |run|
  {
    if i == 0 then w else run[i - 1]
  }

  /** The worlds a quiet run passes through after `w`. */
  ghost predicate QuietRun(w: World, run: seq<World>)
  {
    forall i :: 0 <= i < |run| ==> Quietly(Before(w, run, i), run[i])
  }

  lemma QuietConcat(w: World, a: seq<World>, b: seq<World>)
    requires QuietRun(w, a) && QuietRun(Last(w, a), b)
    ensures QuietRun(w, a + b) && Last(w, a + b) == Last(Last(w, a), b)
  {
    hide Quietly;
    var c := a + b;
    forall i | 0 <= i < |c| ensures Quietly(Before(w, c, i), c[i]) {
      if i < |a| {
        assert c[i] == a[i] && Before(w, c, i) == Before(w, a, i);
      } else {
        assert c[i] == b[i - |a|] && Before(w, c, i) == Before(Last(w, a), b, i - |a|);
      }
    }
  }

  // ---------------------------------------------------------------------------
  // One turn of each kind
  // ---------------------------------------------------------------------------

  /** An open session that named its peer, has heard from it lately, and has waited out both
      its pauses since it last sent a state. */
  ghost predicate Ready(e: End, peer: Text, now: int, pause: nat)
  {
    && e.memory.phase == Open && e.memory.peer == peer
    && now - e.memory.lastHeard < e.host.timing.silenceTimeout && now - e.memory.docSentAt >= pause
  }

  /** Both pauses end before silence is taken for the peer's absence. */
  predicate Patient(host: Host, pause: nat)
  {
    host.timing.coalesce <= pause && host.timing.resend <= pause && pause < host.timing.silenceTimeout
  }

  /** What a tick does not touch. */
  ghost predicate Untouched(m: Memory, n: Memory)
  {
    && n.phase == m.phase && n.peer == m.peer && n.nonce == m.nonce && n.lastHeard == m.lastHeard
    && n.lastMerged == m.lastMerged && n.refused == m.refused
  }

  ghost predicate Looked(e: End, d: Doc, moved: nat, m: Memory, x: Doc)
  {
    && m.seen == Some(moved) && m.exported == Some(x) && x == Export(d, e.host.share, Turned(e, m).lens)
  }

  lemma RefreshLooks(e: End, d: Doc, theirs: Doc, peer: Text, moved: nat) returns (x: Doc)
    requires MemoryOk(e, d, theirs, peer, moved)
    ensures var m := Refreshed(e.memory, d, moved, e.host, e.reading);
      && Looked(e, d, moved, m, x) && Untouched(e.memory, m) && m.acked == e.memory.acked && m.sent == e.memory.sent
      && m.docSentAt == e.memory.docSentAt
    ensures e.memory.seen == Some(moved) ==> e.memory.exported == Some(x)
  {
    hide Below, Export;
    x := Refreshed(e.memory, d, moved, e.host, e.reading).exported.value;
  }

  /** A ready session's tick: in sync if its export is held by the peer, sent if it is not. */
  lemma TickFacts(e: End, d: Doc, theirs: Doc, peer: Text, moved: nat, now: int, pause: nat) returns (x: Doc)
    requires MemoryOk(e, d, theirs, peer, moved) && Ready(e, peer, now, pause) && Patient(e.host, pause)
    ensures var t := Ticked(e.memory, e.id, d, moved, e.host, e.reading, now);
      && Untouched(e.memory, t.memory) && Looked(e, d, moved, t.memory, x)
      && (if e.memory.acked == Some(x) || e.memory.lastMerged == Some(x)
          then StatesIn(t.out) == {} && t.memory.acked == Some(x) && t.memory.docSentAt == e.memory.docSentAt
          else StatesIn(t.out) == {x} && Frame(e.id, e.memory.nonce, State(x, x)) in t.out
               && t.memory.docSentAt == now && t.memory.acked == e.memory.acked)
    ensures e.memory.seen == Some(moved) ==> e.memory.exported == Some(x)
  {
    hide Below, Export, Refreshed, Ticked;
    OpenTick(e, d, moved, now);
    x := RefreshLooks(e, d, theirs, peer, moved);
    SpokenFacts(Refreshed(e.memory, d, moved, e.host, e.reading), e.id, e.host, now, x);
  }

  lemma SpokenFacts(m: Memory, id: Text, host: Host, now: int, x: Doc)
    requires m.exported == Some(x) && m.refused == None && now - m.docSentAt >= host.timing.resend
    ensures var t := KeptAlive(Spoken(m, id, host, now), id, host, now);
      && Untouched(m, t.memory) && t.memory.seen == m.seen && t.memory.exported == m.exported
      && (if m.acked == Some(x) || m.lastMerged == Some(x)
          then StatesIn(t.out) == {} && t.memory.acked == Some(x) && t.memory.docSentAt == m.docSentAt
          else StatesIn(t.out) == {x} && Frame(id, m.nonce, State(x, x)) in t.out
               && t.memory.docSentAt == now && t.memory.acked == m.acked)
  {
    var s := Spoken(m, id, host, now);
    if m.acked == Some(x) || m.lastMerged == Some(x) {
      assert s.out == [];
    } else {
      var f := Frame(id, m.nonce, State(x, x));
      assert s.out == [f] && f in s.out;
      assert KeptAlive(s, id, host, now).out[0] == f;
    }
  }

  /** A state from the peer is taken in or was, and is acknowledged. */
  lemma StateFacts(e: End, d: Doc, moved: nat, from: Text, nonce: Text, x: Doc, now: int)
    requires e.memory.phase == Open && e.memory.peer == from && from != [] && from != e.id && Validate(x)
    ensures var f := Frame(from, nonce, State(x, x));
      && (AsksMerge(e.memory, f) <==> e.memory.lastMerged != Some(x))
      && var result := if AsksMerge(e.memory, f) then Merged else Invalid;
         Received(e.memory, e.id, d, moved, e.host, e.reading, f, result, now) ==
         Turn(e.memory.(lastHeard := now, lastSaid := now, lastMerged := Some(x)),
              [Frame(e.id, e.memory.nonce, Ack(x))])
  {
    hide Validate, Export;
  }

  /** An acknowledgement of the export as it stands puts the session in sync. */
  lemma AckFacts(e: End, d: Doc, moved: nat, from: Text, nonce: Text, x: Doc, now: int)
    requires e.memory.phase == Open && e.memory.peer == from && from != []
    requires e.memory.seen == Some(moved) && e.memory.exported == Some(x)
    ensures Received(e.memory, e.id, d, moved, e.host, e.reading, Frame(from, nonce, Ack(x)), Invalid, now) ==
      Turn(e.memory.(lastHeard := now, acked := Some(x)), [])
  {
    hide Export;
  }

  // ---------------------------------------------------------------------------
  // The moves of one round
  // ---------------------------------------------------------------------------

  /** The peer has this, as far as this session knows. */
  ghost predicate Held(m: Memory, x: Doc)
  {
    m.acked == Some(x) || m.lastMerged == Some(x)
  }

  ghost function DocOf(w: World, first: bool): Doc
    requires BothPlaced(w)
  {
    w.sys.live[Here(w, first).id].doc
  }

  ghost function MovedOf(w: World, first: bool): nat
    requires BothPlaced(w)
  {
    w.moved[Here(w, first).id]
  }

  /** Nothing of this end has changed but what its session remembers. */
  ghost predicate SameBut(w: World, z: World, first: bool, m: Memory)
    requires BothPlaced(w)
  {
    && BothPlaced(z) && Here(z, first) == Turned(Here(w, first), m)
    && DocOf(z, first) == DocOf(w, first) && MovedOf(z, first) == MovedOf(w, first)
  }

  ghost predicate Same(w: World, z: World, first: bool)
    requires BothPlaced(w)
  {
    SameBut(w, z, first, Here(w, first).memory)
  }

  lemma SaveMove(w: World, first: bool) returns (z: World)
    requires Sound(w)
    ensures Quietly(w, z) && Sound(z) && Same(w, z, true) && Same(w, z, false)
    ensures IsSaved(z.sys, Here(z, first).id)
    ensures IsSaved(w.sys, There(w, first).id) ==> IsSaved(z.sys, There(z, first).id)
  {
    hide Inv, BagOk, EndOk;
    var id := Here(w, first).id;
    IdsMatch(w.sys);
    z := w.(sys := Kept(w.sys, id, w.sys.saved[id] + [w.sys.live[id]]));
    assert Step(w.sys, Act.Save(id), z.sys);
    assert Goes(w, Act.Save(id), z);
    assert IsQuiet(Around(Act.Save(id))) && Moves(w, Around(Act.Save(id)), z);
    AroundKeeps(w, Act.Save(id), z);
  }

  /** One tick of a saved, ready end. */
  lemma PassMove(w: World, first: bool, now: int, pause: nat) returns (z: World, x: Doc)
    requires Sound(w) && IsSaved(w.sys, Here(w, first).id)
    requires Ready(Here(w, first), There(w, first).id, now, pause) && Patient(Here(w, first).host, pause)
    ensures Quietly(w, z) && Sound(z) && Same(w, z, !first)
    ensures var e, m := Here(w, first), Here(z, first).memory;
      && SameBut(w, z, first, m) && Untouched(e.memory, m) && Looked(e, DocOf(w, first), MovedOf(w, first), m, x)
      && (e.memory.seen == Some(MovedOf(w, first)) ==> e.memory.exported == Some(x))
      && (if Held(e.memory, x) then m.acked == Some(x) && m.docSentAt == e.memory.docSentAt
          else m.docSentAt == now && Frame(e.id, e.memory.nonce, State(x, x)) in z.bag)
  {
    hide Inv, BagOk, Below, Export, MemoryOk, Ticked, Looked, Untouched;
    var e, you := Here(w, first), There(w, first);
    var d := w.sys.live[e.id].doc;
    var t := Ticked(e.memory, e.id, d, w.moved[e.id], e.host, e.reading, now);
    assert EndOk(w, first);
    x := TickFacts(e, d, w.sys.live[you.id].doc, you.id, w.moved[e.id], now, pause);
    z := After(w, first, t, w.sys, w.moved);
    assert MaySend(w.sys, e.id, t);
    assert IsQuiet(Pass(first, now)) && Moves(w, Pass(first, now), z);
    MoveKeeps(w, Pass(first, now), z);
  }

  /** A state on the wire reaches the end it was meant for. */
  lemma StateMove(w: World, first: bool, nonce: Text, x: Doc, now: int) returns (z: World)
    requires Sound(w) && Frame(There(w, first).id, nonce, State(x, x)) in w.bag
    requires Here(w, first).memory.phase == Open && Here(w, first).memory.peer == There(w, first).id
    ensures Quietly(w, z) && Sound(z) && Same(w, z, !first) && BothPlaced(z)
    ensures var e := Here(w, first);
      && Here(z, first) == Turned(e, e.memory.(lastHeard := now, lastSaid := now, lastMerged := Some(x)))
      && Frame(e.id, e.memory.nonce, Ack(x)) in z.bag
      && DocOf(z, first) == JoinDocs(DocOf(w, first), x)
      && (MovedOf(z, first) == MovedOf(w, first) + 1
          || (MovedOf(z, first) == MovedOf(w, first) && DocOf(z, first) == DocOf(w, first)))
  {
    hide Inv, Below, Export, Validate, Received, AsksMerge, Refuses, JoinDocs, MemoryOk, Absorbed;
    var e, you := Here(w, first), There(w, first);
    var f := Frame(you.id, nonce, State(x, x));
    var d := w.sys.live[e.id];
    SentIsValid(w.sys, x);
    NeverCollides(w.sys, e.id, x);
    MergeRepOk(w.sys, e.id, x);
    StateFacts(e, d.doc, w.moved[e.id], you.id, nonce, x, now);
    MergedBefore(w, first, x);
    var result := Outcome(w, first, f);
    var t := Received(e.memory, e.id, d.doc, w.moved[e.id], e.host, e.reading, f, result, now);
    assert t.out == [Frame(e.id, e.memory.nonce, Ack(x))];
    assert Frame(e.id, e.memory.nonce, Ack(x)) in t.out && StatesIn(t.out) == {};
    z := if result == Merged then
        After(w, first, t, w.sys.(live := w.sys.live[e.id := Absorbed(d, e.id, x)]), w.moved[e.id := w.moved[e.id] + 1])
      else After(w, first, t, w.sys, w.moved);
    assert IsQuiet(Deliver(first, f, now)) && Moves(w, Deliver(first, f, now), z);
    MoveKeeps(w, Deliver(first, f, now), z);
  }

  lemma MergedBefore(w: World, first: bool, x: Doc)
    requires Sound(w)
    ensures Here(w, first).memory.lastMerged == Some(x) ==> JoinDocs(DocOf(w, first), x) == DocOf(w, first)
  {
    hide Inv, BagOk, Below, Export, JoinDocs;
    assert EndOk(w, first);
    if Here(w, first).memory.lastMerged == Some(x) { JoinAbsorbs(x, DocOf(w, first)); }
  }

  /** The acknowledgement of the export as it stands reaches its sender. */
  lemma AckMove(w: World, first: bool, nonce: Text, x: Doc, now: int) returns (z: World)
    requires Sound(w) && Frame(There(w, first).id, nonce, Ack(x)) in w.bag
    requires var m := Here(w, first).memory;
      && m.phase == Open && m.peer == There(w, first).id && m.seen == Some(MovedOf(w, first)) && m.exported == Some(x)
    ensures Quietly(w, z) && Sound(z) && Same(w, z, !first)
    ensures SameBut(w, z, first, Here(w, first).memory.(lastHeard := now, acked := Some(x)))
    ensures SaysInSync(z, first)
  {
    hide Inv, Below, Export, Received, BagOk, EndOk, Refuses;
    var e, you := Here(w, first), There(w, first);
    var f := Frame(you.id, nonce, Ack(x));
    var d := w.sys.live[e.id];
    AckFacts(e, d.doc, w.moved[e.id], you.id, nonce, x, now);
    var t := Received(e.memory, e.id, d.doc, w.moved[e.id], e.host, e.reading, f, Invalid, now);
    assert StatesIn(t.out) == {};
    z := After(w, first, t, w.sys, w.moved);
    assert IsQuiet(Deliver(first, f, now)) && Moves(w, Deliver(first, f, now), z);
    MoveKeeps(w, Deliver(first, f, now), z);
  }

  // ---------------------------------------------------------------------------
  // One round
  // ---------------------------------------------------------------------------

  /** What a round leaves of the end that spoke: in sync on its export `x`, its document as it
      was. */
  ghost predicate Spoke(w: World, z: World, first: bool, x: Doc, now: int)
    requires BothPlaced(w) && BothPlaced(z)
  {
    var e, m := Here(w, first), Here(z, first).memory;
    && SaysInSync(z, first) && SameBut(w, z, first, m) && m.acked == Some(x)
    && m.phase == Open && m.peer == e.memory.peer && m.lastMerged == e.memory.lastMerged
    && x == Export(DocOf(w, first), e.host.share, Here(z, first).lens)
    && (e.memory.seen == Some(MovedOf(w, first)) ==> e.memory.exported == Some(x))
    && (m.docSentAt == e.memory.docSentAt || m.docSentAt == now)
    && (m.lastHeard == e.memory.lastHeard || m.lastHeard == now)
  }

  /** What it leaves of the end that listened: nothing, when there was nothing to say; else `x`
      taken in. */
  ghost predicate Listened(w: World, z: World, first: bool, x: Doc, now: int)
    requires BothPlaced(w) && BothPlaced(z)
  {
    var e := Here(w, first);
    && (exists said :: Here(z, first) ==
          Turned(e, e.memory.(lastHeard := now, lastSaid := said, lastMerged := Some(x))))
    && DocOf(z, first) == JoinDocs(DocOf(w, first), x)
    && (MovedOf(z, first) == MovedOf(w, first) + 1
        || (MovedOf(z, first) == MovedOf(w, first) && DocOf(z, first) == DocOf(w, first)))
  }

  ghost predicate Took(run: seq<World>, w: World, first: bool, x: Doc, now: int)
    requires BothPlaced(w) && BothPlaced(Last(w, run))
  {
    var z := Last(w, run);
    if Held(Here(w, first).memory, x) then |run| <= 2 && Same(w, z, !first)
    else |run| <= 4 && Listened(w, z, !first, x, now) && Here(z, first).memory.lastHeard == now
  }

  /** One end's round: saved, it looks at its export; if the peer does not have it, the state
      goes out, is taken in, and the acknowledgement comes back. */
  lemma Round(w: World, first: bool, now: int, pause: nat) returns (run: seq<World>, x: Doc)
    requires Sound(w) && Ready(Here(w, first), There(w, first).id, now, pause) && Patient(Here(w, first).host, pause)
    requires There(w, first).memory.phase == Open && There(w, first).memory.peer == Here(w, first).id
    ensures QuietRun(w, run) && Sound(Last(w, run)) && BothPlaced(Last(w, run))
    ensures Spoke(w, Last(w, run), first, x, now) && Took(run, w, first, x, now)
  {
    hide Inv, BagOk, EndOk, Export, JoinDocs, Quietly, IsSaved;
    var s := SaveMove(w, first);
    var p;
    p, x := PassMove(s, first, now, pause);
    var e := Here(w, first);
    if Held(e.memory, x) {
      run := [s, p];
    } else {
      var q := StateMove(p, !first, e.memory.nonce, x, now);
      var r := AckMove(q, first, There(p, first).memory.nonce, x, now);
      run := [s, p, q, r];
    }
  }

  // ---------------------------------------------------------------------------
  // Coming to agree
  // ---------------------------------------------------------------------------

  /** One thing a document says. */
  datatype Fact = Has(p: Place) | Adds(p: Place, t: Text, v: Text) | Retires(p: Place, t: Text)

  function Facts(d: Doc): set<Fact>
  {
    (set p | p in d :: Has(p)) + (set p, t | p in d && t in d[p].adds :: Adds(p, t, d[p].adds[t]))
      + (set p, t | p in d && t in d[p].removes :: Retires(p, t))
  }

  /** A document that grows says strictly more. */
  lemma FactsGrow(a: Doc, b: Doc)
    requires Below(a, b)
    ensures |Facts(a)| <= |Facts(b)| && (a != b ==> |Facts(a)| < |Facts(b)|)
  {
    hide Facts, Below;
    BelowFacts(a, b);
    SubsetAtMost(Facts(a), Facts(b));
    if a != b {
      if Facts(a) == Facts(b) {
        FactsBelow(b, a);
        BelowAntisymmetric(a, b);
      }
      SubsetSmaller(Facts(a), Facts(b));
    }
  }

  lemma FactsAre(d: Doc)
    ensures forall p :: Has(p) in Facts(d) <==> p in d
    ensures forall p, t, v :: Adds(p, t, v) in Facts(d) <==> Added(d, p, t, v)
    ensures forall p, t :: Retires(p, t) in Facts(d) <==> Removed(d, p, t)
  {
  }

  lemma BelowFacts(a: Doc, b: Doc)
    requires Below(a, b)
    ensures Facts(a) <= Facts(b)
  {
    hide Facts;
    FactsAre(a);
    FactsAre(b);
    forall x | x in Facts(a) ensures x in Facts(b) {
      match x {
        case Has(p) =>
        case Adds(p, t, v) => assert Added(b, p, t, v);
        case Retires(p, t) => assert Removed(b, p, t);
      }
    }
  }

  lemma FactsBelow(a: Doc, b: Doc)
    requires Facts(a) <= Facts(b)
    ensures Below(a, b)
  {
    hide Facts;
    FactsAre(a);
    FactsAre(b);
    forall p | p in a ensures p in b { assert Has(p) in Facts(a); }
    forall p, t, v | Added(a, p, t, v) ensures Added(b, p, t, v) { assert Adds(p, t, v) in Facts(a); }
    forall p, t | Removed(a, p, t) ensures Removed(b, p, t) { assert Retires(p, t) in Facts(a); }
  }

  ghost predicate BothReady(w: World, now: int, pause: nat)
  {
    forall first :: Ready(Here(w, first), There(w, first).id, now, pause) && Patient(Here(w, first).host, pause)
  }

  /** An export looked at under an older policy, with no move since to look again. */
  ghost predicate Stale(w: World)
    requires BothPlaced(w)
  {
    var e := Here(w, true);
    e.lens != e.reading && e.memory.seen == Some(MovedOf(w, true))
  }

  /** The first end has at most `n` facts of `top` to learn, a stale export counting as one. */
  ghost predicate Room(w: World, top: Doc, n: nat)
    requires BothPlaced(w)
  {
    && Below(DocOf(w, true), top) && Below(DocOf(w, false), top)
    && |Facts(top)| - |Facts(DocOf(w, true))| + (if Stale(w) then 1 else 0) <= n
  }

  ghost predicate BothSay(w: World)
  {
    SaysInSync(w, true) && SaysInSync(w, false)
  }

  /** Documents under a bound, joined with what another of them exports, stay under it. */
  lemma StaysUnder(w: World, first: bool, r: Reading, x: Doc, top: Doc)
    requires Sound(w) && Below(DocOf(w, true), top) && Below(DocOf(w, false), top)
    requires x == Export(DocOf(w, !first), Here(w, !first).host.share, r)
    ensures Below(DocOf(w, first), JoinDocs(DocOf(w, first), x)) && Below(JoinDocs(DocOf(w, first), x), top)
    ensures Below(x, JoinDocs(DocOf(w, first), x))
  {
    hide Identities, Authored, Backed, BagOk, EndOk, OneName, Below, Export, JoinDocs, Validate;
    var d, e := DocOf(w, first), DocOf(w, !first);
    ExportIsBelow(e, Here(w, !first).host.share, r);
    LiveStands(w.sys, w.one.id);
    LiveStands(w.sys, w.two.id);
    assert OneName(e, d);
    OneNameBelow(x, e, d);
    OneNameAgrees(d, x);
    BelowTransitive(x, e, top);
    JoinIsLeast(d, x, top);
  }

  /** Two rounds, one from each end: in sync both, or both have heard each other just now. */
  lemma TwoRounds(w: World, now: int, pause: nat, top: Doc) returns (run: seq<World>, x: Doc, y: Doc)
    requires Sound(w) && BothReady(w, now, pause) && Below(DocOf(w, true), top) && Below(DocOf(w, false), top)
    ensures QuietRun(w, run) && Sound(Last(w, run)) && |run| <= 8
    ensures var z := Last(w, run);
      BothSay(z) || (BothReady(z, now + pause, pause) && Answered(w, z, x, y))
    ensures var z := Last(w, run);
      && Below(DocOf(w, true), DocOf(z, true)) && Below(DocOf(z, true), top)
      && Below(DocOf(w, false), DocOf(z, false)) && Below(DocOf(z, false), top)
      && Below(x, DocOf(z, false)) && x == Export(DocOf(w, true), Here(z, true).host.share, Here(z, true).lens)
      && y == Export(DocOf(z, false), Here(z, false).host.share, Here(z, false).lens)
      && forall first :: Here(z, first).host == Here(w, first).host
  {
    hide Inv, BagOk, EndOk, Export, JoinDocs, Quietly, Below, Facts;
    var r1, r2;
    r1, x := Round(w, true, now, pause);
    var p := Last(w, r1);
    HeardUnder(w, p, r1, true, x, now, top);
    r2, y := Round(p, false, now, pause);
    var z := Last(p, r2);
    HeardUnder(p, z, r2, false, y, now, top);
    QuietConcat(w, r1, r2);
    run := r1 + r2;
  }

  /** The first end, in sync on `x` a round ago, has just taken `y` in. */
  ghost predicate Answered(w: World, z: World, x: Doc, y: Doc)
    requires BothPlaced(w) && BothPlaced(z)
  {
    var e, f := Here(w, true), Here(z, true);
    && SaysInSync(z, false)
    && f.memory.acked == Some(x) && f.memory.exported == Some(x) && f.memory.lastMerged == Some(y)
    && f.host == e.host && f.reading == e.reading
    && f.lens == (if e.memory.seen == Some(MovedOf(w, true)) then e.lens else e.reading)
    && x == Export(DocOf(w, true), f.host.share, f.lens)
    && DocOf(z, true) == JoinDocs(DocOf(w, true), y)
    && (f.memory.seen == Some(MovedOf(z, true)) || !Stale(z))
  }

  lemma HeldIsThere(w: World, first: bool, x: Doc)
    requires Sound(w) && Held(Here(w, first).memory, x)
    ensures Below(x, DocOf(w, !first))
  {
    hide Inv, BagOk, Below, Export;
    assert EndOk(w, first);
  }

  lemma HeardUnder(w: World, z: World, run: seq<World>, first: bool, x: Doc, now: int, top: Doc)
    requires Sound(w) && BothPlaced(z) && z == Last(w, run) && Spoke(w, z, first, x, now) && Took(run, w, first, x, now)
    requires Below(DocOf(w, true), top) && Below(DocOf(w, false), top)
    ensures Below(DocOf(w, true), DocOf(z, true)) && Below(DocOf(z, true), top)
    ensures Below(DocOf(w, false), DocOf(z, false)) && Below(DocOf(z, false), top)
    ensures Below(x, DocOf(z, !first))
  {
    hide Inv, BagOk, EndOk, Export, JoinDocs, Below;
    BelowSelf(DocOf(w, true));
    BelowSelf(DocOf(w, false));
    if Held(Here(w, first).memory, x) { HeldIsThere(w, first, x); }
    StaysUnder(w, !first, Here(z, first).lens, x, top);
  }

  /** Two rounds that were not enough taught the first end something, or woke it to a policy
      changed before: then a third round would not have to send. */
  lemma RoomShrinks(w: World, z: World, x: Doc, y: Doc, x3: Doc, m: Memory, top: Doc, n: nat)
    requires BothPlaced(w) && BothPlaced(z) && Room(w, top, n) && Answered(w, z, x, y)
    requires Below(DocOf(w, true), DocOf(z, true)) && Below(DocOf(z, true), top) && Below(DocOf(z, false), top)
    requires var e := Here(z, true);
      && Looked(e, DocOf(z, true), MovedOf(z, true), m, x3) && !Held(e.memory, x3)
      && (e.memory.seen == Some(MovedOf(z, true)) ==> e.memory.exported == Some(x3))
    ensures n > 0 && Room(z, top, n - 1)
  {
    hide Below, Export, Facts;
    FactsGrow(DocOf(w, true), DocOf(z, true));
    FactsGrow(DocOf(z, true), top);
  }

  /** Without edits or losses both sessions come to be in sync, after at most eight moves for
      each fact the first end has to learn and ten more. */
  lemma {:induction false} Converge(w: World, now: int, pause: nat, top: Doc, n: nat) returns (run: seq<World>)
    requires Sound(w) && BothReady(w, now, pause) && Room(w, top, n)
    ensures QuietRun(w, run) && Sound(Last(w, run)) && BothSay(Last(w, run)) && |run| <= 8 * n + 10
    decreases n
  {
    hide Inv, BagOk, EndOk, Export, JoinDocs, Quietly, Below, Facts, Answered, Looked, Stale;
    var two, x, y := TwoRounds(w, now, pause, top);
    run := two;
    var z := Last(w, two);
    if !BothSay(z) {
      var third, x3 := Round(z, true, now + pause, pause);
      if Held(Here(z, true).memory, x3) {
        run := two + third;
        QuietConcat(w, two, third);
        StillSays(w, z, Last(z, third), x, y);
      } else {
        ThirdSent(w, z, Last(z, third), x, y, x3, now + pause, top, n);
        var rest := Converge(z, now + pause, pause, top, n - 1);
        run := two + rest;
        QuietConcat(w, two, rest);
      }
    }
  }

  lemma StillSays(w: World, z: World, z': World, x: Doc, y: Doc)
    requires BothPlaced(w) && BothPlaced(z) && BothPlaced(z') && Answered(w, z, x, y) && Same(z, z', false)
    ensures SaysInSync(z', false)
  {
    hide Export;
  }

  lemma ThirdSent(w: World, z: World, z': World, x: Doc, y: Doc, x3: Doc, now: int, top: Doc, n: nat)
    requires BothPlaced(w) && BothPlaced(z) && BothPlaced(z') && Room(w, top, n) && Answered(w, z, x, y)
    requires Below(DocOf(w, true), DocOf(z, true)) && Below(DocOf(z, true), top) && Below(DocOf(z, false), top)
    requires Spoke(z, z', true, x3, now) && !Held(Here(z, true).memory, x3)
    ensures n > 0 && Room(z, top, n - 1)
  {
    hide Below, Export, Facts, Room, Stale, Answered;
    RoomShrinks(w, z, x, y, x3, Here(z', true).memory, top, n);
  }

  // ---------------------------------------------------------------------------
  // Sharing everything
  // ---------------------------------------------------------------------------

  lemma JoinIsAbove(w: World)
    requires Sound(w)
    ensures var top := JoinDocs(DocOf(w, true), DocOf(w, false));
      && Below(DocOf(w, true), top) && Below(DocOf(w, false), top)
      && forall d :: Below(DocOf(w, true), d) && Below(DocOf(w, false), d) ==> Below(top, d)
  {
    hide Identities, Authored, Backed, BagOk, EndOk, OneName, Below, JoinDocs, Validate;
    LiveStands(w.sys, w.one.id);
    LiveStands(w.sys, w.two.id);
    var a, b := DocOf(w, true), DocOf(w, false);
    OneNameAgrees(a, b);
    JoinIsLeast(a, b, a);
    forall d | Below(a, d) && Below(b, d) ensures Below(JoinDocs(a, b), d) { JoinIsLeast(a, b, d); }
  }

  lemma TenMoves(w: World, now: int, pause: nat) returns (more: seq<World>)
    requires Sound(w) && BothReady(w, now, pause) && forall first, thing :: Here(w, first).host.share(thing)
    ensures QuietRun(w, more) && |more| <= 10
    ensures var z := Last(w, more);
      && Sound(z) && BothSay(z)
      && DocOf(z, true) == DocOf(z, false) == JoinDocs(DocOf(w, true), DocOf(w, false))
  {
    hide Inv, BagOk, EndOk, Export, JoinDocs, Quietly, Below, Answered, Looked, QuietRun, SaysInSync;
    var top := JoinDocs(DocOf(w, true), DocOf(w, false));
    JoinIsAbove(w);
    var two, x, y := TwoRounds(w, now, pause, top);
    var z := Last(w, two);
    more := two;
    if !BothSay(z) {
      var third, x3 := Round(z, true, now + pause, pause);
      AllLeaves(z, true);
      AllLeaves(z, false);
      AllIsHeld(w, z, Last(z, third), x, y, x3, now + pause);
      more := two + third;
      QuietConcat(w, two, third);
      StillSays(w, z, Last(z, third), x, y);
    }
    var last := Last(w, more);
    SoundAgree(last);
    BelowAntisymmetric(DocOf(last, true), top);
  }

  lemma AllIsHeld(w: World, z: World, z': World, x: Doc, y: Doc, x3: Doc, now: int)
    requires Sound(w) && Sound(z) && BothPlaced(z') && Answered(w, z, x, y) && Spoke(z, z', true, x3, now)
    requires forall first, thing :: Here(w, first).host.share(thing) && Here(z, first).host.share(thing)
    requires y == DocOf(z, false) && Below(x, DocOf(z, false))
    ensures Held(Here(z, true).memory, x3)
  {
    hide Inv, BagOk, EndOk, Export, JoinDocs, Below, SaysInSync;
    AllLeaves(w, true);
    AllLeaves(z, true);
    JoinAbsorbs(DocOf(w, true), y);
  }

  // ---------------------------------------------------------------------------
  // Opening
  // ---------------------------------------------------------------------------

  /** A tick leaves an open session that has just heard its peer open. */
  lemma TickStaysOpen(m: Memory, id: Text, d: Doc, moved: nat, host: Host, r: Reading, now: int)
    requires m.phase == Open && m.lastHeard == now && host.timing.silenceTimeout > 0
    ensures var n := Ticked(m, id, d, moved, host, r, now).memory;
      && n.phase == Open && n.peer == m.peer && n.lastHeard == now
      && (n.docSentAt == m.docSentAt || n.docSentAt == now)
  {
    hide Export;
  }

  /** A started session that hears a hello opens, and names its peer. */
  lemma HelloOpens(e: End, d: Doc, moved: nat, name: Text, started: int, from: Text, nonce: Text, now: int)
    requires e.memory == Started(e.id, name, started).memory && from != e.id && from != []
    requires e.host.timing.silenceTimeout > 0
    ensures var t := Received(e.memory, e.id, d, moved, e.host, e.reading, Frame(from, nonce, Hello(false)), Invalid, now);
      && t.memory.phase == Open && t.memory.peer == from && t.memory.lastHeard == now
      && (t.memory.docSentAt == -1 || t.memory.docSentAt == now)
  {
    hide Export, Ticked;
    var g := Greeted(e.memory, Frame(from, nonce, Hello(false)), now);
    TickStaysOpen(g, e.id, d, moved, e.host, e.reading, now);
  }

  /** The policy has not been set, and an export looked at under it is not stale. */
  ghost predicate SameReading(e: End, f: End)
  {
    f.reading == e.reading && (e.lens == e.reading ==> f.lens == f.reading)
  }

  lemma BeginMove(w: World, first: bool, name: Text, now: int) returns (z: World)
    requires Sound(w)
    ensures Leads(w, z) && Sound(z) && Same(w, z, !first) && z.sys == w.sys && BothPlaced(z)
    ensures Here(z, first).memory == Started(Here(w, first).id, name, now).memory
    ensures Here(z, first).host == Here(w, first).host && Here(z, first).id == Here(w, first).id
    ensures SameReading(Here(w, first), Here(z, first))
    ensures Frame(Here(w, first).id, name, Hello(false)) in z.bag && w.bag <= z.bag
  {
    hide Inv, BagOk, EndOk;
    var e := Here(w, first);
    var t := Started(e.id, name, now);
    assert Frame(e.id, name, Hello(false)) in t.out && StatesIn(t.out) == {};
    z := After(w, first, t, w.sys, w.moved);
    assert Moves(w, Begin(first, name, now), z);
    MoveKeeps(w, Begin(first, name, now), z);
  }

  /** A hello reaches a saved, started session. */
  lemma HelloMove(w: World, first: bool, name: Text, started: int, nonce: Text, now: int) returns (z: World)
    requires Sound(w) && IsSaved(w.sys, Here(w, first).id)
    requires Here(w, first).memory == Started(Here(w, first).id, name, started).memory
    requires Here(w, first).host.timing.silenceTimeout > 0
    requires Frame(There(w, first).id, nonce, Hello(false)) in w.bag
    ensures Leads(w, z) && Sound(z) && Same(w, z, !first) && BothPlaced(z) && w.bag <= z.bag
    ensures IsSaved(w.sys, There(w, first).id) ==> IsSaved(z.sys, There(z, first).id)
    ensures var e, m := Here(w, first), Here(z, first).memory;
      && Here(z, first).host == e.host && Here(z, first).id == e.id && DocOf(z, first) == DocOf(w, first)
      && SameReading(e, Here(z, first))
      && m.phase == Open && m.peer == There(w, first).id && m.lastHeard == now
      && (m.docSentAt == -1 || m.docSentAt == now)
  {
    hide Inv, BagOk, EndOk, Export, Received, Refuses, Validate;
    var e, you := Here(w, first), There(w, first);
    var f := Frame(you.id, nonce, Hello(false));
    var d := w.sys.live[e.id].doc;
    HelloOpens(e, d, w.moved[e.id], name, started, you.id, nonce, now);
    var t := Received(e.memory, e.id, d, w.moved[e.id], e.host, e.reading, f, Invalid, now);
    z := After(w, first, t, w.sys, w.moved);
    assert Moves(w, Deliver(first, f, now), z);
    MoveKeeps(w, Deliver(first, f, now), z);
  }

  /** Both sessions restarted, each hears the other's hello: six moves, and they are ready after
      one pause. */
  lemma Opens(w: World, name: Text, other: Text, now: nat, pause: nat) returns (run: seq<World>)
    requires Sound(w) && forall first :: Patient(Here(w, first).host, pause)
    ensures |run| == 6 && (forall i :: 0 <= i < 6 ==> Leads(Before(w, run, i), run[i]))
    ensures Sound(run[5]) && BothReady(run[5], now + pause, pause)
    ensures forall first :: DocOf(run[5], first) == DocOf(w, first) && Here(run[5], first).host == Here(w, first).host
    ensures forall first :: SameReading(Here(w, first), Here(run[5], first))
  {
    hide Inv, BagOk, EndOk, Leads, IsSaved, Quietly;
    var a := SaveMove(w, true);
    QuietLeads(w, a);
    var b := SaveMove(a, false);
    QuietLeads(a, b);
    var c := BeginMove(b, true, name, now);
    var d := BeginMove(c, false, other, now);
    var e := HelloMove(d, true, name, now, other, now);
    var f := HelloMove(e, false, other, now, name, now);
    run := [a, b, c, d, e, f];
  }

  lemma QuietLeads(w: World, w': World)
    requires Quietly(w, w')
    ensures Leads(w, w')
  {
    hide Moves, IsQuiet;
  }
}
