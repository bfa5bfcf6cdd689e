/** Two sessions, their replicas among all the others, and a bag of frames.

    The wire keeps every frame ever sent in one set: a frame that is never taken out was lost,
    one taken out twice was repeated, and any order of taking them out is a reordering. What
    each end believes of the other, and what each frame claims of its sender, stays borne out
    by the documents through every move. */
module SessionRuns {
  import opened Bytes
  import opened Docs
  import opened Edits
  import opened Exports
  import opened Options
  import opened Replicas
  import opened Runs
  import opened Sessions

  /** One end: a replica's id, what its host shares, how it reads, its session, and how it read
      when it last looked at its export. */
  datatype End = End(id: Text, host: Host, reading: Reading, memory: Memory, lens: Reading)

  /** An end after its session has moved: the export was looked at again if what was seen
      changed. */
  function Turned(e: End, m: Memory): End
  {
    e.(memory := m, lens := if m.seen == e.memory.seen then e.lens else e.reading)
  }

  /** The whole system of replicas, how often each has moved, two ends, and every frame either
      has put on the wire. A frame that is never delivered is lost; one delivered twice is
      repeated. */
  datatype World = World(sys: System, moved: map<Text, nat>, one: End, two: End, bag: set<Frame>)

  function Here(w: World, first: bool): End
  {
    if first then w.one else w.two
  }

  function There(w: World, first: bool): End
  {
    if first then w.two else w.one
  }

  datatype Move =
    | Around(act: Act)
    | Begin(first: bool, name: Text, now: int)
    | Pass(first: bool, now: int)
    | Deliver(first: bool, frame: Frame, now: int)
    | Policy(first: bool, reading: Reading)

  function StatesIn(out: seq<Frame>): set<Doc>
  {
    set f | f in out && f.body.State? :: f.body.payload
  }

  /** States leave from the running copy, which is then the only save to return to. */
  ghost function Sent(sys: System, id: Text, ds: set<Doc>): System
    requires id in sys.live
  {
    if ds == {} then sys else Kept(sys, id, [sys.live[id]]).(sent := sys.sent + ds)
  }

  /** The world after one end's turn: its memory, its frames on the wire, and its states among
      the documents sent. */
  ghost function After(w: World, first: bool, t: Turn, sys: System, moved: map<Text, nat>): World
    requires Here(w, first).id in sys.live
  {
    var s := Sent(sys, Here(w, first).id, StatesIn(t.out));
    var bag := w.bag + set f | f in t.out;
    if first then World(s, moved, Turned(w.one, t.memory), w.two, bag)
    else World(s, moved, w.one, Turned(w.two, t.memory), bag)
  }

  /** A state leaves only from a replica that has been saved. */
  ghost predicate MaySend(sys: System, id: Text, t: Turn)
  {
    StatesIn(t.out) != {} ==> id in sys.live && IsSaved(sys, id)
  }

  /** What merging a frame comes to at an end. */
  ghost function Outcome(w: World, first: bool, frame: Frame): MergeResult
    requires Here(w, first).id in w.sys.live
  {
    var e := Here(w, first);
    if !AsksMerge(e.memory, frame) then Invalid
    else if Refuses(w.sys.live[e.id].doc, frame.body.payload, e.id) then IdentityCollision
    else Merged
  }

  /** Any act of any replica, except that the two ends never lose what they hold: edits, merges
      from other peers, saves, forks. The two ends notice a change by the count of moves. */
  ghost predicate Goes(w: World, act: Act, w': World)
  {
    && !(act.Crash? && (act.id == w.one.id || act.id == w.two.id)) && Step(w.sys, act, w'.sys)
    && w'.one == w.one && w'.two == w.two && w'.bag == w.bag && w.moved.Keys <= w'.moved.Keys
    && forall id :: id in w.moved && id in w.sys.live && id in w'.sys.live ==>
         (w.moved[id] <= w'.moved[id] && (w'.sys.live[id].doc != w.sys.live[id].doc ==> w.moved[id] < w'.moved[id]))
  }

  ghost predicate Moves(w: World, move: Move, w': World)
    requires w.one.id in w.sys.live && w.two.id in w.sys.live && w.one.id in w.moved && w.two.id in w.moved
  {
    match move
    case Around(act) => Goes(w, act, w')
    case Begin(first, name, now) =>
      w' == After(w, first, Started(Here(w, first).id, name, now), w.sys, w.moved)
    case Pass(first, now) =>
      var e := Here(w, first);
      var t := Ticked(e.memory, e.id, w.sys.live[e.id].doc, w.moved[e.id], e.host, e.reading, now);
      MaySend(w.sys, e.id, t) && w' == After(w, first, t, w.sys, w.moved)
    case Deliver(first, frame, now) =>
      var e := Here(w, first);
      var result := Outcome(w, first, frame);
      var t := Received(e.memory, e.id, w.sys.live[e.id].doc, w.moved[e.id], e.host, e.reading, frame, result, now);
      frame in w.bag && MaySend(w.sys, e.id, t) && w' ==
        if result == Merged then
          After(w, first, t,
                w.sys.(live := w.sys.live[e.id := Absorbed(w.sys.live[e.id], e.id, frame.body.payload)]),
                w.moved[e.id := w.moved[e.id] + 1])
        else After(w, first, t, w.sys, w.moved)
    case Policy(first, reading) =>
      w' == if first then w.(one := w.one.(reading := reading)) else w.(two := w.two.(reading := reading))
  }

  // ---------------------------------------------------------------------------
  // What an end may believe
  // ---------------------------------------------------------------------------

  ghost predicate Within(x: Option<Doc>, d: Doc)
  {
    x.Some? ==> Below(x.value, d)
  }

  /** An end's memory is true of its own document and of its peer's. */
  ghost predicate MemoryOk(e: End, mine: Doc, theirs: Doc, peer: Text, moved: nat)
  {
    var m := e.memory;
    && (m.peer == [] || m.peer == peer)
    && Within(m.acked, theirs) && Within(m.lastMerged, theirs) && Within(m.lastMerged, mine)
    && Within(m.exported, mine)
    && (m.seen.Some? ==> m.seen.value <= moved)
    && (m.seen == Some(moved) ==> m.exported == Some(Export(mine, e.host.share, e.lens)))
    && m.refused == None
  }

  /** A frame from a replica says nothing its document does not bear out. */
  ghost predicate FrameOk(f: Frame, d: Doc)
  {
    match f.body
    case State(digest, payload) => digest == payload && Below(payload, d)
    case Ack(digest) => Below(digest, d)
    case Refuse(_) => false
    case _ => true
  }

  ghost predicate OutOk(out: seq<Frame>, id: Text, d: Doc)
  {
    forall f :: f in out ==> f.from == id && FrameOk(f, d)
  }

  lemma WithinMore(x: Option<Doc>, d: Doc, d': Doc)
    requires Within(x, d) && Below(d, d')
    ensures Within(x, d')
  {
    if x.Some? { BelowTransitive(x.value, d, d'); }
  }

  /** Documents only grow, so what was true of them stays true. */
  lemma MemoryLater(e: End, mine: Doc, theirs: Doc, mine': Doc, theirs': Doc, peer: Text, moved: nat, moved': nat)
    requires MemoryOk(e, mine, theirs, peer, moved) && Below(mine, mine') && Below(theirs, theirs')
    requires moved <= moved' && (mine' != mine ==> moved < moved')
    ensures MemoryOk(e, mine', theirs', peer, moved')
  {
    hide Within, Below, Export;
    WithinMore(e.memory.acked, theirs, theirs');
    WithinMore(e.memory.lastMerged, theirs, theirs');
    WithinMore(e.memory.lastMerged, mine, mine');
    WithinMore(e.memory.exported, mine, mine');
  }

  lemma RefreshedOk(e: End, mine: Doc, theirs: Doc, peer: Text, moved: nat)
    requires MemoryOk(e, mine, theirs, peer, moved)
    ensures MemoryOk(Turned(e, Refreshed(e.memory, mine, moved, e.host, e.reading)), mine, theirs, peer, moved)
  {
    hide Below, Export;
    ExportIsBelow(mine, e.host.share, e.reading);
  }

  lemma SpokenOk(e: End, mine: Doc, theirs: Doc, peer: Text, moved: nat, now: int)
    requires MemoryOk(e, mine, theirs, peer, moved)
    ensures var t := KeptAlive(Spoken(e.memory, e.id, e.host, now), e.id, e.host, now);
      MemoryOk(Turned(e, t.memory), mine, theirs, peer, moved) && OutOk(t.out, e.id, mine)
    ensures KeptAlive(Spoken(e.memory, e.id, e.host, now), e.id, e.host, now).memory.seen == e.memory.seen
    ensures var t := KeptAlive(Turn(e.memory, []), e.id, e.host, now);
      MemoryOk(Turned(e, t.memory), mine, theirs, peer, moved) && OutOk(t.out, e.id, mine)
  {
    hide Below, Export;
  }

  lemma TurnedTwice(e: End, m: Memory, n: Memory)
    requires n.seen == m.seen
    ensures Turned(Turned(e, m), n) == Turned(e, n)
    ensures var t := Turned(e, m); t.memory == m && t.id == e.id && t.host == e.host && t.reading == e.reading
  {
  }

  /** What an open session's tick comes to: silence, a pause, or the export looked at again. */
  lemma OpenTick(e: End, mine: Doc, moved: nat, now: int)
    requires e.memory.phase == Open
    ensures Ticked(e.memory, e.id, mine, moved, e.host, e.reading, now) ==
      if now - e.memory.lastHeard >= e.host.timing.silenceTimeout then Turn(e.memory.(phase := Closed), [])
      else if Settling(e.memory, e.host, now) then KeptAlive(Turn(e.memory, []), e.id, e.host, now)
      else
        KeptAlive(Spoken(Refreshed(e.memory, mine, moved, e.host, e.reading), e.id, e.host, now), e.id, e.host, now)
  {
    hide KeptAlive, Spoken, Refreshed, Settling;
  }

  lemma StillTick(e: End, mine: Doc, theirs: Doc, peer: Text, moved: nat, now: int)
    requires MemoryOk(e, mine, theirs, peer, moved) && e.memory.phase != Open
    ensures var t := Ticked(e.memory, e.id, mine, moved, e.host, e.reading, now);
      MemoryOk(Turned(e, t.memory), mine, theirs, peer, moved) && OutOk(t.out, e.id, mine)
  {
    hide Below, Export, Within, KeptAlive, Spoken, Refreshed, Settling;
  }

  lemma ClosedOk(e: End, mine: Doc, theirs: Doc, peer: Text, moved: nat)
    requires MemoryOk(e, mine, theirs, peer, moved)
    ensures MemoryOk(Turned(e, e.memory.(phase := Closed)), mine, theirs, peer, moved) && OutOk([], e.id, mine)
  {
    hide Below, Export, Within;
  }

  lemma TickedOk(e: End, mine: Doc, theirs: Doc, peer: Text, moved: nat, now: int)
    requires MemoryOk(e, mine, theirs, peer, moved)
    ensures var t := Ticked(e.memory, e.id, mine, moved, e.host, e.reading, now);
      MemoryOk(Turned(e, t.memory), mine, theirs, peer, moved) && OutOk(t.out, e.id, mine)
  {
    hide *;
    if e.memory.phase != Open {
      StillTick(e, mine, theirs, peer, moved, now);
    } else {
      OpenTick(e, mine, moved, now);
      ClosedOk(e, mine, theirs, peer, moved);
      RefreshedOk(e, mine, theirs, peer, moved);
      var m := Refreshed(e.memory, mine, moved, e.host, e.reading);
      var renewed := Turned(e, m);
      TurnedTwice(e, m, m);
      SpokenOk(renewed, mine, theirs, peer, moved, now);
      TurnedTwice(e, m, KeptAlive(Spoken(m, e.id, e.host, now), e.id, e.host, now).memory);
      SpokenOk(e, mine, theirs, peer, moved, now);
    }
  }

  lemma HelloOk(e: End, mine: Doc, theirs: Doc, peer: Text, moved: nat, frame: Frame, now: int)
    requires MemoryOk(e, mine, theirs, peer, moved) && frame.body.Hello?
    requires frame.from == e.id || frame.from == peer
    ensures var t := OnHello(e.memory, e.id, mine, moved, e.host, e.reading, frame, now);
      MemoryOk(Turned(e, t.memory), mine, theirs, peer, moved) && OutOk(t.out, e.id, mine)
  {
    hide Below, Export, Ticked;
    var greeted := Turned(e, Greeted(e.memory, frame, now));
    if frame.from != e.id && (e.memory.peer == [] || frame.from == e.memory.peer) {
      GreetedOk(e, mine, theirs, peer, moved, frame, now);
      TickedOk(greeted, mine, theirs, peer, moved, now);
    }
  }

  lemma GreetedOk(e: End, mine: Doc, theirs: Doc, peer: Text, moved: nat, frame: Frame, now: int)
    requires MemoryOk(e, mine, theirs, peer, moved) && frame.from == peer
    ensures MemoryOk(Turned(e, Greeted(e.memory, frame, now)), mine, theirs, peer, moved)
  {
    hide Below, Export;
  }

  /** What receiving a frame does to an end, the replica's document being `mine'` after it. */
  lemma ReceivedOk(e: End, mine: Doc, mine': Doc, theirs: Doc, peer: Text, moved: nat, moved': nat,
                   frame: Frame, result: MergeResult, now: int)
    requires MemoryOk(e, mine, theirs, peer, moved) && e.id != peer && peer != []
    requires (frame.from == e.id || (frame.from == peer && FrameOk(frame, theirs)))
    requires Below(mine, mine') && moved <= moved' && (mine' != mine ==> moved < moved')
    requires result == Merged ==> AsksMerge(e.memory, frame) && Below(frame.body.payload, mine') && moved < moved'
    requires result != Merged ==> mine' == mine && moved' == moved && result == Invalid && !AsksMerge(e.memory, frame)
    requires frame.body.State? ==> Validate(frame.body.payload)
    ensures var t := Received(e.memory, e.id, mine, moved, e.host, e.reading, frame, result, now);
      MemoryOk(Turned(e, t.memory), mine', theirs, peer, moved') && OutOk(t.out, e.id, mine')
  {
    hide Below, Export, OnHello, Refreshed, Validate;
    BelowSelf(theirs);
    var heard := Turned(e, e.memory.(lastHeard := now));
    MemoryLater(heard, mine, theirs, mine', theirs, peer, moved, moved');
    if frame.body.Hello? {
      HelloOk(e, mine, theirs, peer, moved, frame, now);
    } else if frame.body.Ack? {
      RefreshedOk(heard, mine, theirs, peer, moved);
    }
  }

  // ---------------------------------------------------------------------------
  // What every run keeps
  // ---------------------------------------------------------------------------

  ghost predicate EndOk(w: World, first: bool)
    requires Here(w, first).id in w.sys.live && There(w, first).id in w.sys.live && Here(w, first).id in w.moved
  {
    var me, you := Here(w, first), There(w, first);
    MemoryOk(me, w.sys.live[me.id].doc, w.sys.live[you.id].doc, you.id, w.moved[me.id])
  }

  ghost predicate BagOk(w: World)
    requires w.one.id in w.sys.live && w.two.id in w.sys.live
  {
    forall f :: f in w.bag ==>
      (f.from == w.one.id || f.from == w.two.id) && FrameOk(f, w.sys.live[f.from].doc)
      && (f.body.State? ==> f.body.payload in w.sys.sent)
  }

  ghost predicate BothPlaced(w: World)
  {
    && w.one.id in w.sys.live && w.two.id in w.sys.live && w.one.id in w.moved && w.two.id in w.moved
    && w.one.id != w.two.id && w.one.id != [] && w.two.id != []
  }

  ghost predicate Sound(w: World)
  {
    Inv(w.sys) && BothPlaced(w) && BagOk(w) && EndOk(w, true) && EndOk(w, false)
  }

  ghost predicate JustStarted(e: End)
  {
    exists name, now :: e.memory == Started(e.id, name, now).memory
  }

  /** Sessions about to start, over any sound system, with nothing on the wire. */
  ghost predicate Fresh(w: World)
  {
    && Inv(w.sys) && BothPlaced(w) && w.bag == {}
    && forall first :: JustStarted(Here(w, first))
  }

  lemma FreshIsSound(w: World)
    requires Fresh(w)
    ensures Sound(w)
  {
    hide Inv, Below, Export;
    forall first ensures EndOk(w, first) {
      assert JustStarted(Here(w, first));
    }
  }

  /** No act but its own crash takes anything out of a running document. */
  lemma ActsGrow(s: System, act: Act, s': System, id: Text)
    requires Inv(s) && Step(s, act, s') && !(act.Crash? && act.id == id) && id in s.live
    ensures id in s'.live && Below(s.live[id].doc, s'.live[id].doc)
  {
    hide Inv, Below, Absorbed, EditOf;
    BelowSelf(s.live[id].doc);
    match act {
      case Edit(x) =>
        if x == id {
          var n: nat :| n <= s'.live[id].issued && EditOf(s.live[id].doc, s'.live[id].doc, id, s.live[id].issued, n);
          EditGrows(s.live[id].doc, s'.live[id].doc, id, s.live[id].issued, n);
        }
      case Merge(x, remote) =>
        if x == id { MergeGrows(s, id, remote); }
      case _ =>
    }
  }

  lemma EditGrows(d: Doc, e: Doc, id: Text, lo: nat, hi: nat)
    requires EditOf(d, e, id, lo, hi)
    ensures Below(d, e)
  {
  }

  lemma MergeGrows(s: System, id: Text, remote: Doc)
    requires Inv(s) && id in s.live && remote in s.sent
    ensures Below(s.live[id].doc, Absorbed(s.live[id], id, remote).doc)
    ensures Below(remote, Absorbed(s.live[id], id, remote).doc)
  {
    hide Identities, Authored, Backed, Below, OneName, Validate, Refuses, JoinDocs, HighestCounter, Absorbed;
    var d := s.live[id].doc;
    LiveStands(s, id);
    assert Stands(s, remote) && OneName(d, remote);
    MergeRepOk(s, id, remote);
    OneNameAgrees(d, remote);
    JoinIsLeast(d, remote, d);
  }

  lemma FramesLater(w: World, w': World)
    requires BothPlaced(w) && BothPlaced(w') && BagOk(w)
    requires w'.one.id == w.one.id && w'.two.id == w.two.id && w.sys.sent <= w'.sys.sent
    requires forall id :: id == w.one.id || id == w.two.id ==> Below(w.sys.live[id].doc, w'.sys.live[id].doc)
    ensures forall f :: f in w.bag ==>
      (f.from == w'.one.id || f.from == w'.two.id) && FrameOk(f, w'.sys.live[f.from].doc)
      && (f.body.State? ==> f.body.payload in w'.sys.sent)
  {
    hide Below;
    forall f | f in w.bag ensures FrameOk(f, w'.sys.live[f.from].doc) {
      assert FrameOk(f, w.sys.live[f.from].doc);
      match f.body {
        case State(_, payload) => BelowTransitive(payload, w.sys.live[f.from].doc, w'.sys.live[f.from].doc);
        case Ack(digest) => BelowTransitive(digest, w.sys.live[f.from].doc, w'.sys.live[f.from].doc);
        case _ =>
      }
    }
  }

  lemma AroundKeeps(w: World, act: Act, w': World)
    requires Sound(w) && Goes(w, act, w')
    ensures Sound(w')
  {
    hide Inv, Below, Step, MemoryOk, FrameOk;
    StepKeeps(w.sys, act, w'.sys);
    ActsGrow(w.sys, act, w'.sys, w.one.id);
    ActsGrow(w.sys, act, w'.sys, w.two.id);
    SentGrows(w.sys, act, w'.sys);
    FramesLater(w, w');
    forall first ensures EndOk(w', first) {
      var me, you := Here(w, first), There(w, first);
      assert EndOk(w, first);
      MemoryLater(me, w.sys.live[me.id].doc, w.sys.live[you.id].doc, w'.sys.live[me.id].doc,
                  w'.sys.live[you.id].doc, you.id, w.moved[me.id], w'.moved[me.id]);
    }
  }

  lemma SentGrows(s: System, act: Act, s': System)
    requires Step(s, act, s')
    ensures s.sent <= s'.sent
  {
    hide Absorbed, Acts, Below;
  }

  /** Sending states of a saved replica keeps the system sound. */
  lemma {:induction false} SendAll(s: System, id: Text, ds: set<Doc>)
    requires Inv(s) && id in s.live && id in s.saved && s.saved[id] != []
    requires forall d :: d in ds ==> Below(d, s.saved[id][0].doc)
    ensures Inv(s.(sent := s.sent + ds))
  {
    hide Inv, Below;
    if ds == {} {
      assert s.sent + {} == s.sent;
    } else {
      var d :| d in ds;
      SendAll(s, id, ds - {d});
      var t := s.(sent := s.sent + (ds - {d}));
      SendKeeps(t, id, d);
      assert t.sent + {d} == s.sent + ds;
    }
  }

  /** One end's turn: its memory and frames are borne out, and so is everything older. */
  lemma TurnKeeps(w: World, first: bool, t: Turn, sys: System, moved: map<Text, nat>)
    requires Sound(w) && Inv(sys) && BothPlaced(w.(sys := sys, moved := moved)) && sys.sent == w.sys.sent
    requires forall id :: id == w.one.id || id == w.two.id ==> Below(w.sys.live[id].doc, sys.live[id].doc)
    requires var you := There(w, first);
      sys.live[you.id] == w.sys.live[you.id] && moved[you.id] == w.moved[you.id]
    requires var me, you := Here(w, first), There(w, first);
      && MemoryOk(Turned(me, t.memory), sys.live[me.id].doc, sys.live[you.id].doc, you.id, moved[me.id])
      && OutOk(t.out, me.id, sys.live[me.id].doc)
    requires MaySend(sys, Here(w, first).id, t)
    ensures Sound(After(w, first, t, sys, moved))
  {
    hide Inv, Below, MemoryOk, FrameOk;
    var me, you := Here(w, first), There(w, first);
    var w' := After(w, first, t, sys, moved);
    StatesSent(w, first, t, sys);
    FramesLater(w, w');
    forall f | f in w'.bag
      ensures (f.from == w'.one.id || f.from == w'.two.id) && FrameOk(f, w'.sys.live[f.from].doc)
      ensures f.body.State? ==> f.body.payload in w'.sys.sent
    {
      if f in t.out && f.body.State? { assert f.body.payload in StatesIn(t.out); }
    }
    assert EndOk(w, !first);
    MemoryLater(you, w.sys.live[you.id].doc, w.sys.live[me.id].doc, sys.live[you.id].doc, sys.live[me.id].doc,
                me.id, w.moved[you.id], moved[you.id]);
  }

  lemma StatesSent(w: World, first: bool, t: Turn, sys: System)
    requires Inv(sys) && Here(w, first).id in sys.live
    requires OutOk(t.out, Here(w, first).id, sys.live[Here(w, first).id].doc)
    requires MaySend(sys, Here(w, first).id, t)
    ensures Inv(Sent(sys, Here(w, first).id, StatesIn(t.out)))
  {
    hide Inv, Below;
    var id := Here(w, first).id;
    if StatesIn(t.out) != {} {
      forall d | d in StatesIn(t.out) ensures Below(d, sys.live[id].doc) {
        var f :| f in t.out && f.body.State? && f.body.payload == d;
        assert FrameOk(f, sys.live[id].doc);
      }
      var n := |sys.saved[id]| - 1;
      assert sys.saved[id][n..] == [sys.live[id]];
      TrimKeeps(sys, id, n);
      SendAll(Kept(sys, id, [sys.live[id]]), id, StatesIn(t.out));
    }
  }

  lemma BeginKeeps(w: World, first: bool, name: Text, now: int)
    requires Sound(w)
    ensures Sound(After(w, first, Started(Here(w, first).id, name, now), w.sys, w.moved))
  {
    hide Inv, Below, Export;
    BelowSelf(w.sys.live[w.one.id].doc);
    BelowSelf(w.sys.live[w.two.id].doc);
    TurnKeeps(w, first, Started(Here(w, first).id, name, now), w.sys, w.moved);
  }

  lemma PassKeeps(w: World, first: bool, now: int)
    requires Sound(w)
    requires var e := Here(w, first);
      MaySend(w.sys, e.id, Ticked(e.memory, e.id, w.sys.live[e.id].doc, w.moved[e.id], e.host, e.reading, now))
    ensures var e := Here(w, first);
      Sound(After(w, first, Ticked(e.memory, e.id, w.sys.live[e.id].doc, w.moved[e.id], e.host, e.reading, now),
                  w.sys, w.moved))
  {
    hide Inv, Below, MemoryOk, Ticked, OutOk, BagOk;
    var e, you := Here(w, first), There(w, first);
    var t := Ticked(e.memory, e.id, w.sys.live[e.id].doc, w.moved[e.id], e.host, e.reading, now);
    BelowSelf(w.sys.live[w.one.id].doc);
    BelowSelf(w.sys.live[w.two.id].doc);
    assert EndOk(w, first);
    TickedOk(e, w.sys.live[e.id].doc, w.sys.live[you.id].doc, you.id, w.moved[e.id], now);
    TurnKeeps(w, first, t, w.sys, w.moved);
  }

  lemma DeliverKeeps(w: World, first: bool, frame: Frame, now: int, w': World)
    requires Sound(w) && Moves(w, Deliver(first, frame, now), w')
    ensures Sound(w')
  {
    hide Inv, Below, MemoryOk, Received, OutOk, FrameOk, Absorbed, Refuses, Validate, JoinDocs;
    var e, you := Here(w, first), There(w, first);
    var d, result := w.sys.live[e.id], Outcome(w, first, frame);
    var t := Received(e.memory, e.id, d.doc, w.moved[e.id], e.host, e.reading, frame, result, now);
    BelowSelf(w.sys.live[w.one.id].doc);
    BelowSelf(w.sys.live[w.two.id].doc);
    assert EndOk(w, first);
    if frame.body.State? {
      NeverCollides(w.sys, e.id, frame.body.payload);
      SentIsValid(w.sys, frame.body.payload);
    }
    if result == Merged {
      var remote := frame.body.payload;
      var a := Absorbed(d, e.id, remote);
      var sys := w.sys.(live := w.sys.live[e.id := a]);
      MergeGrows(w.sys, e.id, remote);
      assert Step(w.sys, Merge(e.id, remote), sys);
      StepKeeps(w.sys, Merge(e.id, remote), sys);
      ReceivedOk(e, d.doc, a.doc, w.sys.live[you.id].doc, you.id, w.moved[e.id], w.moved[e.id] + 1, frame, result, now);
      NoStatesBack(e, d.doc, w.moved[e.id], frame, result, now);
      TurnKeeps(w, first, t, sys, w.moved[e.id := w.moved[e.id] + 1]);
    } else {
      ReceivedOk(e, d.doc, d.doc, w.sys.live[you.id].doc, you.id, w.moved[e.id], w.moved[e.id], frame, result, now);
      TurnKeeps(w, first, t, w.sys, w.moved);
    }
  }

  lemma SentIsValid(s: System, d: Doc)
    requires Inv(s) && d in s.sent
    ensures Validate(d)
  {
    hide Identities, OneName, Authored, Backed, Validate;
    assert Stands(s, d);
  }

  /** Reading another way moves nothing the session remembers. */
  lemma PolicyKeeps(w: World, first: bool, reading: Reading, w': World)
    requires Sound(w) && Moves(w, Policy(first, reading), w')
    ensures Sound(w')
  {
    hide Inv, Below, Export;
    assert EndOk(w, true) && EndOk(w, false);
  }

  /** A state received is answered, never with a state. */
  lemma NoStatesBack(e: End, d: Doc, moved: nat, frame: Frame, result: MergeResult, now: int)
    requires frame.body.State?
    ensures StatesIn(Received(e.memory, e.id, d, moved, e.host, e.reading, frame, result, now).out) == {}
  {
  }

  /** Every move keeps both ends and the wire true. */
  lemma MoveKeeps(w: World, move: Move, w': World)
    requires Sound(w) && Moves(w, move, w')
    ensures Sound(w')
  {
    match move {
      case Around(act) => AroundKeeps(w, act, w');
      case Begin(first, name, now) => BeginKeeps(w, first, name, now);
      case Pass(first, now) => PassKeeps(w, first, now);
      case Deliver(first, frame, now) => DeliverKeeps(w, first, frame, now, w');
      case Policy(first, reading) => PolicyKeeps(w, first, reading, w');
    }
  }

  // ---------------------------------------------------------------------------
  // Runs of the world
  // ---------------------------------------------------------------------------

  ghost predicate Leads(w: World, w': World)
  {
    BothPlaced(w) && exists move :: Moves(w, move, w')
  }

  ghost predicate IsWorldRun(run: seq<World>)
  {
    run != [] && Fresh(run[0]) && forall i :: 0 < i < |run| ==> Leads(run[i - 1], run[i])
  }

  lemma {:induction false} WorldSound(run: seq<World>, i: nat)
    requires IsWorldRun(run) && i < |run|
    ensures Sound(run[i])
  {
    hide Sound, Fresh, Moves;
    if i == 0 {
      FreshIsSound(run[0]);
    } else {
      WorldSound(run, i - 1);
      assert Leads(run[i - 1], run[i]);
      var move :| Moves(run[i - 1], move, run[i]);
      MoveKeeps(run[i - 1], move, run[i]);
    }
  }
}
