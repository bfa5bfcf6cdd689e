/** Two open sessions, both ticked often enough over a wire that delivers in time, stay open.

    Nothing but the clock and the wire is asked for: replicas may be edited, forked, saved and
    merged meanwhile, policies set, frames lost, repeated and reordered, as long as something of
    every turn that spoke arrives within the delay and nobody's frames come back to them. */
module Keepalive {
  import opened Bytes
  import opened Docs
  import opened Edits
  import opened Options
  import opened Replicas
  import opened Runs
  import opened SessionLaws
  import opened SessionRuns
  import opened Sessions

  /** A run with its moves and the time of each. */
  datatype Log = Log(worlds: seq<World>, moves: seq<Move>, at: seq<int>)

  /** What a move says, and who says it. */
  ghost function Words(w: World, move: Move, first: bool): seq<Frame>
    requires BothPlaced(w)
  {
    match move
    case Pass(who, now) =>
      var e := Here(w, who);
      if who != first then [] else
        Ticked(e.memory, e.id, w.sys.live[e.id].doc, w.moved[e.id], e.host, e.reading, now).out
    case Deliver(who, frame, now) =>
      var e := Here(w, who);
      if who != first then [] else
        Received(e.memory, e.id, w.sys.live[e.id].doc, w.moved[e.id], e.host, e.reading, frame,
                 Outcome(w, who, frame), now).out
    case _ => []
  }

  /** A move made at this time: no session is started again, and no frame reaches its sender. */
  ghost predicate MadeAt(w: World, move: Move, now: int)
  {
    match move
    case Pass(_, t) => t == now
    case Deliver(first, frame, t) => t == now && frame.from == There(w, first).id
    case Begin(_, _, _) => false
    case _ => true
  }

  ghost predicate Made(l: Log, i: nat)
    requires i < |l.moves| && |l.worlds| == |l.moves| + 1 && |l.at| == |l.moves|
  {
    BothPlaced(l.worlds[i]) && Moves(l.worlds[i], l.moves[i], l.worlds[i + 1])
    && MadeAt(l.worlds[i], l.moves[i], l.at[i])
  }

  ghost predicate IsLog(l: Log)
  {
    && |l.worlds| == |l.moves| + 1 && |l.at| == |l.moves|
    && (forall i :: 0 <= i < |l.worlds| ==> BothPlaced(l.worlds[i]))
    && (forall i :: 0 <= i < |l.moves| ==> Made(l, i))
    && forall i, j :: 0 <= i <= j < |l.at| ==> l.at[i] <= l.at[j]
  }

  /** A tick of this end in the stretch of `gap` that ends at `x`. */
  ghost predicate TickedBy(l: Log, first: bool, x: int, gap: nat)
    requires IsLog(l)
  {
    exists j: nat :: j < |l.moves| && x - gap <= l.at[j] <= x && l.moves[j] == Pass(first, l.at[j])
  }

  /** Every stretch of `gap` between `start` and the last move holds a tick. */
  ghost predicate TickedOften(l: Log, first: bool, start: int, gap: nat)
    requires IsLog(l)
  {
    forall x: int, n: nat :: n < |l.at| && start + gap <= x <= l.at[n] ==> TickedBy(l, first, x, gap)
  }

  /** Something the `i`th move said has arrived within `delay`. */
  ghost predicate Arrives(l: Log, first: bool, i: nat, delay: nat)
    requires IsLog(l) && i < |l.moves|
  {
    exists j: nat, f :: i < j < |l.moves| && l.at[j] <= l.at[i] + delay
      && f in Words(l.worlds[i], l.moves[i], first) && l.moves[j] == Deliver(!first, f, l.at[j])
  }

  /** Of every turn that spoke something arrives within `delay`, unless the run ends first. */
  ghost predicate HeardInTime(l: Log, first: bool, delay: nat)
    requires IsLog(l)
  {
    forall i: nat, n: nat ::
      i < |l.moves| && n < |l.at| && l.at[i] + delay < l.at[n] && Words(l.worlds[i], l.moves[i], first) != [] ==>
        Arrives(l, first, i, delay)
  }

  predicate OpenTo(m: Memory, peer: Text)
  {
    m.phase == Open && m.peer == peer
  }

  ghost predicate NoGoodbye(bag: set<Frame>)
  {
    forall f :: f in bag ==> !f.body.Bye?
  }

  /** Open to each other, with no goodbye on the wire. */
  ghost predicate Talking(w: World)
  {
    && Sound(w) && NoGoodbye(w.bag)
    && OpenTo(w.one.memory, w.two.id) && OpenTo(w.two.memory, w.one.id)
  }

  /** Neither timing nor identity has changed. */
  ghost predicate SameEnds(w: World, z: World)
  {
    forall first :: Here(z, first).id == Here(w, first).id && Here(z, first).host == Here(w, first).host
  }

  // ---------------------------------------------------------------------------
  // One move
  // ---------------------------------------------------------------------------

  /** What a move leaves of an end: both times as they were, or now. */
  ghost predicate Timed(w: World, move: Move, z: World, first: bool, now: int)
    requires BothPlaced(w)
  {
    var m, n := Here(w, first).memory, Here(z, first).memory;
    && n.phase == Open && n.peer == m.peer
    && (n.lastHeard == m.lastHeard || n.lastHeard == now)
    && (move.Deliver? && move.first == first ==> n.lastHeard == now)
    && n.lastSaid == (if Words(w, move, first) == [] then m.lastSaid else now)
    && (move.Pass? && move.first == first && Here(w, first).host.timing.keepalive > 0 ==>
          now - n.lastSaid < Here(w, first).host.timing.keepalive)
  }

  /** A turn of one end that leaves it open to its peer and says no goodbye. */
  lemma AfterTurn(w: World, first: bool, t: Turn, sys: System, moved: map<Text, nat>)
    requires Here(w, first).id in sys.live && NoGoodbye(w.bag)
    requires OpenTo(w.one.memory, w.two.id) && OpenTo(w.two.memory, w.one.id)
    requires OpenTo(t.memory, There(w, first).id) && forall f :: f in t.out ==> !f.body.Bye?
    ensures var z := After(w, first, t, sys, moved);
      && NoGoodbye(z.bag) && OpenTo(z.one.memory, z.two.id) && OpenTo(z.two.memory, z.one.id) && SameEnds(w, z)
      && Here(z, first).memory == t.memory && Here(z, !first) == Here(w, !first)
  {
    hide StatesIn;
  }

  lemma PassTimed(w: World, first: bool, now: int, z: World)
    requires Talking(w) && Moves(w, Pass(first, now), z)
    requires now - Here(w, first).memory.lastHeard < Here(w, first).host.timing.silenceTimeout
    ensures Talking(z) && SameEnds(w, z)
    ensures forall who :: Timed(w, Pass(first, now), z, who, now)
  {
    hide Sound, Ticked, After, MaySend, BothPlaced;
    assert Sound(w);
    SoundPlaces(w);
    MoveKeeps(w, Pass(first, now), z);
    var e := Here(w, first);
    var t := TurnAt(w, first, now, z);
    TickSpeaks(e.memory, e.id, w.sys.live[e.id].doc, w.moved[e.id], e.host, e.reading, now);
    AfterTurn(w, first, t, w.sys, w.moved);
  }

  lemma TurnAt(w: World, first: bool, now: int, z: World) returns (t: Turn)
    requires BothPlaced(w) && Moves(w, Pass(first, now), z)
    ensures Here(w, first).id in w.sys.live && Here(w, first).id in w.moved
    ensures var e := Here(w, first);
      && t == Ticked(e.memory, e.id, w.sys.live[e.id].doc, w.moved[e.id], e.host, e.reading, now)
      && z == After(w, first, t, w.sys, w.moved)
    ensures Words(w, Pass(first, now), first) == t.out && Words(w, Pass(first, now), !first) == []
  {
    hide Ticked, After;
    var e := Here(w, first);
    t := Ticked(e.memory, e.id, w.sys.live[e.id].doc, w.moved[e.id], e.host, e.reading, now);
  }

  lemma SoundPlaces(w: World)
    requires Sound(w)
    ensures BothPlaced(w) && Inv(w.sys)
    ensures forall f :: f in w.bag && f.body.State? ==> f.body.payload in w.sys.sent
  {
    hide Inv, EndOk, FrameOk;
  }

  lemma NeverACollision(w: World, first: bool, frame: Frame)
    requires Sound(w) && frame in w.bag
    ensures BothPlaced(w) && Outcome(w, first, frame) != IdentityCollision
  {
    hide Inv, Sound, AsksMerge, Refuses;
    SoundPlaces(w);
    if frame.body.State? { NeverCollides(w.sys, Here(w, first).id, frame.body.payload); }
    AskedForStates(Here(w, first).memory, frame);
  }

  lemma AskedForStates(m: Memory, frame: Frame)
    ensures AsksMerge(m, frame) ==> frame.body.State?
  {
  }

  lemma DeliverTimed(w: World, first: bool, frame: Frame, now: int, z: World)
    requires Talking(w) && Moves(w, Deliver(first, frame, now), z) && frame.from == There(w, first).id
    requires Here(w, first).host.timing.silenceTimeout > 0
    ensures Talking(z) && SameEnds(w, z)
    ensures forall who :: Timed(w, Deliver(first, frame, now), z, who, now)
  {
    hide Sound, Received, After, MaySend, Outcome, BothPlaced;
    assert Sound(w);
    SoundPlaces(w);
    MoveKeeps(w, Deliver(first, frame, now), z);
    var e := Here(w, first);
    var t, sys, moved := DeliveredAt(w, first, frame, now, z);
    NeverACollision(w, first, frame);
    TheyDiffer(w, first);
    ReceiveHears(e.memory, e.id, w.sys.live[e.id].doc, w.moved[e.id], e.host, e.reading, frame,
                 Outcome(w, first, frame), now);
    AfterTurn(w, first, t, sys, moved);
  }

  lemma MergedIsState(w: World, first: bool, frame: Frame)
    requires Here(w, first).id in w.sys.live
    ensures Outcome(w, first, frame) == Merged ==> frame.body.State?
  {
    hide Refuses, Validate;
  }

  lemma TheyDiffer(w: World, first: bool)
    requires BothPlaced(w)
    ensures Here(w, first).id != There(w, first).id && There(w, first).id != []
  {
  }

  lemma DeliveredAt(w: World, first: bool, frame: Frame, now: int, z: World)
      returns (t: Turn, sys: System, moved: map<Text, nat>)
    requires BothPlaced(w) && Moves(w, Deliver(first, frame, now), z)
    ensures frame in w.bag && Here(w, first).id in w.sys.live && Here(w, first).id in w.moved
    ensures var e := Here(w, first);
      && t == Received(e.memory, e.id, w.sys.live[e.id].doc, w.moved[e.id], e.host, e.reading, frame,
                       Outcome(w, first, frame), now)
      && e.id in sys.live && z == After(w, first, t, sys, moved)
    ensures Words(w, Deliver(first, frame, now), first) == t.out && Words(w, Deliver(first, frame, now), !first) == []
  {
    hide Received, After, Outcome, Absorbed;
    var e := Here(w, first);
    var result := Outcome(w, first, frame);
    t := Received(e.memory, e.id, w.sys.live[e.id].doc, w.moved[e.id], e.host, e.reading, frame, result, now);
    MergedIsState(w, first, frame);
    if result == Merged {
      sys := w.sys.(live := w.sys.live[e.id := Absorbed(w.sys.live[e.id], e.id, frame.body.payload)]);
      moved := w.moved[e.id := w.moved[e.id] + 1];
    } else {
      sys, moved := w.sys, w.moved;
    }
  }

  lemma MoveTimed(w: World, move: Move, now: int, z: World)
    requires Talking(w) && Moves(w, move, z) && MadeAt(w, move, now)
    requires forall first :: Here(w, first).host.timing.silenceTimeout > 0
    requires move.Pass? ==> now - Here(w, move.first).memory.lastHeard < Here(w, move.first).host.timing.silenceTimeout
    ensures Talking(z) && SameEnds(w, z)
    ensures forall who :: Timed(w, move, z, who, now)
  {
    hide Sound, Ticked, Received, Outcome, Step;
    match move {
      case Pass(first, t) => PassTimed(w, first, now, z);
      case Deliver(first, frame, t) => DeliverTimed(w, first, frame, now, z);
      case _ => MoveKeeps(w, move, z);
    }
  }

  // ---------------------------------------------------------------------------
  // The whole run
  // ---------------------------------------------------------------------------

  ghost predicate Went(l: Log, j: nat, first: bool)
    requires IsLog(l) && j < |l.moves|
  {
    Timed(l.worlds[j], l.moves[j], l.worlds[j + 1], first, l.at[j])
  }

  /** Everything up to the `i`th world went as it should. */
  ghost predicate WellTo(l: Log, i: nat)
    requires IsLog(l) && i < |l.worlds|
  {
    && (forall j :: 0 <= j <= i ==> Talking(l.worlds[j]) && SameEnds(l.worlds[0], l.worlds[j]))
    && forall j, first :: 0 <= j < i ==> Went(l, j, first)
  }

  /** What was heard, was heard from then on. */
  lemma {:induction false} HeardSince(l: Log, first: bool, j: nat, i: nat)
    requires IsLog(l) && j < i < |l.worlds| && WellTo(l, i) && l.moves[j].Deliver? && l.moves[j].first == first
    ensures Here(l.worlds[i], first).memory.lastHeard >= l.at[j]
  {
    hide Talking, SameEnds, Made, Words, BothPlaced;
    assert Went(l, i - 1, first);
    if j < i - 1 { HeardSince(l, first, j, i - 1); }
  }

  lemma {:induction false} HeardFrom(l: Log, first: bool, start: int, i: nat)
    requires IsLog(l) && i < |l.worlds| && WellTo(l, i) && Here(l.worlds[0], first).memory.lastHeard >= start
    requires forall j :: 0 <= j < |l.at| ==> start <= l.at[j]
    ensures Here(l.worlds[i], first).memory.lastHeard >= start
  {
    hide Talking, SameEnds, Made, Words, BothPlaced;
    if i > 0 {
      assert Went(l, i - 1, first);
      HeardFrom(l, first, start, i - 1);
    }
  }

  /** The time an end last spoke is that of a turn that spoke, or lies before the run. */
  lemma {:induction false} SpokeWhen(l: Log, first: bool, start: int, i: nat) returns (j: int)
    requires IsLog(l) && i < |l.worlds| && WellTo(l, i) && Here(l.worlds[0], first).memory.lastSaid <= start
    ensures var said := Here(l.worlds[i], first).memory.lastSaid;
      if j < 0 then said <= start
      else j < i && l.at[j] == said && Words(l.worlds[j], l.moves[j], first) != []
  {
    hide Talking, SameEnds, Words, Made, BothPlaced;
    if i == 0 {
      j := -1;
    } else {
      assert Went(l, i - 1, first);
      if Words(l.worlds[i - 1], l.moves[i - 1], first) == [] {
        j := SpokeWhen(l, first, start, i - 1);
      } else {
        j := i - 1;
      }
    }
  }

  /** What one end asks of the run: what its peer says within the keepalive, plus the gap between
      the peer's ticks and the delay of the wire, comes within its silence timeout. */
  ghost predicate EndTerms(l: Log, start: int, gap: nat, delay: nat, first: bool)
    requires IsLog(l)
  {
    var me, you := Here(l.worlds[0], first), There(l.worlds[0], first);
    && TickedOften(l, !first, start, gap) && HeardInTime(l, !first, delay)
    && me.memory.lastHeard >= start >= you.memory.lastSaid && you.host.timing.keepalive > 0
    && you.host.timing.keepalive + gap + delay < me.host.timing.silenceTimeout
  }

  ghost predicate Terms(l: Log, start: int, gap: nat, delay: nat)
    requires IsLog(l)
  {
    && (forall j :: 0 <= j < |l.at| ==> start <= l.at[j])
    && EndTerms(l, start, gap, delay, true) && EndTerms(l, start, gap, delay, false)
  }

  /** So no end ever goes unheard for as long as the timeout. */
  lemma HeardLately(l: Log, start: int, gap: nat, delay: nat, k: nat, first: bool)
    requires IsLog(l) && Terms(l, start, gap, delay) && k < |l.moves| && WellTo(l, k)
    ensures l.at[k] - Here(l.worlds[k], first).memory.lastHeard < Here(l.worlds[0], first).host.timing.silenceTimeout
  {
    hide Talking, SameEnds, Made, Words, WellTo, Timed, BothPlaced;
    HeardFrom(l, first, start, k);
    var x := l.at[k] - 1 - delay;
    if x >= start + gap {
      assert TickedOften(l, !first, start, gap);
      assert TickedBy(l, !first, x, gap);
      var j: nat :| j < |l.moves| && x - gap <= l.at[j] <= x && l.moves[j] == Pass(!first, l.at[j]);
      assert j < k;
      HeardAfterTick(l, start, gap, delay, k, first, j);
    }
  }

  lemma HeardAfterTick(l: Log, start: int, gap: nat, delay: nat, k: nat, first: bool, j: nat)
    requires IsLog(l) && Terms(l, start, gap, delay) && j < k < |l.moves| && WellTo(l, k)
    requires l.at[j] + delay < l.at[k] && l.moves[j] == Pass(!first, l.at[j])
    requires Here(l.worlds[k], first).memory.lastHeard >= start
    ensures l.at[j] - Here(l.worlds[k], first).memory.lastHeard < There(l.worlds[0], first).host.timing.keepalive
  {
    hide Talking, Made, Words, BothPlaced;
    WellBefore(l, j + 1, k);
    assert Went(l, j, !first) && SameEnds(l.worlds[0], l.worlds[j]);
    var i := SpokeWhen(l, !first, start, j + 1);
    if i >= 0 {
      assert HeardInTime(l, !first, delay);
      assert l.at[i] <= l.at[j] && Arrives(l, !first, i, delay);
      var a: nat, f :| i < a < |l.moves| && l.at[a] <= l.at[i] + delay
        && f in Words(l.worlds[i], l.moves[i], !first) && l.moves[a] == Deliver(first, f, l.at[a]);
      assert a < k;
      HeardSince(l, first, a, k);
    }
  }

  lemma WellBefore(l: Log, i: nat, k: nat)
    requires IsLog(l) && i <= k < |l.worlds| && WellTo(l, k)
    ensures WellTo(l, i)
  {
    hide Talking, SameEnds, Made, Went, BothPlaced;
  }

  /** Two open sessions that tick within every `gap`, over a wire that brings something of each
      turn within `delay`, never close, as long as the keepalive, the gap and the delay together
      are less than the silence timeout. */
  lemma {:induction false} NeverClose(l: Log, start: int, gap: nat, delay: nat, i: nat)
    requires IsLog(l) && Talking(l.worlds[0]) && Terms(l, start, gap, delay) && i < |l.worlds|
    ensures WellTo(l, i)
    ensures forall first :: Here(l.worlds[i], first).memory.phase == Open
  {
    hide Words, TickedOften, HeardInTime, Moves, Timed, Sound;
    if i > 0 {
      var k := i - 1;
      NeverClose(l, start, gap, delay, k);
      assert Made(l, k);
      HeardLately(l, start, gap, delay, k, true);
      HeardLately(l, start, gap, delay, k, false);
      MoveTimed(l.worlds[k], l.moves[k], l.at[k], l.worlds[i]);
    }
  }
}
