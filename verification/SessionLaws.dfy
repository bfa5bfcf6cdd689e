/** What one turn of a session promises its peer: how often it speaks, how often a state goes
    out, and whom it listens to. */
module SessionLaws {
  import opened Bytes
  import opened Docs
  import opened Edits
  import opened Exports
  import opened Options
  import opened Replicas
  import opened Sessions

  // ---------------------------------------------------------------------------
  // Speaking
  // ---------------------------------------------------------------------------

  /** The time of the last word is the time of the last turn that said something. */
  ghost predicate SaidAt(m: Memory, t: Turn, now: int)
  {
    t.memory.lastSaid == if t.out == [] then m.lastSaid else now
  }

  /** An open session heard from within the silence timeout stays open through a tick, and has
      then spoken within the keepalive. */
  lemma TickSpeaks(m: Memory, id: Text, d: Doc, moved: nat, host: Host, r: Reading, now: int)
    requires m.phase == Open && now - m.lastHeard < host.timing.silenceTimeout
    ensures var t := Ticked(m, id, d, moved, host, r, now);
      && t.memory.phase == Open && t.memory.peer == m.peer && t.memory.lastHeard == m.lastHeard
      && SaidAt(m, t, now)
      && (host.timing.keepalive > 0 ==> now - t.memory.lastSaid < host.timing.keepalive)
      && forall f :: f in t.out ==> f.from == id && !f.body.Bye?
  {
    hide Export;
  }

  /** A frame of the peer's, short of a goodbye or a collision, leaves an open session open and
      is heard. */
  lemma ReceiveHears(m: Memory, id: Text, d: Doc, moved: nat, host: Host, r: Reading, frame: Frame,
                     result: MergeResult, now: int)
    requires m.phase == Open && m.peer != [] && frame.from == m.peer && frame.from != id
    requires !frame.body.Bye? && result != IdentityCollision && host.timing.silenceTimeout > 0
    ensures var t := Received(m, id, d, moved, host, r, frame, result, now);
      && t.memory.phase == Open && t.memory.peer == m.peer && t.memory.lastHeard == now
      && SaidAt(m, t, now)
      && forall f :: f in t.out ==> f.from == id && !f.body.Bye?
  {
    hide Export, Ticked;
    if frame.body.Hello? {
      TickSpeaks(Greeted(m, frame, now), id, d, moved, host, r, now);
    }
  }

  /** A session that has heard nothing for the silence timeout closes at its next tick, without
      a word; so does one whose peer never said hello. Nothing else a tick does closes it. */
  lemma TickCloses(m: Memory, id: Text, d: Doc, moved: nat, host: Host, r: Reading, now: int)
    ensures var t := Ticked(m, id, d, moved, host, r, now);
      && (t.memory.phase == Closed <==>
            || m.phase == Closed
            || (m.phase == Connecting && now - m.started >= host.timing.helloTimeout)
            || (m.phase == Open && now - m.lastHeard >= host.timing.silenceTimeout))
      && (t.memory.phase == Closed ==> t.out == [])
      && (t.memory.phase == Open ==> m.phase == Open)
  {
    hide Export;
  }

  /** While it waits for the peer's hello a session says nothing but its own, every `resend`. */
  lemma ConnectingRepeats(m: Memory, id: Text, d: Doc, moved: nat, host: Host, r: Reading, now: int)
    requires m.phase == Connecting && now - m.started < host.timing.helloTimeout
    ensures var t := Ticked(m, id, d, moved, host, r, now);
      && (t.out != [] <==> now - m.lastSaid >= host.timing.resend)
      && SaidAt(m, t, now)
      && forall f :: f in t.out ==> f == Frame(id, m.nonce, Hello(m.peer != []))
  {
  }

  // ---------------------------------------------------------------------------
  // States
  // ---------------------------------------------------------------------------

  /** When a tick sends a state: the session is open and not silent, no state went out within
      the coalescing window, and the export is not one the peer acknowledged, refused or itself
      sent; an export already sent goes out again only after `resend`. */
  lemma StateGoesIff(m: Memory, id: Text, d: Doc, moved: nat, host: Host, r: Reading, now: int, x: Doc)
    requires x == if m.seen == Some(moved) && m.exported.Some? then m.exported.value else Export(d, host.share, r)
    requires m.seen == Some(moved) ==> m.exported.Some?
    ensures (exists f :: f in Ticked(m, id, d, moved, host, r, now).out && f.body.State?) <==>
      && m.phase == Open && now - m.lastHeard < host.timing.silenceTimeout
      && !(host.timing.coalesce > 0 && m.docSentAt >= 0 && now < m.docSentAt + host.timing.coalesce)
      && Some(x) !in {m.acked, m.refused, m.lastMerged}
      && (Some(x) == m.sent ==> now >= m.docSentAt + host.timing.resend)
    ensures forall f :: f in Ticked(m, id, d, moved, host, r, now).out && f.body.State? ==> f.body == State(x, x)
  {
    hide Export;
    var t := Ticked(m, id, d, moved, host, r, now);
    if m.phase == Open && now - m.lastHeard < host.timing.silenceTimeout && !Settling(m, host, now) {
      var s := Spoken(Refreshed(m, d, moved, host, r), id, host, now);
      if s.out != [] { assert t.out[0] == s.out[0] && t.out[0].body.State?; }
    }
  }

  // ---------------------------------------------------------------------------
  // Whom it listens to
  // ---------------------------------------------------------------------------

  /** Frames of anybody but the peer change nothing and are not answered; only a hello may say
      who the peer is, and one under the session's own id closes it. */
  lemma StrangersAreIgnored(m: Memory, id: Text, d: Doc, moved: nat, host: Host, r: Reading, frame: Frame,
                            result: MergeResult, now: int)
    requires m.phase != Closed && frame.from != m.peer
    ensures var t := Received(m, id, d, moved, host, r, frame, result, now);
      if frame.body.Hello? && frame.from == id then t.memory.phase == Closed && t.out == [Frame(id, m.nonce, Bye)]
      else (frame.body.Hello? && m.peer == []) || t == Turn(m, [])
  {
    hide Export, Ticked;
  }

  /** Every state of the peer's is answered: acknowledged when it was merged, now or just before,
      refused when it was not fit to be, and when it betrays a reused identity refused with a
      goodbye, closing the session. */
  lemma StatesAreAnswered(m: Memory, id: Text, d: Doc, moved: nat, host: Host, r: Reading, frame: Frame,
                          result: MergeResult, now: int)
    requires m.phase != Closed && m.peer != [] && frame.from == m.peer && frame.body.State?
    ensures var t, x := Received(m, id, d, moved, host, r, frame, result, now), frame.body.digest;
      && (Frame(id, m.nonce, Ack(x)) in t.out <==> m.lastMerged == Some(x) || result == Merged)
      && (Frame(id, m.nonce, Refuse(x)) in t.out <==> m.lastMerged != Some(x) && result != Merged)
      && (Frame(id, m.nonce, Bye) in t.out <==> m.lastMerged != Some(x) && result == IdentityCollision)
      && (t.memory.phase == Closed <==> Frame(id, m.nonce, Bye) in t.out)
      && (t.memory.lastMerged == Some(x) <==> Frame(id, m.nonce, Ack(x)) in t.out)
      && t.memory.lastHeard == now && t.memory.lastSaid == now
  {
    hide Export, Ticked;
    var t := Received(m, id, d, moved, host, r, frame, result, now);
    assert t.out[0].body.Ack? || t.out[0].body.Refuse?;
  }

  /** An acknowledgement counts only for the export as it stands, a refusal keeps that state from
      being sent again, and a goodbye closes. */
  lemma AnswersAreHeard(m: Memory, id: Text, d: Doc, moved: nat, host: Host, r: Reading, frame: Frame,
                        result: MergeResult, now: int)
    requires m.phase != Closed && m.peer != [] && frame.from == m.peer
    requires m.seen == Some(moved) ==> m.exported.Some?
    ensures var t := Received(m, id, d, moved, host, r, frame, result, now).memory;
      var x := if m.seen == Some(moved) && m.exported.Some? then m.exported.value else Export(d, host.share, r);
      && (frame.body.Ack? ==> t.acked == if frame.body.digest == x then Some(x) else m.acked)
      && (frame.body.Refuse? ==> t.refused == Some(frame.body.digest))
      && (frame.body.Bye? ==> t.phase == Closed)
  {
    hide Export, Ticked;
  }

  /** A hello of the peer's opens the session, and is answered with one exactly when the peer has
      not heard this side yet, each time it says so, or when the session opens. */
  lemma HellosAreAnswered(m: Memory, id: Text, d: Doc, moved: nat, host: Host, r: Reading, frame: Frame,
                          result: MergeResult, now: int)
    requires m.phase != Closed && frame.body.Hello? && frame.from != id && (m.peer == [] || frame.from == m.peer)
    requires frame.from != [] && host.timing.silenceTimeout > 0
    ensures var t := Received(m, id, d, moved, host, r, frame, result, now);
      && t.memory.phase == Open && t.memory.peer == frame.from && t.memory.peerNonce == frame.nonce
      && t.memory.lastHeard == now
      && (Frame(id, m.nonce, Hello(true)) in t.out <==>
            !frame.body.heard || m.phase == Connecting || frame.nonce != m.peerNonce)
  {
    hide Export, Ticked;
    var g := Greeted(m, frame, now);
    if Opening(m, frame) {
      TickSpeaks(g, id, d, moved, host, r, now);
      TickRemembers(g, id, d, moved, host, r, now);
      var t := Received(m, id, d, moved, host, r, frame, result, now);
      assert t.out[0] == HelloFrom(g, id);
    }
  }

  lemma TickRemembers(m: Memory, id: Text, d: Doc, moved: nat, host: Host, r: Reading, now: int)
    ensures Ticked(m, id, d, moved, host, r, now).memory.peerNonce == m.peerNonce
  {
    hide Export;
  }

  /** A hello under a new name forgets all that was said before it: nothing is held to be
      acknowledged, refused or merged, and the tick that follows sends the state at once. */
  lemma RestartSendsAtOnce(m: Memory, id: Text, d: Doc, moved: nat, host: Host, r: Reading, frame: Frame,
                           result: MergeResult, now: int)
    requires m.phase == Open && m.peer != [] && frame.from == m.peer && frame.from != id && frame.body.Hello?
    requires frame.nonce != m.peerNonce && host.timing.silenceTimeout > 0
    requires m.seen == Some(moved) ==> m.exported.Some?
    ensures var t := Received(m, id, d, moved, host, r, frame, result, now);
      var x := if m.seen == Some(moved) && m.exported.Some? then m.exported.value else Export(d, host.share, r);
      && Frame(id, m.nonce, Hello(true)) in t.out && Frame(id, m.nonce, State(x, x)) in t.out
      && t.memory.acked == None && t.memory.refused == None && t.memory.lastMerged == None
      && t.memory.peerNonce == frame.nonce && t.memory.lastHeard == now
  {
    hide Export, Settling;
    var g := Greeted(m, frame, now);
    assert !Settling(g, host, now) by { NeverSent(g, host, now); }
    var s := Spoken(Refreshed(g, d, moved, host, r), id, host, now);
    assert s.out != [];
    var t := Ticked(g, id, d, moved, host, r, now);
    assert t.out[0] == s.out[0];
    assert Received(m, id, d, moved, host, r, frame, result, now).out == [HelloFrom(g, id)] + t.out;
    assert ([HelloFrom(g, id)] + t.out)[1] == s.out[0];
  }

  lemma NeverSent(m: Memory, host: Host, now: int)
    requires m.docSentAt < 0
    ensures !Settling(m, host, now)
  {
  }
}
