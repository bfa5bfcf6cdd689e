/** The relationship between one device and one peer: handed frames and the time, it hands
    back frames to send. */
module Sessions {
  import opened Bytes
  import opened Docs
  import opened Edits
  import opened Exports
  import opened Options
  import opened Replicas

  datatype Phase = Connecting | Open | Closed

  /** What a frame carries. A state travels with its digest; a digest is told from another
      only by being that of another document, so the document stands for it. */
  datatype Body = Hello(heard: bool) | State(digest: Doc, payload: Doc) | Ack(digest: Doc) | Refuse(digest: Doc) | Bye

  datatype Frame = Frame(from: Text, nonce: Text, body: Body)

  datatype Timing = Timing(resend: int, helloTimeout: int, silenceTimeout: int, keepalive: int, coalesce: int)

  datatype Host = Host(share: ExportSet, timing: Timing)

  /** Everything a session remembers. */
  datatype Memory = Memory(
    phase: Phase, nonce: Text, peer: Text, peerNonce: Text,
    started: int, lastHeard: int, lastSaid: int,
    seen: Option<nat>, exported: Option<Doc>,
    acked: Option<Doc>, refused: Option<Doc>, sent: Option<Doc>, docSentAt: int,
    lastMerged: Option<Doc>)

  /** A session's memory after a step, and what it sends. */
  datatype Turn = Turn(memory: Memory, out: seq<Frame>)

  function Say(m: Memory, id: Text, body: Body): Frame
  {
    Frame(id, m.nonce, body)
  }

  function HelloFrom(m: Memory, id: Text): Frame
  {
    Say(m, id, Hello(m.peer != []))
  }

  /** `refresh_export`: recomputed only when the replica has moved. */
  ghost function Refreshed(m: Memory, d: Doc, revision: nat, host: Host, r: Reading): Memory
  {
    if m.seen == Some(revision) then m
    else m.(seen := Some(revision), exported := Some(Export(d, host.share, r)))
  }

  /** A session as it is constructed. */
  const UNSTARTED := Memory(Connecting, [], [], [], 0, 0, 0, None, None, None, None, None, -1, None)

  /** `start`: a name, the time, and a hello. */
  function Begun(m: Memory, id: Text, nonce: Text, now: int): Turn
  {
    var m1 := m.(phase := Connecting, nonce := nonce, started := now, lastHeard := now, lastSaid := now);
    Turn(m1, [HelloFrom(m1, id)])
  }

  /** A new session, started. */
  function Started(id: Text, nonce: Text, now: int): Turn
  {
    Begun(UNSTARTED, id, nonce, now)
  }

  predicate Settling(m: Memory, host: Host, now: int)
  {
    host.timing.coalesce > 0 && m.docSentAt >= 0 && now - m.docSentAt < host.timing.coalesce
  }

  /** Should the state go out: not held by the peer, not refused, and new or unanswered long
      enough? */
  predicate Due(m: Memory, host: Host, now: int)
  {
    && m.exported.Some? && m.exported != m.acked && m.exported != m.refused
    && (m.exported != m.sent || now - m.docSentAt >= host.timing.resend)
  }

  /** The sending half of `tick`, on an open session, once the export is fresh. */
  function Spoken(m: Memory, id: Text, host: Host, now: int): Turn
  {
    var m1 := if m.exported.Some? && m.exported == m.lastMerged then m.(acked := m.exported) else m;
    if Due(m1, host, now) then
      Turn(m1.(sent := m1.exported, docSentAt := now, lastSaid := now),
           [Say(m1, id, State(m1.exported.value, m1.exported.value))])
    else Turn(m1, [])
  }

  function KeptAlive(t: Turn, id: Text, host: Host, now: int): Turn
  {
    if now - t.memory.lastSaid >= host.timing.keepalive then
      Turn(t.memory.(lastSaid := now), t.out + [HelloFrom(t.memory, id)])
    else t
  }

  /** `tick`. */
  ghost function Ticked(m: Memory, id: Text, d: Doc, revision: nat, host: Host, r: Reading, now: int): Turn
  {
    match m.phase
    case Closed => Turn(m, [])
    case Connecting =>
      if now - m.started >= host.timing.helloTimeout then Turn(m.(phase := Closed), [])
      else if now - m.lastSaid >= host.timing.resend then Turn(m.(lastSaid := now), [HelloFrom(m, id)])
      else Turn(m, [])
    case Open =>
      if now - m.lastHeard >= host.timing.silenceTimeout then Turn(m.(phase := Closed), [])
      else if Settling(m, host, now) then KeptAlive(Turn(m, []), id, host, now)
      else KeptAlive(Spoken(Refreshed(m, d, revision, host, r), id, host, now), id, host, now)
  }

  /** A hello from a peer that restarted: whatever it had acknowledged is forgotten. */
  function Greeted(m: Memory, frame: Frame, now: int): Memory
  {
    var m1 := m.(lastHeard := now, peer := if m.peer == [] then frame.from else m.peer);
    var m2 := if frame.nonce == m.peerNonce then m1
      else m1.(peerNonce := frame.nonce, acked := None, refused := None, sent := None, docSentAt := -1,
               lastMerged := None);
    if Opening(m, frame) then m2.(phase := Open) else m2
  }

  predicate Opening(m: Memory, frame: Frame)
  {
    m.phase == Connecting || frame.nonce != m.peerNonce
  }

  ghost function OnHello(m: Memory, id: Text, d: Doc, revision: nat, host: Host, r: Reading, frame: Frame, now: int): Turn
    requires frame.body.Hello?
  {
    if frame.from == id then Turn(m.(phase := Closed), [Say(m, id, Bye)])
    else if m.peer != [] && frame.from != m.peer then Turn(m, [])
    else
      var g := Greeted(m, frame, now);
      var back := if !frame.body.heard || Opening(m, frame) then [HelloFrom(g, id)] else [];
      if Opening(m, frame) then
        var more := Ticked(g, id, d, revision, host, r, now);
        Turn(more.memory, back + more.out)
      else Turn(g, back)
  }

  /** A state from the peer, given what merging it came to. A state already merged is
      acknowledged again without merging. */
  function OnState(m: Memory, id: Text, digest: Doc, result: MergeResult, now: int): Turn
  {
    var h := m.(lastHeard := now);
    if m.lastMerged == Some(digest) then Turn(h, [Say(m, id, Ack(digest))])
    else match result
      case Merged => Turn(h.(lastMerged := Some(digest)), [Say(m, id, Ack(digest))])
      case Invalid => Turn(h, [Say(m, id, Refuse(digest))])
      case IdentityCollision => Turn(h.(phase := Closed), [Say(m, id, Refuse(digest)), Say(m, id, Bye)])
  }

  /** Is the replica asked to merge this frame? */
  predicate AsksMerge(m: Memory, frame: Frame)
  {
    && m.phase != Closed && frame.body.State? && m.peer != [] && frame.from == m.peer
    && m.lastMerged != Some(frame.body.digest)
    && Validate(frame.body.payload) && frame.body.digest == frame.body.payload
  }

  ghost function OnMessage(m: Memory, id: Text, d: Doc, revision: nat, host: Host, r: Reading, frame: Frame,
                           result: MergeResult, now: int): Turn
  {
    if frame.body.Hello? then OnHello(m, id, d, revision, host, r, frame, now)
    else if m.peer == [] || frame.from != m.peer then Turn(m, [])
    else match frame.body
      case State(digest, _) => OnState(m, id, digest, result, now)
      case Ack(digest) =>
        var f := Refreshed(m.(lastHeard := now), d, revision, host, r);
        Turn(if f.exported == Some(digest) then f.(acked := Some(digest)) else f, [])
      case Refuse(digest) => Turn(m.(lastHeard := now, refused := Some(digest)), [])
      case Bye => Turn(m.(lastHeard := now, phase := Closed), [])
      case Hello(_) => Turn(m, [])
  }

  /** `receive`. */
  ghost function Received(m: Memory, id: Text, d: Doc, revision: nat, host: Host, r: Reading, frame: Frame,
                          result: MergeResult, now: int): Turn
  {
    if m.phase == Closed then Turn(m, [])
    else
      var t := OnMessage(m, id, d, revision, host, r, frame, result, now);
      if t.out == [] then t else Turn(t.memory.(lastSaid := now), t.out)
  }

  /** `in_sync`: the peer has acknowledged the state this device shares now. */
  predicate InSync(m: Memory, revision: nat)
  {
    m.phase == Open && m.exported.Some? && m.acked == m.exported && m.seen == Some(revision)
  }

  // ---------------------------------------------------------------------------
  // The session as it runs
  // ---------------------------------------------------------------------------

  class Session {
    const replica: Replica
    const host: Host
    var phase: Phase
    var nonce: Text
    var peer: Text
    var peerNonce: Text
    var started: int
    var lastHeard: int
    var lastSaid: int
    var seen: Option<nat>
    var exported: Option<Doc>
    var acked: Option<Doc>
    var refused: Option<Doc>
    var sent: Option<Doc>
    var docSentAt: int
    var lastMerged: Option<Doc>

    ghost function Memo(): Memory
      reads this
    {
      Memory(phase, nonce, peer, peerNonce, started, lastHeard, lastSaid, seen, exported, acked, refused, sent,
             docSentAt, lastMerged)
    }

    constructor (replica: Replica, host: Host)
      ensures this.replica == replica && this.host == host && Memo() == UNSTARTED
    {
      this.replica := replica;
      this.host := host;
      phase := Connecting;
      nonce, peer, peerNonce := [], [], [];
      started, lastHeard, lastSaid, docSentAt := 0, 0, 0, -1;
      seen, exported, acked, refused, sent, lastMerged := None, None, None, None, None, None;
    }

    /** `start`, under a name no other session of this replica has. */
    method Start(name: Text, now: int) returns (out: seq<Frame>)
      modifies `phase, `nonce, `started, `lastHeard, `lastSaid
      ensures Turn(Memo(), out) == Begun(old(Memo()), replica.id, name, now)
    {
      phase := Connecting;
      nonce := name;
      started := now;
      lastHeard := now;
      lastSaid := now;
      out := [Frame(replica.id, nonce, Hello(peer != []))];
    }

    /** Nothing the peer acknowledged, refused or sent counts any more. */
    method Forget()
      modifies `acked, `refused, `sent, `docSentAt, `lastMerged
      ensures Memo() == old(Memo()).(acked := None, refused := None, sent := None, docSentAt := -1, lastMerged := None)
    {
      acked := None;
      refused := None;
      sent := None;
      docSentAt := -1;
      lastMerged := None;
    }

    method RefreshExport()
      modifies this`seen, this`exported
      ensures Memo() == Refreshed(old(Memo()), replica.doc, replica.revision, host, replica.reading)
    {
      hide Export;
      if seen == Some(replica.revision) { return; }
      var e := Exportable(replica.doc, host.share, replica.reading);
      seen := Some(replica.revision);
      exported := Some(e);
    }

    method Hail() returns (f: Frame)
      ensures f == HelloFrom(Memo(), replica.id)
    {
      f := Frame(replica.id, nonce, Hello(peer != []));
    }

    /** The sending half of `tick`. */
    method Speak(now: int) returns (out: seq<Frame>)
      modifies `acked, `sent, `docSentAt, `lastSaid
      ensures Turn(Memo(), out) == Spoken(old(Memo()), replica.id, host, now)
    {
      out := [];
      if exported.Some? && exported == lastMerged { acked := exported; }
      if exported.Some? && exported != acked && exported != refused
        && (exported != sent || now - docSentAt >= host.timing.resend)
      {
        out := [Frame(replica.id, nonce, State(exported.value, exported.value))];
        sent := exported;
        docSentAt := now;
        lastSaid := now;
      }
    }

    /** `tick`. */
    method Tick(now: int) returns (out: seq<Frame>)
      modifies this
      ensures Turn(Memo(), out) ==
        Ticked(old(Memo()), replica.id, replica.doc, replica.revision, host, replica.reading, now)
      ensures phase == Open && host.timing.keepalive > 0 ==> now - lastSaid < host.timing.keepalive
      ensures lastSaid == if out == [] then old(lastSaid) else now
    {
      hide Export;
      out := [];
      if phase == Closed { return; }
      if phase == Connecting {
        if now - started >= host.timing.helloTimeout {
          phase := Closed;
        } else if now - lastSaid >= host.timing.resend {
          var f := Hail();
          out := [f];
          lastSaid := now;
        }
        return;
      }
      if now - lastHeard >= host.timing.silenceTimeout {
        phase := Closed;
        return;
      }
      var settling := host.timing.coalesce > 0 && docSentAt >= 0 && now - docSentAt < host.timing.coalesce;
      if !settling {
        RefreshExport();
        out := Speak(now);
      }
      if now - lastSaid >= host.timing.keepalive {
        var f := Hail();
        out := out + [f];
        lastSaid := now;
      }
    }

    /** `receive`: what merging came to is the replica's own answer. */
    method Receive(frame: Frame, now: int) returns (out: seq<Frame>, ghost result: MergeResult)
      modifies this, replica
      ensures Turn(Memo(), out) ==
        Received(old(Memo()), replica.id, old(replica.doc), old(replica.revision), host, old(replica.reading),
                 frame, result, now)
      ensures !AsksMerge(old(Memo()), frame) ==> result != Merged && replica.doc == old(replica.doc)
      ensures frame.body.State? && (!Validate(frame.body.payload) || frame.body.digest != frame.body.payload) ==>
        replica.doc == old(replica.doc) && replica.revision == old(replica.revision)
      ensures AsksMerge(old(Memo()), frame) && result == Merged ==>
        replica.doc == JoinDocs(old(replica.doc), frame.body.payload)
      ensures result != Merged ==> replica.doc == old(replica.doc) && replica.revision == old(replica.revision)
    {
      hide Export, Validate, JoinDocs;
      result := Invalid;
      out := [];
      if phase == Closed { return; }
      match frame.body {
        case Hello(heard) => out := ReceiveHello(frame, now);
        case State(digest, payload) =>
          if peer == [] || frame.from != peer { return; }
          out, result := ReceiveState(frame, now);
        case Ack(digest) =>
          if peer == [] || frame.from != peer { return; }
          lastHeard := now;
          RefreshExport();
          if exported == Some(digest) { acked := Some(digest); }
        case Refuse(digest) =>
          if peer == [] || frame.from != peer { return; }
          lastHeard := now;
          refused := Some(digest);
        case Bye =>
          if peer == [] || frame.from != peer { return; }
          lastHeard := now;
          phase := Closed;
      }
      if out != [] { lastSaid := now; }
    }

    method ReceiveHello(frame: Frame, now: int) returns (out: seq<Frame>)
      requires frame.body.Hello?
      modifies this
      ensures Turn(Memo(), out) ==
        OnHello(old(Memo()), replica.id, replica.doc, replica.revision, host, replica.reading, frame, now)
    {
      hide Ticked;
      if frame.from == replica.id {
        phase := Closed;
        return [Frame(replica.id, nonce, Bye)];
      }
      if peer != [] && frame.from != peer { return []; }
      var opening := Greet(frame, now);
      out := [];
      if !frame.body.heard || opening {
        var f := Hail();
        out := [f];
      }
      if opening {
        var more := Tick(now);
        out := out + more;
      }
    }

    /** Who the peer is, and whether it has just started. */
    method Greet(frame: Frame, now: int) returns (opening: bool)
      modifies `lastHeard, `peer, `peerNonce, `phase, `acked, `refused, `sent, `docSentAt, `lastMerged
      ensures opening == Opening(old(Memo()), frame) && Memo() == Greeted(old(Memo()), frame, now)
    {
      lastHeard := now;
      if peer == [] { peer := frame.from; }
      var restarted := frame.nonce != peerNonce;
      opening := phase == Connecting || restarted;
      if restarted {
        peerNonce := frame.nonce;
        Forget();
      }
      if opening { phase := Open; }
    }

    method ReceiveState(frame: Frame, now: int) returns (out: seq<Frame>, ghost result: MergeResult)
      requires phase != Closed && frame.body.State? && peer != [] && frame.from == peer
      modifies this, replica
      ensures Turn(Memo(), out) == OnState(old(Memo()), replica.id, frame.body.digest, result, now)
      ensures !AsksMerge(old(Memo()), frame) ==> result == Invalid
      ensures result == Merged ==> replica.doc == JoinDocs(old(replica.doc), frame.body.payload)
      ensures result != Merged ==> replica.doc == old(replica.doc) && replica.revision == old(replica.revision)
      ensures replica.reading == old(replica.reading)
    {
      hide Validate, JoinDocs, Betrays, Vouched, HighestCounter, HasTag;
      lastHeard := now;
      result := Invalid;
      var digest, payload := frame.body.digest, frame.body.payload;
      if lastMerged == Some(digest) { return [Frame(replica.id, nonce, Ack(digest))], result; }
      var r := Invalid;
      if Validate(payload) && digest == payload { r := replica.Merge(payload); }
      result := r;
      match r {
        case Merged =>
          lastMerged := Some(digest);
          out := [Frame(replica.id, nonce, Ack(digest))];
        case Invalid => out := [Frame(replica.id, nonce, Refuse(digest))];
        case IdentityCollision =>
          out := [Frame(replica.id, nonce, Refuse(digest)), Frame(replica.id, nonce, Bye)];
          phase := Closed;
      }
    }
  }
}
