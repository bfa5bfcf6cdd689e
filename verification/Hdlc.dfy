/** HDLC-like framing with octet stuffing, as in section 4.2 of RFC 1662. */
module Hdlc {
  import opened Bytes

  const FLAG: byte := 0x7E
  const ESC: byte := 0x7D

  /** `c ^ 0x20`. */
  function Flip(c: byte): (f: byte)
    ensures f != c
  {
    if c / 32 % 2 == 1 then c - 32 else c + 32
  }

  function Stuffed(c: byte): Text
  {
    if c == FLAG || c == ESC then [ESC, Flip(c)] else [c]
  }

  function Stuff(p: Text): Text
  {
    if p == [] then [] else Stuffed(p[0]) + Stuff(p[1..])
  }

  /** The two bytes section 4.2 of RFC 1662 escapes become 0x7D 0x5E and 0x7D 0x5D, every other
      stands for itself, and packets are stuffed byte by byte. */
  lemma {:induction false} StuffingIs(p: Text, q: Text, c: byte)
    ensures Stuff([0x7E]) == [0x7D, 0x5E] && Stuff([0x7D]) == [0x7D, 0x5D]
    ensures c != 0x7E && c != 0x7D ==> Stuff([c]) == [c]
    ensures Stuff(p + q) == Stuff(p) + Stuff(q)
    decreases |p|
  {
    forall d: byte ensures Stuff([d]) == Stuffed(d) { assert [d][1..] == []; }
    if p == [] {
      assert p + q == q;
    } else {
      assert (p + q)[1..] == p[1..] + q;
      StuffingIs(p[1..], q, c);
    }
  }

  /** Nothing stuffed can be taken for a flag. */
  lemma {:induction false} NoFlagInside(p: Text)
    ensures 0x7E !in Stuff(p)
  {
    if p != [] {
      NoFlagInside(p[1..]);
    }
  }

  function FrameOf(p: Text): Text
  {
    [FLAG] + Stuff(p) + [FLAG]
  }

  /** `frame`. */
  method Frame(packet: Text) returns (out: Text)
    ensures out == FrameOf(packet)
  {
    out := [FLAG];
    for i := 0 to |packet|
      invariant out + Stuff(packet[i..]) == [FLAG] + Stuff(packet)
    {
      var c := packet[i];
      assert packet[i..][0] == c && packet[i..][1..] == packet[i + 1..];
      ghost var before := out;
      if c == FLAG || c == ESC {
        out := out + [ESC, Flip(c)];
      } else {
        out := out + [c];
      }
      assert out + Stuff(packet[i + 1..]) == before + Stuff(packet[i..]);
    }
    assert out + Stuff([]) == out;
    out := out + [FLAG];
  }

  /** A decoder between bytes. */
  datatype State = State(cur: Text, inside: bool, escaped: bool)

  /** One byte: what it completes, if anything, and the state after it. */
  function Done(s: State, c: byte): seq<Text>
  {
    if c == FLAG && s.inside && s.cur != [] then [s.cur] else []
  }

  function Took(s: State, c: byte, max: nat): State
  {
    if c == FLAG then State([], true, false)
    else if !s.inside then s
    else if !s.escaped && c == ESC then s.(escaped := true)
    else if |s.cur| >= max then State([], false, false)
    else State(s.cur + [if s.escaped then Flip(c) else c], true, false)
  }

  function Output(s: State, bytes: Text, max: nat): seq<Text>
    decreases |bytes|
  {
    if bytes == [] then [] else Done(s, bytes[0]) + Output(Took(s, bytes[0], max), bytes[1..], max)
  }

  function Final(s: State, bytes: Text, max: nat): State
    decreases |bytes|
  {
    if bytes == [] then s else Final(Took(s, bytes[0], max), bytes[1..], max)
  }

  lemma {:induction false} InTwo(s: State, a: Text, b: Text, max: nat)
    ensures Output(s, a + b, max) == Output(s, a, max) + Output(Final(s, a, max), b, max)
    ensures Final(s, a + b, max) == Final(Final(s, a, max), b, max)
    decreases |a|
  {
    if a == [] {
      assert a + b == b;
    } else {
      assert (a + b)[1..] == a[1..] + b;
      InTwo(Took(s, a[0], max), a[1..], b, max);
    }
  }

  lemma OneByte(s: State, c: byte, max: nat)
    ensures Output(s, [c], max) == Done(s, c) && Final(s, [c], max) == Took(s, c, max)
  {
    assert [c][1..] == [];
    assert Output(Took(s, c, max), [], max) == [];
  }

  lemma FromByte(s: State, bytes: Text, i: nat, max: nat)
    requires i < |bytes|
    ensures Output(s, bytes[i..], max) == Done(s, bytes[i]) + Output(Took(s, bytes[i], max), bytes[i + 1..], max)
    ensures Final(s, bytes[i..], max) == Final(Took(s, bytes[i], max), bytes[i + 1..], max)
  {
    assert bytes[i..][0] == bytes[i] && bytes[i..][1..] == bytes[i + 1..];
  }

  lemma NoBytes(s: State, max: nat)
    ensures Output(s, [], max) == [] && Final(s, [], max) == s
  {
  }

  class Decoder {
    const max: nat
    var cur: Text
    var inside: bool
    var escaped: bool

    ghost function Now(): State
      reads this
    {
      State(cur, inside, escaped)
    }

    constructor (max: nat)
      ensures Now() == State([], false, false) && this.max == max
    {
      this.max := max;
      cur, inside, escaped := [], false, false;
    }

    /** `feed`. */
    method Feed(bytes: Text) returns (out: seq<Text>)
      modifies this
      ensures out == Output(old(Now()), bytes, max) && Now() == Final(old(Now()), bytes, max)
    {
      hide Output, Final;
      out := [];
      assert bytes[0..] == bytes;
      for i := 0 to |bytes|
        invariant out + Output(Now(), bytes[i..], max) == Output(old(Now()), bytes, max)
        invariant Final(Now(), bytes[i..], max) == Final(old(Now()), bytes, max)
      {
        FromByte(Now(), bytes, i, max);
        var packets := Take(bytes[i]);
        out := out + packets;
      }
      assert bytes[|bytes|..] == [] && out + [] == out;
      NoBytes(Now(), max);
    }

    method Take(c: byte) returns (packets: seq<Text>)
      modifies this
      ensures packets == Done(old(Now()), c) && Now() == Took(old(Now()), c, max)
    {
      packets := [];
      if c == FLAG {
        if inside && cur != [] { packets := [cur]; }
        cur, inside, escaped := [], true, false;
        return;
      }
      if !inside { return; }
      if !escaped && c == ESC {
        escaped := true;
        return;
      }
      var plain := if escaped then Flip(c) else c;
      escaped := false;
      if |cur| >= max {
        cur, inside := [], false;
        return;
      }
      cur := cur + [plain];
    }
  }

  /** Stuffed bytes fill the packet up and leave no flag; past `max` all is dropped. */
  lemma {:induction false} StuffFills(cur: Text, p: Text, max: nat)
    requires |cur| <= max
    ensures Output(State(cur, true, false), Stuff(p), max) == []
    ensures Final(State(cur, true, false), Stuff(p), max) ==
      if |cur| + |p| <= max then State(cur + p, true, false) else State([], false, false)
    decreases |p|
  {
    hide *;
    if p == [] {
      StuffNone();
      assert cur + p == cur;
      NoBytes(State(cur, true, false), max);
    } else {
      var s, c := State(cur, true, false), p[0];
      StuffMore(p);
      OneStuffed(s, c, max);
      InTwo(s, Stuffed(c), Stuff(p[1..]), max);
      if |cur| < max {
        StuffFills(cur + [c], p[1..], max);
        assert cur + [c] + p[1..] == cur + p;
      } else {
        NoFlags(p[1..]);
        Outside(Stuff(p[1..]), max);
      }
    }
  }

  lemma StuffNone()
    ensures Stuff([]) == []
  {
  }

  lemma StuffMore(p: Text)
    requires p != []
    ensures Stuff(p) == Stuffed(p[0]) + Stuff(p[1..])
  {
  }

  lemma OneStuffed(s: State, c: byte, max: nat)
    requires s.inside && !s.escaped && |s.cur| <= max
    ensures Output(s, Stuffed(c), max) == []
    ensures Final(s, Stuffed(c), max) == if |s.cur| < max then State(s.cur + [c], true, false) else State([], false, false)
  {
    hide Output, Final;
    if c == FLAG || c == ESC {
      FlipBack(c);
      InTwo(s, [ESC], [Flip(c)], max);
      assert [ESC] + [Flip(c)] == Stuffed(c);
      OneByte(s, ESC, max);
      OneByte(Took(s, ESC, max), Flip(c), max);
    } else {
      OneByte(s, c, max);
    }
  }

  lemma FlipBack(c: byte)
    requires c == FLAG || c == ESC
    ensures Flip(Flip(c)) == c && Flip(c) != FLAG && Flip(c) != ESC
  {
  }

  lemma {:induction false} NoFlags(p: Text)
    ensures FLAG !in Stuff(p)
  {
    if p != [] { NoFlags(p[1..]); }
  }

  lemma {:induction false} Outside(bytes: Text, max: nat)
    requires FLAG !in bytes
    ensures Output(State([], false, false), bytes, max) == []
    ensures Final(State([], false, false), bytes, max) == State([], false, false)
    decreases |bytes|
  {
    if bytes != [] { Outside(bytes[1..], max); }
  }

  /** From any state, whatever was half read, a framed packet comes out last if it is not
      empty and fits, and otherwise not at all; and the decoder is ready for the next. */
  lemma FrameComesOut(s: State, p: Text, max: nat)
    ensures Output(s, FrameOf(p), max) == Done(s, FLAG) + if 0 < |p| <= max then [p] else []
    ensures Final(s, FrameOf(p), max) == State([], true, false)
  {
    hide Output, Final, Stuff;
    var t := State([], true, false);
    OneByte(s, FLAG, max);
    InTwo(s, [FLAG] + Stuff(p), [FLAG], max);
    InTwo(s, [FLAG], Stuff(p), max);
    StuffFills([], p, max);
    assert [] + p == p;
    OneByte(Final(t, Stuff(p), max), FLAG, max);
  }

  function Framed(packets: seq<Text>): Text
  {
    if packets == [] then [] else FrameOf(packets[0]) + Framed(packets[1..])
  }

  /** Packets framed one after another come out as they went in. */
  lemma {:induction false} PacketsBack(packets: seq<Text>, max: nat, inside: bool)
    requires forall i :: 0 <= i < |packets| ==> 0 < |packets[i]| <= max
    ensures Output(State([], inside, false), Framed(packets), max) == packets
  {
    if packets != [] {
      var s := State([], inside, false);
      FrameComesOut(s, packets[0], max);
      InTwo(s, FrameOf(packets[0]), Framed(packets[1..]), max);
      PacketsBack(packets[1..], max, true);
    }
  }
}
