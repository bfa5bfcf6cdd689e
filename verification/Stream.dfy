/** Frames on a byte stream: each preceded by its length, taken apart however the bytes
    arrive. */
module Stream {
  import opened Bytes
  import opened Options

  /** `VPS1`. */
  const MAGIC: Text := [0x56, 0x50, 0x53, 0x31]
  const PREFIX := 8
  const TWO_32 := 0x1_0000_0000

  /** A length as four bytes, least significant first, whatever does not fit lost. */
  function Length(n: nat): (s: Text)
    ensures |s| == 4
  {
    var m := n % TWO_32;
    [m % 256, m / 256 % 256, m / 65536 % 256, m / 16777216]
  }

  /** `read_u32`. */
  function ReadLength(s: Text): nat
    requires |s| >= 4
  {
    s[0] as nat + 256 * (s[1] as nat) + 65536 * (s[2] as nat) + 16777216 * (s[3] as nat)
  }

  /** Least significant byte first. */
  lemma LengthIs(n: nat)
    requires n < TWO_32
    ensures var s := Length(n);
      n == (s[0] as nat) + 0x100 * (s[1] as nat) + 0x1_0000 * (s[2] as nat) + 0x100_0000 * (s[3] as nat)
  {
    LengthBack(n, []);
    assert Length(n) + [] == Length(n);
  }

  lemma LengthBack(n: nat, rest: Text)
    ensures ReadLength(Length(n) + rest) == n % TWO_32
  {
    var m := n % TWO_32;
    var a, b, c := m / 256, m / 65536, m / 16777216;
    assert b == a / 256 && c == b / 256;
  }

  /** `stream_frame`. */
  function StreamFrame(frame: Text): Text
  {
    Length(|frame|) + frame
  }

  /** What the front of a stream holds. */
  datatype Front = More | Frame(frame: Text, rest: Text) | Bad

  /** The magic is checked as soon as its first bytes are here. */
  predicate MagicSoFar(s: Text)
  {
    var k := if |s| < 4 then |s| else 4;
    s[..k] == MAGIC[..k]
  }

  function FrontOf(s: Text, max: nat): (f: Front)
    ensures f.Frame? ==> |f.rest| < |s|
  {
    if |s| < 4 then More
    else
      var len := ReadLength(s);
      if len > max || len < PREFIX || !MagicSoFar(s[4..]) then Bad
      else if |s| - 4 < len then More
      else Frame(s[4..4 + len], s[4 + len..])
  }

  /** Everything a stream holds: the whole frames at its front, and whether it is broken
      after them. */
  function Frames(s: Text, max: nat): seq<Text>
    decreases |s|
  {
    match FrontOf(s, max)
    case Frame(frame, rest) => [frame] + Frames(rest, max)
    case _ => []
  }

  predicate Breaks(s: Text, max: nat)
    decreases |s|
  {
    match FrontOf(s, max)
    case Frame(_, rest) => Breaks(rest, max)
    case Bad => true
    case More => false
  }

  /** What is left over. */
  function Left(s: Text, max: nat): Text
    decreases |s|
  {
    match FrontOf(s, max)
    case Frame(_, rest) => Left(rest, max)
    case _ => s
  }

  /** More bytes never change what was settled. */
  lemma NextMore(s: Text, t: Text, max: nat)
    ensures FrontOf(s, max).Frame? ==> FrontOf(s + t, max) == Frame(FrontOf(s, max).frame, FrontOf(s, max).rest + t)
    ensures FrontOf(s, max) == Bad ==> FrontOf(s + t, max) == Bad
  {
    if |s| >= 4 {
      var len := ReadLength(s);
      assert ReadLength(s + t) == len;
      assert (s + t)[4..] == s[4..] + t;
      MagicMore(s[4..], t);
      if |s| - 4 >= len {
        assert (s + t)[4..4 + len] == s[4..4 + len];
        assert (s + t)[4 + len..] == s[4 + len..] + t;
      }
    }
  }

  lemma MagicMore(s: Text, t: Text)
    ensures !MagicSoFar(s) ==> !MagicSoFar(s + t)
    ensures |s| >= 4 ==> (MagicSoFar(s + t) <==> MagicSoFar(s))
  {
    var k := if |s| < 4 then |s| else 4;
    assert (s + t)[..k] == s[..k];
    var j := if |s + t| < 4 then |s + t| else 4;
    assert (s + t)[..j][..k] == (s + t)[..k] && MAGIC[..j][..k] == MAGIC[..k];
  }

  /** Taking a stream in two pieces, the second after what the first left over, gives what
      taking it whole gives. */
  lemma {:induction false} FramesMore(s: Text, t: Text, max: nat)
    ensures !Breaks(s, max) ==>
      && Frames(s + t, max) == Frames(s, max) + Frames(Left(s, max) + t, max)
      && (Breaks(s + t, max) <==> Breaks(Left(s, max) + t, max))
      && Left(s + t, max) == Left(Left(s, max) + t, max)
    ensures Breaks(s, max) ==> Frames(s + t, max) == Frames(s, max) && Breaks(s + t, max)
    decreases |s|
  {
    hide FrontOf;
    NextMore(s, t, max);
    if FrontOf(s, max).Frame? {
      FramesMore(FrontOf(s, max).rest, t, max);
    }
  }

  /** What pieces give when each is fed and then drained. */
  function Pieces(left: Text, pieces: seq<Text>, max: nat): seq<Text>
    decreases |pieces|
  {
    if pieces == [] || Breaks(left, max) then []
    else
      var s := left + pieces[0];
      Frames(s, max) + Pieces(Left(s, max), pieces[1..], max)
  }

  function Joined(pieces: seq<Text>): Text
  {
    if pieces == [] then [] else pieces[0] + Joined(pieces[1..])
  }

  lemma {:induction false} LeftIsDrained(s: Text, max: nat)
    ensures Frames(Left(s, max), max) == [] && Left(Left(s, max), max) == Left(s, max)
    ensures Breaks(Left(s, max), max) <==> Breaks(s, max)
    decreases |s|
  {
    hide FrontOf;
    if FrontOf(s, max).Frame? { LeftIsDrained(FrontOf(s, max).rest, max); }
  }

  /** However a stream is cut up, the frames that come out are those of the whole. */
  lemma {:induction false} PiecesDoNotMatter(left: Text, pieces: seq<Text>, max: nat)
    requires Frames(left, max) == [] && Left(left, max) == left
    ensures Pieces(left, pieces, max) == Frames(left + Joined(pieces), max)
    decreases |pieces|
  {
    hide Frames, Left, Breaks;
    var t := Joined(pieces);
    FramesMore(left, t, max);
    if pieces != [] && !Breaks(left, max) {
      var s, u := left + pieces[0], Joined(pieces[1..]);
      assert left + t == s + u;
      LeftIsDrained(s, max);
      FramesMore(s, u, max);
      PiecesDoNotMatter(Left(s, max), pieces[1..], max);
      if Breaks(s, max) { FramesMore(Left(s, max), u, max); }
    } else if pieces == [] {
      assert left + [] == left;
    }
  }

  predicate Sendable(frame: Text, max: nat)
  {
    PREFIX <= |frame| <= max && |frame| < TWO_32 && frame[..4] == MAGIC
  }

  function Streamed(frames: seq<Text>): Text
  {
    if frames == [] then [] else StreamFrame(frames[0]) + Streamed(frames[1..])
  }

  /** Frames put on a stream one after another come back exactly, and nothing is left. */
  lemma {:induction false} FramesBack(frames: seq<Text>, max: nat)
    requires forall i :: 0 <= i < |frames| ==> Sendable(frames[i], max)
    ensures Frames(Streamed(frames), max) == frames && !Breaks(Streamed(frames), max) && Left(Streamed(frames), max) == []
  {
    if frames != [] {
      var f, rest := frames[0], Streamed(frames[1..]);
      FrontIs(f, rest, max);
      FramesBack(frames[1..], max);
    }
  }

  lemma FrontIs(f: Text, rest: Text, max: nat)
    requires Sendable(f, max)
    ensures FrontOf(StreamFrame(f) + rest, max) == Frame(f, rest)
  {
    hide Length, ReadLength;
    var s := StreamFrame(f) + rest;
    assert s == Length(|f|) + (f + rest);
    LengthBack(|f|, f + rest);
    assert s[4..] == f + rest;
    assert (f + rest)[..4] == f[..4] && MAGIC[..4] == MAGIC;
    assert s[4..4 + |f|] == f && s[4 + |f|..] == rest;
  }

  /** A frame stands at the front of a stream exactly when the stream begins as that frame is
      sent. */
  lemma FrontIff(s: Text, f: Text, rest: Text, max: nat)
    requires max < TWO_32
    ensures FrontOf(s, max) == Frame(f, rest) <==> Sendable(f, max) && s == StreamFrame(f) + rest
  {
    hide Length, ReadLength;
    if Sendable(f, max) && s == StreamFrame(f) + rest { FrontIs(f, rest, max); }
    if FrontOf(s, max) == Frame(f, rest) {
      var len := ReadLength(s);
      LengthForth(s);
      assert s[4..][..4] == f[..4] && MAGIC[..4] == MAGIC;
      assert s == s[..4] + s[4..] && s[4..] == f + rest;
    }
  }

  lemma LengthForth(s: Text)
    requires |s| >= 4
    ensures Length(ReadLength(s)) == s[..4]
  {
    hide Length;
    Parts(s[0], s[1], s[2], s[3]);
    LengthOf(ReadLength(s));
  }

  lemma LengthOf(n: nat)
    requires n < TWO_32
    ensures Length(n) == [n % 256, n / 256 % 256, n / 65536 % 256, n / 16777216]
  {
  }

  lemma Parts(a: byte, b: byte, c: byte, d: byte)
    ensures var n: nat := a + 256 * (b as nat) + 65536 * (c as nat) + 16777216 * (d as nat);
      n < TWO_32 && n % 256 == a && n / 256 % 256 == b && n / 65536 % 256 == c && n / 16777216 == d
  {
    var n: nat := a + 256 * (b as nat) + 65536 * (c as nat) + 16777216 * (d as nat);
    var m, k := b + 256 * (c as nat) + 65536 * (d as nat), c + 256 * (d as nat);
    Digit(a, m, n);
    Digit(b, k, m);
    Digit(c, d, k);
    assert n / 65536 == n / 256 / 256 && n / 16777216 == n / 65536 / 256;
  }

  lemma Digit(a: byte, m: nat, n: nat)
    requires n == a + 256 * m
    ensures n / 256 == m && n % 256 == a
  {
  }

  /** The reader gives a stream up as soon as no more bytes could make a frame of its front, and
      no sooner. */
  lemma BadIff(s: Text, max: nat)
    requires |s| >= 4 && max < TWO_32
    ensures FrontOf(s, max) == Bad <==> forall t :: !FrontOf(s + t, max).Frame?
  {
    hide ReadLength;
    if FrontOf(s, max) == Bad {
      forall t ensures !FrontOf(s + t, max).Frame? { NextMore(s, t, max); }
    } else {
      var t := Completion(s, max);
      assert FrontOf(s + t, max).Frame?;
    }
  }

  lemma Completion(s: Text, max: nat) returns (t: Text)
    requires |s| >= 4 && FrontOf(s, max) != Bad
    ensures FrontOf(s + t, max).Frame?
  {
    hide ReadLength;
    var len := ReadLength(s);
    if FrontOf(s, max).Frame? {
      assert s + [] == s;
      t := [];
    } else {
      var got := |s| - 4;
      var zeros: Text := seq(len, i => 0);
      t := (if got < 4 then MAGIC[got..] else []) + zeros;
      SameLength(s, t);
      assert (s + t)[4..] == s[4..] + t;
      if got < 4 {
        assert s[4..] == MAGIC[..got];
        assert ((s + t)[4..])[..4] == MAGIC;
      } else {
        assert ((s + t)[4..])[..4] == s[4..][..4];
      }
    }
  }

  lemma SameLength(s: Text, t: Text)
    requires |s| >= 4
    ensures ReadLength(s + t) == ReadLength(s)
  {
  }

  // ---------------------------------------------------------------------------
  // The reader
  // ---------------------------------------------------------------------------

  class StreamReader {
    const max: nat
    var buf: Text
    var at: nat
    var broken: bool
    /** Every byte fed, and every frame handed back. */
    ghost var fed: Text
    ghost var given: seq<Text>

    ghost predicate Valid()
      reads this
    {
      && at <= |buf|
      && Frames(fed, max) == given + Frames(buf[at..], max)
      && (Breaks(fed, max) <==> Breaks(buf[at..], max))
      && (broken ==> FrontOf(buf[at..], max) == Bad)
      && (!Breaks(fed, max) ==> Left(fed, max) == Left(buf[at..], max))
    }

    constructor (max: nat)
      ensures Valid() && fed == [] && given == [] && !broken
    {
      this.max := max;
      buf, at, broken := [], 0, false;
      fed, given := [], [];
    }

    /** `feed`: bytes as they arrive. A broken reader takes no more. */
    method Feed(data: Text)
      requires Valid()
      modifies this
      ensures Valid() && fed == old(fed) + data && given == old(given) && broken == old(broken)
    {
      hide FrontOf, Frames, Breaks, Left;
      FrontBreaks(buf[at..], max);
      FedMore(fed, data, given, buf[at..], max);
      fed := fed + data;
      if broken || data == [] {
        assert data == [] ==> fed == old(fed);
        return;
      }
      if at > 0 && at >= |buf| / 2 {
        buf := buf[at..];
        at := 0;
      }
      assert (buf + data)[at..] == buf[at..] + data;
      buf := buf + data;
    }

    /** `next`: the next whole frame, if there is one. When there is none, every frame in the
        bytes fed so far has been handed back, and the reader is broken exactly if they are. */
    method Next() returns (frame: Option<Text>)
      requires Valid()
      modifies this
      ensures Valid() && fed == old(fed)
      ensures given == if frame.Some? then old(given) + [frame.value] else old(given)
      ensures given <= Frames(fed, max)
      ensures frame == None ==> given == Frames(fed, max) && (broken <==> Breaks(fed, max))
    {
      hide ReadLength, MagicSoFar;
      ghost var s := buf[at..];
      if broken { return None; }
      var have := |buf| - at;
      if have < 4 { return None; }
      var len := ReadLength(buf[at..]);
      var front := buf[at + 4..];
      assert s[4..] == front;
      if len > max || len < PREFIX || !MagicSoFar(front) {
        broken := true;
        return None;
      }
      if have - 4 < len { return None; }
      frame := Some(buf[at + 4..at + 4 + len]);
      SliceOf(buf, at, len);
      assert Frames(s, max) == [frame.value] + Frames(s[4 + len..], max);
      at := at + 4 + len;
      given := given + [frame.value];
      if at == |buf| {
        assert buf[at..] == [];
        buf, at := [], 0;
      }
    }
  }

  lemma SliceOf(b: Text, at: nat, len: nat)
    requires at + 4 + len <= |b|
    ensures b[at..][4..4 + len] == b[at + 4..at + 4 + len] && b[at..][4 + len..] == b[at + 4 + len..]
  {
  }

  lemma FrontBreaks(s: Text, max: nat)
    ensures FrontOf(s, max) == Bad ==> Breaks(s, max) && Frames(s, max) == []
  {
  }

  lemma FedMore(fed: Text, data: Text, given: seq<Text>, pending: Text, max: nat)
    requires Frames(fed, max) == given + Frames(pending, max)
    requires Breaks(fed, max) <==> Breaks(pending, max)
    requires !Breaks(fed, max) ==> Left(fed, max) == Left(pending, max)
    ensures Frames(fed + data, max) == given + Frames(pending + data, max)
    ensures Breaks(fed + data, max) <==> Breaks(pending + data, max)
    ensures !Breaks(fed, max) ==> Left(fed + data, max) == Left(pending + data, max)
    ensures Breaks(fed, max) ==> Frames(fed + data, max) == Frames(fed, max) && Breaks(fed + data, max)
  {
    hide Frames, Breaks, Left;
    FramesMore(fed, data, max);
    FramesMore(pending, data, max);
  }
}
