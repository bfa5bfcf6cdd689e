/** Content-defined chunking: cuts where a hash of the last 64 bytes says so. */
module Chunking {
  import opened Bytes
  import opened Numbers

  datatype Params = Params(min: nat, avg: nat, max: nat)

  const WINDOW := 64

  /** One 64-bit value for each byte. */
  type Gears = g: seq<nat> | |g| == 256 witness seq(256, i => 0)

  // ---------------------------------------------------------------------------
  // The hash
  // ---------------------------------------------------------------------------

  /** `h = (h << 1) + g[b]`, on 64 bits. */
  function Turn(h: nat, c: byte, g: Gears): nat
  {
    (2 * h + g[c]) % TWO_64
  }

  function Gear(s: Text, g: Gears): (h: nat)
    ensures h < TWO_64
  {
    if s == [] then 0 else Turn(Gear(s[..|s| - 1], g), s[|s| - 1], g)
  }

  lemma GearMore(s: Text, c: byte, g: Gears)
    ensures Gear(s + [c], g) == Turn(Gear(s, g), c, g)
  {
    assert (s + [c])[..|s|] == s;
  }

  lemma ModInside(x: nat, y: nat)
    ensures (2 * (x % TWO_64) + y) % TWO_64 == (2 * x + y) % TWO_64
    ensures (x + y % TWO_64) % TWO_64 == (x + y) % TWO_64
  {
    WholeTurns(2 * (x % TWO_64) + y, 2 * (x / TWO_64));
    WholeTurns(x + y % TWO_64, y / TWO_64);
  }

  lemma WholeTurns(r: nat, q: nat)
    ensures (r + q * TWO_64) % TWO_64 == r % TWO_64
  {
  }

  /** What comes before `t` reaches the hash only shifted by its length. */
  lemma {:induction false} GearShifts(s: Text, t: Text, g: Gears)
    ensures Gear(s + t, g) == (Gear(s, g) * Pow2(|t|) + Gear(t, g)) % TWO_64
    decreases |t|
  {
    hide *;
    if t == [] {
      assert s + t == s;
      NothingShifts(s, g);
    } else {
      var u, c := t[..|t| - 1], t[|t| - 1];
      assert t == u + [c] && s + t == (s + u) + [c];
      GearShifts(s, u, g);
      GearMore(s + u, c, g);
      GearMore(u, c, g);
      TurnShifts(Gear(s, g), |u|, Gear(u, g), c, g);
    }
  }

  lemma NothingShifts(s: Text, g: Gears)
    ensures Gear(s, g) == (Gear(s, g) * Pow2(0) + Gear([], g)) % TWO_64
  {
    assert Pow2(0) == 1;
  }

  lemma TurnShifts(a: nat, k: nat, b: nat, c: byte, g: Gears)
    ensures Turn((a * Pow2(k) + b) % TWO_64, c, g) == (a * Pow2(k + 1) + Turn(b, c, g)) % TWO_64
  {
    ShiftOnce(a, Pow2(k), b, g[c]);
  }

  lemma ShiftOnce(a: nat, w: nat, b: nat, c: nat)
    ensures (2 * ((a * w + b) % TWO_64) + c) % TWO_64 == (a * (2 * w) + (2 * b + c) % TWO_64) % TWO_64
  {
    Twice(a, w);
    TurnOver(a * w, b, c);
  }

  lemma TurnOver(x: nat, b: nat, c: nat)
    ensures (2 * ((x + b) % TWO_64) + c) % TWO_64 == (2 * x + (2 * b + c) % TWO_64) % TWO_64
  {
    ModInside(x + b, c);
    ModInside(2 * x, 2 * b + c);
  }

  lemma Twice(a: nat, w: nat)
    ensures a * (2 * w) == 2 * (a * w)
  {
  }

  /** Each byte's gear, doubled once for every byte after it. */
  function Weighed(s: Text, g: Gears): nat
  {
    if s == [] then 0 else g[s[0]] * Pow2(|s| - 1) + Weighed(s[1..], g)
  }

  /** The hash is that sum, on 64 bits. */
  lemma {:induction false} GearIsSum(s: Text, g: Gears)
    ensures Gear(s, g) == Weighed(s, g) % TWO_64
  {
    hide Pow2;
    if s != [] {
      var rest := s[1..];
      assert s == [s[0]] + rest;
      GearIsSum(rest, g);
      GearShifts([s[0]], rest, g);
      GearOfOne(s[0], g);
      AddUp(g[s[0]], Pow2(|rest|), Weighed(rest, g));
    }
  }

  lemma GearOfOne(c: byte, g: Gears)
    ensures Gear([c], g) == g[c] % TWO_64
  {
    assert Gear([], g) == 0;
    GearMore([], c, g);
    assert [] + [c] == [c];
  }

  lemma AddUp(a: nat, w: nat, b: nat)
    ensures ((a % TWO_64) * w + b % TWO_64) % TWO_64 == (a * w + b) % TWO_64
  {
    var q, x, m := a / TWO_64, a % TWO_64, b / TWO_64;
    assert a == q * TWO_64 + x && b == m * TWO_64 + b % TWO_64;
    Distribute(q, x, w);
    WholeTurns(x * w + b % TWO_64, q * w + m);
  }

  lemma Distribute(q: nat, x: nat, w: nat)
    ensures (q * TWO_64 + x) * w == (q * w) * TWO_64 + x * w
  {
  }

  lemma WindowShiftsOut()
    ensures Pow2(WINDOW) == TWO_64
  {
    assert Pow2(8) == 256;
    assert Pow2(16) == 0x1_0000 by { assert Pow2(12) == 4096; }
    assert Pow2(24) == 0x100_0000 by { assert Pow2(20) == 0x10_0000; }
    assert Pow2(32) == 0x1_0000_0000 by { assert Pow2(28) == 0x1000_0000; }
    assert Pow2(40) == 0x100_0000_0000 by { assert Pow2(36) == 0x10_0000_0000; }
    assert Pow2(48) == 0x1_0000_0000_0000 by { assert Pow2(44) == 0x1000_0000_0000; }
    assert Pow2(56) == 0x100_0000_0000_0000 by { assert Pow2(52) == 0x10_0000_0000_0000; }
    assert Pow2(64) == 0x1_0000_0000_0000_0000 by { assert Pow2(60) == 0x1000_0000_0000_0000; }
  }

  /** The hash of 64 bytes or more is that of the last 64. */
  lemma OnlyTheWindow(s: Text, g: Gears)
    requires |s| >= WINDOW
    ensures Gear(s, g) == Gear(s[|s| - WINDOW..], g)
  {
    hide Gear, Pow2;
    var a, t := s[..|s| - WINDOW], s[|s| - WINDOW..];
    assert s == a + t;
    GearShifts(a, t, g);
    WindowShiftsOut();
    Whole(Gear(a, g), Gear(t, g));
  }

  lemma Whole(a: nat, b: nat)
    requires b < TWO_64
    ensures (a * TWO_64 + b) % TWO_64 == b
  {
  }

  // ---------------------------------------------------------------------------
  // Where to cut
  // ---------------------------------------------------------------------------

  /** The least `k` from `k` on with `2^k` at least `avg`. */
  function BitsFrom(avg: nat, k: nat): (b: nat)
    ensures b >= k && Pow2(b) >= avg && (b > k ==> Pow2(b - 1) < avg)
    decreases avg - Pow2(k)
  {
    if Pow2(k) >= avg then k else BitsFrom(avg, k + 1)
  }

  /** The least power of two no smaller than `avg` is `2^b`. */
  ghost predicate LeastPower(avg: nat, b: nat)
  {
    Pow2(b) >= avg && forall c: nat :: c < b ==> Pow2(c) < avg
  }

  function Clamped(bits: int): (b: nat)
    ensures 1 <= b <= 40
  {
    if bits < 1 then 1 else if bits > 40 then 40 else bits
  }

  /** How many of the high bits must be zero for a cut. */
  function CutBits(avg: nat, extra: int): (b: nat)
    ensures 1 <= b <= 40
  {
    Clamped(BitsFrom(avg, 0) + extra)
  }

  /** `cut_bits`: the bits of the least power of two no smaller than the average, moved by
      `extra` and kept between 1 and 40. */
  method CountCutBits(avg: nat, extra: int) returns (bits: nat)
    ensures bits == CutBits(avg, extra)
    ensures exists b: nat ::
      LeastPower(avg, b) && bits == if b + extra < 1 then 1 else if b + extra > 40 then 40 else b + extra
  {
    var k: nat := 0;
    while Pow2(k) < avg
      invariant BitsFrom(avg, k) == BitsFrom(avg, 0)
      invariant forall c: nat :: c < k ==> Pow2(c) < avg
      decreases avg - Pow2(k)
    {
      k := k + 1;
    }
    assert LeastPower(avg, k);
    var n := k + extra;
    bits := if n < 1 then 1 else if n > 40 then 40 else n;
  }

  predicate IsCut(h: nat, bits: nat)
    requires bits <= 64
  {
    h / Pow2(64 - bits) == 0
  }

  /** The high bits of a hash are zero exactly when it is small. */
  lemma HighBits(h: nat, bits: nat)
    requires bits <= 64
    ensures IsCut(h, bits) <==> h < Pow2(64 - bits)
  {
    hide Pow2;
    Quotient(h, Pow2(64 - bits));
  }

  lemma Quotient(h: nat, w: nat)
    requires w > 0
    ensures h / w == 0 <==> h < w
  {
  }

  /** Priming starts a window before the first legal cut. */
  function From(p: Params): nat
  {
    if p.min > WINDOW then p.min - WINDOW else 0
  }

  /** The hash tested at a position of a chunk that starts where `s` does. */
  function HashAt(s: Text, p: Params, g: Gears, i: nat): nat
    requires p.min <= i < |s|
  {
    Gear(s[From(p)..i + 1], g)
  }

  /** With at least a window before the first legal cut, the hash tested at a position is a
      function of the 64 bytes that end there. */
  lemma HashIsLocal(s: Text, p: Params, g: Gears, i: nat)
    requires WINDOW <= p.min <= i < |s|
    ensures HashAt(s, p, g, i) == Gear(s[i + 1 - WINDOW..i + 1], g)
  {
    var t := s[From(p)..i + 1];
    OnlyTheWindow(t, g);
    assert t[|t| - WINDOW..] == s[i + 1 - WINDOW..i + 1];
  }

  function Least(a: nat, b: nat): nat
  {
    if a < b then a else b
  }

  function Scan(s: Text, p: Params, g: Gears, i: nat, upto: nat, bits: nat): (j: nat)
    requires p.min <= i && upto <= |s| && bits <= 64
    ensures j >= i && (i <= upto ==> j <= upto) && (i > upto ==> j == i)
    ensures forall k :: i <= k < j ==> !IsCut(HashAt(s, p, g, k), bits)
    ensures j < upto ==> IsCut(HashAt(s, p, g, j), bits)
    decreases upto - i
  {
    if i >= upto || IsCut(HashAt(s, p, g, i), bits) then i else Scan(s, p, g, i + 1, upto, bits)
  }

  /** Where the scan stops: under the strict mask up to the average, then the loose one. */
  function Stop(s: Text, p: Params, g: Gears): nat
    requires |s| > p.min
  {
    var limit, normal := Least(|s|, p.max), Least(|s|, p.avg);
    var i := Scan(s, p, g, p.min, normal, CutBits(p.avg, 2));
    if i >= normal then Scan(s, p, g, i, limit, CutBits(p.avg, -2)) else i
  }

  /** The length of the first chunk. */
  function First(s: Text, p: Params, g: Gears): (n: nat)
    requires s != [] && p.max > 0
    ensures 0 < n <= |s|
  {
    if |s| <= p.min then |s| else
      var limit := Least(|s|, p.max);
      var i := Stop(s, p, g);
      if i < limit then i + 1 else limit
  }

  /** The lengths of the chunks. */
  function Chunks(s: Text, p: Params, g: Gears): (r: seq<nat>)
    requires p.max > 0
    ensures s != [] ==> r != []
  {
    if s == [] then [] else [First(s, p, g)] + Chunks(s[First(s, p, g)..], p, g)
  }

  function Sum(ns: seq<nat>): nat
  {
    if ns == [] then 0 else ns[0] + Sum(ns[1..])
  }

  /** How small the hash must be for a chunk to end with `k` bytes: under the strict test up to
      the average, then under the loose one. */
  function Bound(p: Params, k: nat): nat
  {
    Pow2(64 - CutBits(p.avg, if k <= p.avg then 2 else -2))
  }

  /** A chunk longer than the least ends where the hash of the bytes from a window before the
      least is first small enough, or at the limit if it never is. */
  lemma CutsAtFirstTest(s: Text, p: Params, g: Gears)
    requires |s| > p.min && p.min <= p.max && p.max > 0
    ensures var n, limit, from :=
        First(s, p, g), if |s| < p.max then |s| else p.max, if p.min > 64 then p.min - 64 else 0;
      && p.min <= n <= limit
      && (forall k :: p.min < k < n ==>
            Gear(s[from..k], g) >= Pow2(64 - CutBits(p.avg, if k <= p.avg then 2 else -2)))
      && (n < limit ==>
            p.min < n && Gear(s[from..n], g) < Pow2(64 - CutBits(p.avg, if n <= p.avg then 2 else -2)))
  {
    hide IsCut, CutBits, Gear, Pow2;
    var normal := Least(|s|, p.avg);
    var i := Scan(s, p, g, p.min, normal, CutBits(p.avg, 2));
    var j := Stop(s, p, g);
    forall k | p.min < k <= |s| && k <= p.max && k <= j ensures Gear(s[From(p)..k], g) >= Bound(p, k) {
      assert k <= normal ==> k <= i;
      HighBits(HashAt(s, p, g, k - 1), CutBits(p.avg, if k <= p.avg then 2 else -2));
    }
    if j < |s| { HighBits(HashAt(s, p, g, j), CutBits(p.avg, if j < p.avg then 2 else -2)); }
  }

  /** The chunks make up the input; every one but the last is between the least and the
      greatest size, and the last is no greater. */
  lemma {:induction false} ChunksFit(s: Text, p: Params, g: Gears)
    requires p.min <= p.max && p.max > 0
    ensures var c := Chunks(s, p, g);
      && Sum(c) == |s|
      && (forall k :: 0 <= k < |c| ==> 0 < c[k] <= p.max)
      && (forall k :: 0 <= k < |c| - 1 ==> p.min <= c[k])
  {
    hide First;
    if s != [] {
      var n := First(s, p, g);
      var rest := Chunks(s[n..], p, g);
      ChunksFit(s[n..], p, g);
      FirstFits(s, p, g);
      var c := Chunks(s, p, g);
      assert c[1..] == rest;
      forall k | 0 <= k < |c| - 1 ensures p.min <= c[k] {
        if k > 0 { assert c[k] == rest[k - 1]; }
      }
    }
  }

  lemma FirstFits(s: Text, p: Params, g: Gears)
    requires s != [] && p.min <= p.max && p.max > 0
    ensures First(s, p, g) <= p.max && (First(s, p, g) < |s| ==> p.min <= First(s, p, g))
  {
    if |s| > p.min { CutsAtFirstTest(s, p, g); }
  }

  /** Where a cut falls just before `s`, everything after it is cut as `s` alone would be. So
      two inputs that both cut just before a suffix they share agree on all later cuts. */
  lemma {:induction false} SuffixResyncs(a: Text, s: Text, p: Params, g: Gears, k: nat)
    requires p.max > 0 && k <= |Chunks(a + s, p, g)| && Sum(Chunks(a + s, p, g)[..k]) == |a|
    ensures Chunks(a + s, p, g)[k..] == Chunks(s, p, g)
    decreases k
  {
    hide First;
    var all := Chunks(a + s, p, g);
    if k == 0 {
      assert a + s == s;
    } else {
      var n := First(a + s, p, g);
      var rest := (a + s)[n..];
      assert all[..k][1..] == all[1..][..k - 1] && all[1..] == Chunks(rest, p, g);
      assert n <= |a|;
      assert rest == a[n..] + s;
      SuffixResyncs(a[n..], s, p, g, k - 1);
      assert all[k..] == all[1..][k - 1..];
    }
  }

  // ---------------------------------------------------------------------------
  // The loops
  // ---------------------------------------------------------------------------

  lemma HashStep(s: Text, p: Params, g: Gears, from: nat, i: nat)
    requires from <= i < |s|
    ensures Gear(s[from..i + 1], g) == Turn(Gear(s[from..i], g), s[i], g)
  {
    assert s[from..i + 1] == s[from..i] + [s[i]];
    GearMore(s[from..i], s[i], g);
  }

  method ScanLoop(s: Text, p: Params, g: Gears, i0: nat, upto: nat, bits: nat, h0: nat) returns (i: nat, h: nat)
    requires p.min <= i0 && upto <= |s| && bits <= 64 && i0 <= |s|
    requires h0 == Gear(s[From(p)..i0], g)
    ensures i == Scan(s, p, g, i0, upto, bits) && i <= |s|
    ensures i >= upto ==> h == Gear(s[From(p)..i], g)
  {
    hide Gear, IsCut;
    i, h := i0, h0;
    while i < upto
      invariant i0 <= i <= |s| && h == Gear(s[From(p)..i], g)
      invariant Scan(s, p, g, i, upto, bits) == Scan(s, p, g, i0, upto, bits)
    {
      HashStep(s, p, g, From(p), i);
      h := Turn(h, s[i], g);
      if IsCut(h, bits) { return; }
      i := i + 1;
    }
  }

  /** `chunk`. */
  method Chunk(b: Text, p: Params, g: Gears) returns (out: seq<nat>)
    requires p.max > 0
    ensures out == Chunks(b, p, g)
  {
    hide Scan, CutBits, Gear;
    var strict := CountCutBits(p.avg, 2);
    var loose := CountCutBits(p.avg, -2);
    out := [];
    var start := 0;
    assert b[0..] == b;
    while start < |b|
      invariant start <= |b|
      invariant out + Chunks(b[start..], p, g) == Chunks(b, p, g)
      decreases |b| - start
    {
      var s := b[start..];
      var remaining := |b| - start;
      if remaining <= p.min {
        assert s[remaining..] == [];
        assert Chunks(s, p, g) == [remaining];
        out := out + [remaining];
        return;
      }
      var size := OneChunk(s, p, g, strict, loose);
      assert b[start + size..] == s[size..];
      assert Chunks(s, p, g) == [size] + Chunks(s[size..], p, g);
      ghost var before := out;
      out := out + [size];
      assert out + Chunks(s[size..], p, g) == before + Chunks(s, p, g);
      start := start + size;
    }
    assert b[start..] == [];
  }

  method OneChunk(s: Text, p: Params, g: Gears, strict: nat, loose: nat) returns (size: nat)
    requires |s| > p.min && p.max > 0
    requires strict == CutBits(p.avg, 2) && loose == CutBits(p.avg, -2)
    ensures size == First(s, p, g)
  {
    hide Scan, CutBits, Gear;
    var limit := if |s| < p.max then |s| else p.max;
    var normal := if |s| < p.avg then |s| else p.avg;
    var h := 0;
    EmptyGear(g);
    var j := From(p);
    assert s[j..j] == [];
    while j < p.min
      invariant From(p) <= j <= p.min && h == Gear(s[From(p)..j], g)
    {
      HashStep(s, p, g, From(p), j);
      h := Turn(h, s[j], g);
      j := j + 1;
    }
    var i;
    i, h := ScanLoop(s, p, g, p.min, normal, strict, h);
    if i >= normal { i, h := ScanLoop(s, p, g, i, limit, loose, h); }
    size := if i < limit then i + 1 else limit;
  }

  lemma EmptyGear(g: Gears)
    ensures Gear([], g) == 0
  {
  }
}
