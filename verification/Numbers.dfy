/** JSON numbers as the encoder sees them. A double is either a whole number below 2^53 in
    magnitude, whatever way it was written, or its 64 bits. */
module Numbers {
  import opened Options

  const TWO_52 := 0x10_0000_0000_0000
  const TWO_53 := 0x20_0000_0000_0000
  const TWO_63 := 0x8000_0000_0000_0000
  const TWO_64 := 0x1_0000_0000_0000_0000

  datatype Number = Whole(n: int) | Double(bits: nat)

  function Pow2(k: nat): (r: nat)
    ensures r > 0
  {
    if k == 0 then 1 else 2 * Pow2(k - 1)
  }

  function Exponent(bits: nat): nat { bits / TWO_52 % 2048 }

  function Mantissa(bits: nat): nat { bits % TWO_52 }

  predicate Finite(bits: nat)
  {
    Exponent(bits) != 2047
  }

  /** `v == floor(v) && fabs(v) < 2^53`, and then which whole number; minus zero is zero. */
  function Folded(bits: nat): Option<int>
  {
    var e, m := Exponent(bits), Mantissa(bits);
    if e == 0 && m == 0 then Some(0)
    else if 1023 <= e <= 1075 && (TWO_52 + m) % Pow2(1075 - e) == 0 then
      var n := (TWO_52 + m) / Pow2(1075 - e);
      Some(if bits / TWO_63 % 2 == 1 then -(n as int) else n)
    else None
  }

  function FromBits(bits: nat): Number
  {
    match Folded(bits)
    case Some(n) => Whole(n)
    case None => Double(bits)
  }

  /** How far a whole number must be shifted right to fit 53 bits. */
  function Shift(m: nat): nat
  {
    if m < TWO_53 then 0 else 1 + Shift(m / 2)
  }

  /** `m` shifted right. */
  function Halved(m: nat, e: nat): nat
  {
    if e == 0 then m else Halved(m / 2, e - 1)
  }

  /** The bits of the double nearest to `n`, ties to even, for `n` of 2^53 or more. */
  function BigBits(n: int): nat
  {
    var m: nat := if n < 0 then -n else n;
    var e := Shift(m);
    var q := Halved(m, e);
    var r := m - q * Pow2(e);
    var up := 2 * r > Pow2(e) || (2 * r == Pow2(e) && q % 2 == 1);
    (if n < 0 then TWO_63 else 0) + (1074 + e) * TWO_52 + q + (if up then 1 else 0)
  }

  /** `static_cast<double>` of an `int64_t`. */
  function FromInt(n: int): Number
  {
    if -TWO_53 < n < TWO_53 then Whole(n) else Double(BigBits(n))
  }

  /** A number a double holds, named the one way. */
  predicate IsNumber(v: Number)
  {
    match v
    case Whole(n) => -TWO_53 < n < TWO_53
    case Double(bits) => bits < TWO_64 && Folded(bits) == None
  }

  lemma {:induction false} ShiftFits(m: nat, k: nat)
    requires TWO_53 <= m < TWO_53 * Pow2(k)
    ensures 1 <= Shift(m) <= k
    ensures TWO_52 <= Halved(m, Shift(m)) < TWO_53
  {
    assert Pow2(0) == 1;
    assert Pow2(k) == 2 * Pow2(k - 1);
    if m / 2 >= TWO_53 {
      ShiftFits(m / 2, k - 1);
    }
  }

  lemma TopBits(x: nat, y: nat)
    requires y < TWO_52
    ensures (x * TWO_52 + y) / TWO_52 == x
  {
  }

  /** A whole number of 64 bits that a double cannot hold below 2^53 never folds back. */
  lemma BigNeverFolds(n: int)
    requires -TWO_63 <= n < TWO_63 && !(-TWO_53 < n < TWO_53)
    ensures IsNumber(Double(BigBits(n)))
  {
    var e, low := BigParts(n);
    hide BigBits;
    var x: nat := (if n < 0 then 2048 else 0) + 1074 + e + low / TWO_52;
    TopBits(x, low % TWO_52);
    assert BigBits(n) == x * TWO_52 + low % TWO_52;
    assert Exponent(BigBits(n)) == 1074 + e + low / TWO_52;
  }

  /** The exponent, and the 53 bits under it, rounded. */
  lemma BigParts(n: int) returns (e: nat, low: nat)
    requires -TWO_63 <= n < TWO_63 && !(-TWO_53 < n < TWO_53)
    ensures 1 <= e <= 11 && TWO_52 <= low <= TWO_53
    ensures BigBits(n) == (if n < 0 then TWO_63 else 0) + (1074 + e) * TWO_52 + low
  {
    var m: nat := if n < 0 then -n else n;
    assert Pow2(11) == 2048;
    ShiftFits(m, 11);
    hide Pow2, Shift, Halved;
    e := Shift(m);
    var q := Halved(m, e);
    var r := m - q * Pow2(e);
    low := q + if 2 * r > Pow2(e) || (2 * r == Pow2(e) && q % 2 == 1) then 1 else 0;
  }

  lemma FromBitsIsNumber(bits: nat)
    requires bits < TWO_64
    ensures IsNumber(FromBits(bits))
  {
    var e, m := Exponent(bits), Mantissa(bits);
    if 1023 <= e <= 1075 {
      var n := (TWO_52 + m) / Pow2(1075 - e);
      assert n <= TWO_52 + m;
    }
  }
  // ---------------------------------------------------------------------------
  // What the bits are worth
  // ---------------------------------------------------------------------------

  /** The exact value of a finite double, counted in the least positive one, 2^-1074. */
  function Units(bits: nat): int
  {
    var e, m := Exponent(bits), Mantissa(bits);
    var u := if e == 0 then m else (TWO_52 + m) * Pow2(e - 1);
    if bits / TWO_63 % 2 == 1 then -(u as int) else u
  }

  lemma {:induction false} Pow2Adds(a: nat, b: nat)
    ensures Pow2(a + b) == Pow2(a) * Pow2(b)
  {
    if a > 0 {
      Pow2Adds(a - 1, b);
      assert Pow2(a) == 2 * Pow2(a - 1) && Pow2(a + b) == 2 * Pow2(a - 1 + b);
      Twofold(Pow2(a - 1), Pow2(b));
    }
  }

  lemma Twofold(x: nat, y: nat)
    ensures 2 * (x * y) == (2 * x) * y
  {
  }

  lemma Pow2Grows(a: nat, b: nat)
    requires a <= b
    ensures Pow2(a) <= Pow2(b)
  {
    Pow2Adds(a, b - a);
    assert Pow2(b) >= Pow2(a) by { AtLeast(Pow2(a), Pow2(b - a)); }
  }

  lemma AtLeast(x: nat, y: nat)
    requires y >= 1
    ensures x * y >= x
  {
  }

  lemma Pow52()
    ensures Pow2(52) == TWO_52 && Pow2(53) == TWO_53
  {
    hide Pow2;
    SmallPowers();
    Pow2Adds(10, 10);
    Pow2Adds(20, 20);
    Pow2Adds(40, 10);
    Pow2Adds(50, 2);
    Pow2Adds(50, 3);
  }

  lemma SmallPowers()
    ensures Pow2(0) == 1 && Pow2(1) == 2 && Pow2(2) == 4 && Pow2(3) == 8 && Pow2(10) == 1024
  {
    assert Pow2(3) == 8;
    assert Pow2(6) == 64;
  }

  /** A finite double folds to a whole number exactly when that is its value and is less than
      2^53 in magnitude. */
  lemma FoldedMeans(bits: nat, n: int)
    requires Finite(bits)
    ensures Folded(bits) == Some(n) <==> Units(bits) == n * Pow2(1074) && -TWO_53 < n < TWO_53
  {
    var e, m := Exponent(bits), Mantissa(bits);
    hide Pow2, Folded, Units;
    Pow52();
    if e == 0 {
      FoldedSmallest(bits, n);
    } else if e < 1023 {
      FoldedFraction(bits, n);
    } else if e <= 1075 {
      FoldedWhole(bits, n);
    } else {
      FoldedLarge(bits, n);
    }
  }

  /** Nothing but zero is both less than `w` in magnitude and a multiple of it. */
  lemma NoMultiple(u: int, n: int, w: nat)
    requires -(w as int) < u < w && u == n * w
    ensures n == 0 && u == 0
  {
    Within(n, 1, w);
  }

  lemma Within(n: int, k: nat, w: nat)
    requires w > 0
    ensures n * w < k * w <==> n < k
    ensures n * w > -((k * w) as int) <==> n > -(k as int)
  {
    Sign(k - n, w);
    Sign(n + k, w);
    assert (k - n) * w == k * w - n * w && (n + k) * w == n * w + k * w;
  }

  lemma Sign(x: int, w: nat)
    requires w > 0
    ensures x * w > 0 <==> x > 0
  {
  }

  lemma FoldedSmallest(bits: nat, n: int)
    requires Exponent(bits) == 0
    ensures Folded(bits) == Some(n) <==> Units(bits) == n * Pow2(1074) && -TWO_53 < n < TWO_53
  {
    hide Pow2;
    Pow52();
    Pow2Grows(52, 1074);
    if Units(bits) == n * Pow2(1074) { NoMultiple(Units(bits), n, Pow2(1074)); }
  }

  lemma FoldedFraction(bits: nat, n: int)
    requires 1 <= Exponent(bits) < 1023
    ensures Folded(bits) == Some(n) <==> Units(bits) == n * Pow2(1074) && -TWO_53 < n < TWO_53
  {
    hide Pow2;
    var e, m := Exponent(bits), Mantissa(bits);
    var u := (TWO_52 + m) * Pow2(e - 1);
    Pow52();
    Pow2Adds(53, e - 1);
    Pow2Grows(52 + e, 1074);
    Smaller(TWO_52 + m, TWO_53, Pow2(e - 1));
    assert 0 < u < Pow2(1074);
    if Units(bits) == n * Pow2(1074) { NoMultiple(Units(bits), n, Pow2(1074)); }
  }

  lemma Smaller(x: nat, y: nat, w: nat)
    requires 0 < x < y && w > 0
    ensures 0 < x * w < y * w
  {
  }

  lemma FoldedWhole(bits: nat, n: int)
    requires 1023 <= Exponent(bits) <= 1075
    ensures Folded(bits) == Some(n) <==> Units(bits) == n * Pow2(1074) && -TWO_53 < n < TWO_53
  {
    hide Pow2;
    var e, m := Exponent(bits), Mantissa(bits);
    var a, w, k := TWO_52 + m, Pow2(1075 - e), Pow2(e - 1);
    Pow2Adds(1075 - e, e - 1);
    var s := if n < 0 then -n else n;
    Scale(a, k, s, w);
    Divides(a, s, w);
    assert n * Pow2(1074) == if n < 0 then -(s * Pow2(1074)) else s * Pow2(1074);
    assert a * k > 0 by { Smaller(1, a + 1, k); }
  }

  lemma Scale(a: nat, k: nat, s: nat, w: nat)
    requires k > 0
    ensures a * k == s * (w * k) <==> a == s * w
  {
    assert s * (w * k) == (s * w) * k;
    if a < s * w { Smaller(a + 1, s * w + 1, k); }
    if a > s * w { Smaller(s * w + 1, a + 1, k); }
  }

  lemma Divides(a: nat, s: nat, w: nat)
    requires w > 0
    ensures a == s * w <==> a % w == 0 && a / w == s
  {
    var q, r := a / w, a % w;
    assert a == q * w + r;
    if a == s * w {
      assert (s - q) * w == r;
      NoMultiple(r, s - q, w);
    }
  }

  lemma FoldedLarge(bits: nat, n: int)
    requires 1076 <= Exponent(bits)
    ensures Folded(bits) == Some(n) <==> Units(bits) == n * Pow2(1074) && -TWO_53 < n < TWO_53
  {
    hide Pow2;
    var e, m := Exponent(bits), Mantissa(bits);
    Pow52();
    Pow2Adds(52, e - 1);
    Pow2Grows(1127, 51 + e);
    Pow2Adds(53, 1074);
    Within(n, TWO_53, Pow2(1074));
    assert (TWO_52 + m) * Pow2(e - 1) >= TWO_52 * Pow2(e - 1);
  }

  // ---------------------------------------------------------------------------
  // Rounding
  // ---------------------------------------------------------------------------

  lemma {:induction false} HalvedIs(m: nat, e: nat)
    ensures Halved(m, e) * Pow2(e) <= m < (Halved(m, e) + 1) * Pow2(e)
  {
    if e == 0 {
      assert Pow2(0) == 1;
    } else {
      HalvedIs(m / 2, e - 1);
      HalvedOnce(m, e);
      Doubled(Halved(m, e), Pow2(e - 1), m);
    }
  }

  lemma HalvedOnce(m: nat, e: nat)
    requires e > 0
    ensures Halved(m, e) == Halved(m / 2, e - 1) && Pow2(e) == 2 * Pow2(e - 1)
  {
  }

  lemma Doubled(q: nat, w: nat, m: nat)
    requires q * w <= m / 2 < (q + 1) * w
    ensures q * (2 * w) <= m < (q + 1) * (2 * w)
  {
    assert q * (2 * w) == 2 * (q * w);
    assert (q + 1) * (2 * w) == 2 * ((q + 1) * w);
  }

  /** Half of `w` away at most, and of two multiples as near the even one. */
  predicate IsNearest(x: int, low: int, product: int, w: int)
  {
    -w <= 2 * (product - x) <= w && (2 * (product - x) in {-w, w} ==> low % 2 == 0)
  }

  function RoundedUp(m: nat, q: nat, w: nat): nat
  {
    var r := m - q * w;
    q + if 2 * r > w || (2 * r == w && q % 2 == 1) then 1 else 0
  }

  lemma Nearer(m: nat, q: nat, w: nat)
    requires q * w <= m < (q + 1) * w
    ensures IsNearest(m, RoundedUp(m, q, w), RoundedUp(m, q, w) * w, w)
  {
    assert (q + 1) * w == q * w + w;
  }

  /** The three fields of a double whose sign, exponent and mantissa are put together so, the
      mantissa carrying into the exponent when it is full. */
  lemma FieldsOf(negative: bool, e: nat, low: nat, bits: nat)
    requires e <= 11 && TWO_52 <= low <= TWO_53
    requires bits == (if negative then TWO_63 else 0) + (1074 + e) * TWO_52 + low
    ensures Exponent(bits) == 1074 + e + low / TWO_52 && Mantissa(bits) == low % TWO_52
    ensures bits / TWO_63 % 2 == if negative then 1 else 0
  {
    var x: nat := (if negative then 2048 else 0) + 1074 + e + low / TWO_52;
    TopBits(x, low % TWO_52);
    assert bits == x * TWO_52 + low % TWO_52;
  }

  lemma UnitsOf(negative: bool, e: nat, low: nat, bits: nat)
    requires e <= 11 && TWO_52 <= low <= TWO_53
    requires bits == (if negative then TWO_63 else 0) + (1074 + e) * TWO_52 + low
    ensures Finite(bits)
    ensures Units(bits) == if negative then -(low * (Pow2(e) * Pow2(1074))) else low * (Pow2(e) * Pow2(1074))
  {
    hide Pow2, Exponent, Mantissa;
    FieldsOf(negative, e, low, bits);
    Pow2Adds(e, 1074);
    Pow2Adds(1, e + 1074);
    SmallPowers();
    if low == TWO_53 {
      Carried(Pow2(e + 1074));
    }
  }

  lemma Carried(w: nat)
    ensures TWO_52 * (2 * w) == TWO_53 * w
  {
  }

  lemma Magnitude(m: nat) returns (e: nat, q: nat)
    requires TWO_53 <= m <= TWO_63
    ensures e == Shift(m) && 1 <= e <= 11 && q == Halved(m, e) && TWO_52 <= q < TWO_53
    ensures q * Pow2(e) <= m < (q + 1) * Pow2(e)
    ensures TWO_52 * Pow2(e) <= m < TWO_53 * Pow2(e)
  {
    assert Pow2(11) == 2048;
    ShiftFits(m, 11);
    e := Shift(m);
    q := Halved(m, e);
    HalvedIs(m, e);
    hide Pow2, Shift, Halved;
    Between(TWO_52, q, TWO_53, Pow2(e));
  }

  lemma Between(a: nat, q: nat, b: nat, w: nat)
    requires a <= q < b
    ensures a * w <= q * w && (q + 1) * w <= b * w
  {
  }

  /** A whole number past 2^53 becomes the nearest double: with 2^e the place of the lowest bit
      kept, the multiple of it nearest to the number, and of two as near the one with an even
      last bit. */
  lemma NearestEven(n: int) returns (e: nat, u: int)
    requires -TWO_63 <= n < TWO_63 && !(-TWO_53 < n < TWO_53)
    ensures var m := if n < 0 then -n else n; TWO_52 * Pow2(e) <= m < TWO_53 * Pow2(e)
    ensures Finite(BigBits(n)) && Units(BigBits(n)) == u * (Pow2(e) * Pow2(1074))
    ensures IsNearest(n, u, u * Pow2(e), Pow2(e))
  {
    hide Pow2, Shift, Halved, Units, BigBits, RoundedUp, IsNearest, Finite;
    var m: nat := if n < 0 then -n else n;
    var q;
    e, q := Magnitude(m);
    var low := RoundedUp(m, q, Pow2(e));
    BigBitsAre(n, m, e, q, low);
    Nearer(m, q, Pow2(e));
    LowFits(m, q, Pow2(e));
    UnitsOf(n < 0, e, low, BigBits(n));
    u := if n < 0 then -(low as int) else low;
    Negated(low, Pow2(e) * Pow2(1074));
    NearestBelow(m, low, Pow2(e));
  }

  lemma BigBitsAre(n: int, m: nat, e: nat, q: nat, low: nat)
    requires m == (if n < 0 then -n else n) && e == Shift(m) && q == Halved(m, e) && low == RoundedUp(m, q, Pow2(e))
    ensures BigBits(n) == (if n < 0 then TWO_63 else 0) + (1074 + e) * TWO_52 + low
  {
    hide Pow2, Shift, Halved;
  }

  /** What is nearest to a number is nearest to its negative when both change sign. */
  lemma NearestBelow(x: int, low: int, w: int)
    ensures IsNearest(x, low, low * w, w) ==> IsNearest(-x, -low, -low * w, w)
  {
    Negated(low, w);
  }

  lemma LowFits(m: nat, q: nat, w: nat)
    ensures q <= RoundedUp(m, q, w) <= q + 1
  {
  }

  lemma Negated(x: int, y: int)
    ensures (-x) * y == -(x * y)
  {
  }
}
