/** Tags `<writer>_<n>`: minting them, reading the counter back, and their Lamport stamps. */
module Tags {
  import opened Bytes
  import opened Options

  /** The byte `_`. */
  const BAR: byte := 95

  /** Past this a further digit could leave 64 bits: `(UINT64_MAX - 9) / 10`. */
  const DIGIT_LIMIT := 1844674407370955160

  /** A replica id: 16 to 128 of `[A-Za-z0-9-]`, so never a `_`. */
  predicate ValidId(id: Text)
  {
    16 <= |id| <= 128 && forall i :: 0 <= i < |id| ==> IdByte(id[i])
  }

  predicate IdByte(c: byte)
  {
    97 <= c <= 122 || 65 <= c <= 90 || 48 <= c <= 57 || c == 45
  }

  /** `std::to_string`. */
  function Decimal(n: nat): Text
  {
    if n < 10 then [48 + n] else Decimal(n / 10) + [48 + n % 10]
  }

  /** Digits read left to right onto `acc`, refusing what might not fit 64 bits. */
  function Digits(s: Text, acc: nat): Option<nat>
  {
    if s == [] then Some(acc)
    else if !(48 <= s[0] <= 57) || acc > DIGIT_LIMIT then None
    else Digits(s[1..], acc * 10 + (s[0] - 48))
  }

  lemma {:induction false} DigitsSnoc(s: Text, d: byte, acc: nat)
    ensures Digits(s + [d], acc) ==
      match Digits(s, acc)
      case None => None
      case Some(m) => if !(48 <= d <= 57) || m > DIGIT_LIMIT then None else Some(m * 10 + (d - 48))
  {
    if s == [] {
      assert [] + [d] == [d];
    } else {
      assert (s + [d])[1..] == s[1..] + [d];
      if 48 <= s[0] <= 57 && acc <= DIGIT_LIMIT {
        DigitsSnoc(s[1..], d, acc * 10 + (s[0] - 48));
      }
    }
  }

  /** Digits from the left, each ten times the next. */
  function Valued(s: Text): int
  {
    if s == [] then 0 else 10 * Valued(s[..|s| - 1]) + (s[|s| - 1] as int - 48)
  }

  predicate AllDigits(s: Text)
  {
    forall i :: 0 <= i < |s| ==> 48 <= s[i] <= 57
  }

  lemma {:induction false} ValuedIsNat(s: Text)
    requires AllDigits(s)
    ensures Valued(s) >= 0 && (s != [] ==> Valued(s[..|s| - 1]) <= Valued(s))
  {
    if s != [] { ValuedIsNat(s[..|s| - 1]); }
  }

  /** A counter is read from any digits, leading zeros and all, whose value but for the last digit
      leaves room for one more in 64 bits. */
  lemma {:induction false} DigitsMean(s: Text, n: nat)
    ensures Digits(s, 0) == Some(n) <==>
      AllDigits(s) && Valued(s) == n && (s != [] ==> Valued(s[..|s| - 1]) <= DIGIT_LIMIT)
  {
    if s != [] {
      var init, d := s[..|s| - 1], s[|s| - 1];
      assert s == init + [d];
      DigitsSnoc(init, d, 0);
      if Digits(init, 0).Some? { DigitsMean(init, Digits(init, 0).value); }
      if AllDigits(s) {
        assert AllDigits(init);
        ValuedIsNat(init);
        DigitsMean(init, Valued(init));
      }
    }
  }

  lemma {:induction false} DigitsDecimal(n: nat)
    ensures Digits(Decimal(n), 0) == if n / 10 <= DIGIT_LIMIT then Some(n) else None
    ensures forall i :: 0 <= i < |Decimal(n)| ==> 48 <= Decimal(n)[i] <= 57
    ensures Decimal(n) != []
  {
    if n < 10 {
      assert [48 + n][1..] == [];
    } else {
      DigitsDecimal(n / 10);
      DigitsSnoc(Decimal(n / 10), 48 + n % 10, 0);
    }
  }

  lemma {:induction false} DecimalInjective(m: nat, n: nat)
    requires Decimal(m) == Decimal(n)
    ensures m == n
  {
    DigitsDecimal(m / 10);
    DigitsDecimal(n / 10);
    if m < 10 || n < 10 {
      assert |Decimal(m)| == |Decimal(n)| == 1;
    } else {
      var a, b := Decimal(m), Decimal(n);
      assert a[..|a| - 1] == Decimal(m / 10) && b[..|b| - 1] == Decimal(n / 10);
      DecimalInjective(m / 10, n / 10);
      assert a[|a| - 1] == 48 + m % 10 && b[|b| - 1] == 48 + n % 10;
    }
  }

  /** `Editor::mint`. */
  function Mint(id: Text, n: nat): Text
  {
    id + [BAR] + Decimal(n)
  }

  /** `own_counter`: the counter of a tag minted under `id`. */
  function OwnCounter(tag: Text, id: Text): Option<nat>
  {
    if |tag| <= |id| + 1 || !(id <= tag) || tag[|id|] != BAR then None
    else Digits(tag[|id| + 1..], 0)
  }

  lemma MintParts(id: Text, n: nat)
    ensures var t := Mint(id, n);
      |t| > |id| + 1 && t[..|id|] == id && t[|id|] == BAR && t[|id| + 1..] == Decimal(n)
  {
    DigitsDecimal(n);
  }

  lemma NoBar(id: Text)
    requires ValidId(id)
    ensures BAR !in id
  {
    forall i | 0 <= i < |id| ensures id[i] != BAR {
      assert IdByte(id[i]);
    }
  }

  /** One replica's tags are never read as another's. */
  lemma OwnMint(id: Text, w: Text, n: nat)
    requires ValidId(id) && ValidId(w)
    ensures OwnCounter(Mint(w, n), id) == if id == w && n / 10 <= DIGIT_LIMIT then Some(n) else None
  {
    var t := Mint(w, n);
    MintParts(w, n);
    DigitsDecimal(n);
    NoBar(id);
    NoBar(w);
    if |t| > |id| + 1 && id <= t && t[|id|] == BAR {
      FirstBar(t, id, w);
    }
  }

  lemma FirstBar(t: Text, a: Text, b: Text)
    requires BAR !in a && BAR !in b
    requires a <= t && b <= t && |a| < |t| && |b| < |t| && t[|a|] == BAR && t[|b|] == BAR
    ensures a == b
  {
    assert forall i :: 0 <= i < |a| ==> a[i] == t[i] && a[i] != BAR;
    assert forall i :: 0 <= i < |b| ==> b[i] == t[i] && b[i] != BAR;
  }

  lemma MintInjective(v: Text, m: nat, w: Text, n: nat)
    requires ValidId(v) && ValidId(w) && Mint(v, m) == Mint(w, n)
    ensures v == w && m == n
  {
    MintParts(v, m);
    MintParts(w, n);
    NoBar(v);
    NoBar(w);
    FirstBar(Mint(v, m), v, w);
    DecimalInjective(m, n);
  }

  // ---------------------------------------------------------------------------
  // Stamps
  // ---------------------------------------------------------------------------

  datatype Stamp = Stamp(n: nat, writer: Text, tag: Text)

  /** Position of the last `_`, or -1: `rfind`. */
  function LastBar(s: Text): (k: int)
    ensures -1 <= k < |s|
    ensures k >= 0 ==> s[k] == BAR
    ensures forall i :: k < i < |s| ==> s[i] != BAR
  {
    if s == [] then -1
    else if s[|s| - 1] == BAR then |s| - 1
    else LastBar(s[..|s| - 1])
  }

  /** `stamp_of`: a tag in any other form ranks with counter 0. */
  function StampOf(tag: Text): Stamp
  {
    var cut := LastBar(tag);
    if cut < 0 then Stamp(0, [], tag)
    else match Digits(tag[cut + 1..], 0)
      case Some(n) => Stamp(if cut + 1 < |tag| then n else 0, tag[..cut], tag)
      case None => Stamp(0, tag[..cut], tag)
  }

  lemma StampMint(id: Text, n: nat)
    requires ValidId(id)
    ensures StampOf(Mint(id, n)) == Stamp(if n / 10 <= DIGIT_LIMIT then n else 0, id, Mint(id, n))
  {
    var t := Mint(id, n);
    MintParts(id, n);
    DigitsDecimal(n);
    var k := LastBar(t);
    assert forall i :: 0 <= i < |Decimal(n)| ==> t[|id| + 1 + i] == Decimal(n)[i];
    assert forall j :: |id| < j < |t| ==> t[j] == Decimal(n)[j - |id| - 1];
    assert k == |id|;
  }

  predicate StampLess(a: Stamp, b: Stamp)
  {
    if a.n != b.n then a.n < b.n
    else if a.writer != b.writer then Less(a.writer, b.writer)
    else Less(a.tag, b.tag)
  }

  /** Of two tags with counters in range the one minted later ranks higher, and of two minted with
      one counter the one whose writer's id is greater in byte order. */
  lemma MintsRank(v: Text, m: nat, w: Text, n: nat)
    requires ValidId(v) && ValidId(w) && m / 10 <= DIGIT_LIMIT && n / 10 <= DIGIT_LIMIT
    ensures StampLess(StampOf(Mint(v, m)), StampOf(Mint(w, n))) <==> m < n || (m == n && Less(v, w))
  {
    hide Mint, StampOf;
    StampMint(v, m);
    StampMint(w, n);
    LessIrreflexive(v);
    LessIrreflexive(Mint(v, m));
  }

  /** A tag in no minted form, or whose counter is out of range, ranks below every tag with a
      counter; among such tags writers come first, then the tags themselves. */
  lemma StampRanks(a: Text, b: Text)
    ensures StampOf(a).n < StampOf(b).n ==> StampLess(StampOf(a), StampOf(b))
    ensures StampOf(a).n == StampOf(b).n && Less(StampOf(a).writer, StampOf(b).writer) ==>
      StampLess(StampOf(a), StampOf(b))
    ensures StampOf(a).n == StampOf(b).n && StampOf(a).writer == StampOf(b).writer && Less(a, b) ==>
      StampLess(StampOf(a), StampOf(b))
  {
    LessIrreflexive(StampOf(a).writer);
  }

  lemma StampTotal(a: Stamp, b: Stamp)
    ensures a == b || StampLess(a, b) || StampLess(b, a)
    ensures !(StampLess(a, b) && StampLess(b, a)) && !StampLess(a, a)
  {
    LessTotal(a.writer, b.writer);
    LessTotal(a.tag, b.tag);
    if Less(a.writer, b.writer) { LessAsymmetric(a.writer, b.writer); }
    if Less(a.tag, b.tag) { LessAsymmetric(a.tag, b.tag); }
    LessIrreflexive(a.tag);
  }

  lemma StampTransitive(a: Stamp, b: Stamp, c: Stamp)
    requires StampLess(a, b) && StampLess(b, c)
    ensures StampLess(a, c)
  {
    if a.n == b.n == c.n {
      if a.writer != b.writer && b.writer != c.writer {
        LessTransitive(a.writer, b.writer, c.writer);
        if a.writer == c.writer { LessAsymmetric(a.writer, b.writer); }
      } else if a.writer == b.writer == c.writer {
        LessTransitive(a.tag, b.tag, c.tag);
      }
    }
  }
}
