/** The canonical encoding: values to bytes, and the defensive parser back. */
module Codec {
  import opened Bytes
  import opened Numbers
  import opened Options
  import Utf8

  /** A JSON value as the library holds it: strings end at their first NUL, and the members
      of an object stand in some order. */
  datatype Value =
    | Null
    | False
    | True
    | Num(num: Number)
    | Str(text: Text)
    | List(items: seq<Value>)
    | Map(pairs: seq<Member<Value>>)

  datatype Member<+V> = Member(key: Text, value: V)

  const NULL: byte := 0
  const FALSE: byte := 1
  const TRUE: byte := 2
  const INT: byte := 3
  const FLOAT: byte := 4
  const STR: byte := 5
  const SEQ: byte := 7
  const MAP: byte := 8
  const SET: byte := 9

  // ---------------------------------------------------------------------------
  // Whole numbers on the wire
  // ---------------------------------------------------------------------------

  function Uvarint(n: nat): (s: Text)
    ensures s != []
  {
    if n < 128 then [n] else [n % 128 + 128] + Uvarint(n / 128)
  }

  /** Seven bits a byte, the least significant group first. */
  function Groups(s: Text): nat
  {
    if s == [] then 0 else s[0] % 128 + 128 * Groups(s[1..])
  }

  /** A varint holds its number in groups of seven bits, every byte but the last marked as having
      another after it, with no empty group at the end: LEB128 at its shortest. */
  lemma {:induction false} UvarintIs(n: nat)
    ensures var s := Uvarint(n);
      && Groups(s) == n
      && (forall i :: 0 <= i < |s| ==> (s[i] >= 128 <==> i < |s| - 1))
      && (s[|s| - 1] == 0 ==> n == 0)
  {
    if n < 128 {
      assert [n][1..] == [];
    } else {
      UvarintIs(n / 128);
      assert Uvarint(n)[1..] == Uvarint(n / 128);
    }
  }

  /** `put_uvarint`. */
  method PutUvarint(out: Text, n: nat) returns (r: Text)
    ensures r == out + Uvarint(n)
  {
    r := out;
    var rest := n;
    while true
      invariant r + Uvarint(rest) == out + Uvarint(n)
      decreases rest
    {
      var low := rest % 128;
      var more := rest / 128 != 0;
      ghost var before := r;
      r := r + [if more then low + 128 else low];
      if !more { return; }
      assert Uvarint(rest) == [low + 128] + Uvarint(rest / 128);
      assert r + Uvarint(rest / 128) == before + Uvarint(rest);
      rest := rest / 128;
    }
  }

  /** A varint whose first byte is its `k`th: ten bytes at most, and the tenth at most 1. */
  function Varint(s: Text, k: nat): Option<(nat, Text)>
    requires k <= 10
    decreases 10 - k
  {
    if k == 10 || s == [] || (k == 9 && s[0] > 1) then None
    else if s[0] < 128 then Some((s[0], s[1..]))
    else match Varint(s[1..], k + 1)
      case None => None
      case Some(r) => Some((s[0] - 128 + 128 * r.0, r.1))
  }

  function Pow128(k: nat): (r: nat)
    ensures r > 0
  {
    if k == 0 then 1 else 128 * Pow128(k - 1)
  }

  /** What is still to be read, added to what the first `k` bytes held. */
  function Carry(v: nat, k: nat, rest: Option<(nat, Text)>): Option<(nat, Text)>
  {
    match rest
    case None => None
    case Some(r) => Some((v + Pow128(k) * r.0, r.1))
  }

  lemma VarintByte(s: Text, k: nat)
    requires s != [] && k < 10
    ensures Varint(s, k) ==
      if k == 9 && s[0] > 1 then None
      else if s[0] < 128 then Some((s[0], s[1..]))
      else match Varint(s[1..], k + 1)
        case None => None
        case Some(r) => Some((s[0] as int - 128 + 128 * r.0, r.1))
  {
  }

  lemma CarryByte(b: Text, j: nat, v: nat, k: nat)
    requires j < |b| && k < 10
    ensures k == 9 && b[j] > 1 ==> Carry(v, k, Varint(b[j..], k)) == None
    ensures !(k == 9 && b[j] > 1) && b[j] < 128 ==>
      Carry(v, k, Varint(b[j..], k)) == Some((v + b[j] % 128 * Pow128(k), b[j + 1..]))
    ensures !(k == 9 && b[j] > 1) && b[j] >= 128 ==>
      Carry(v, k, Varint(b[j..], k)) == Carry(v + b[j] % 128 * Pow128(k), k + 1, Varint(b[j + 1..], k + 1))
  {
    hide Varint, Carry, Pow128;
    var s := b[j..];
    assert s[0] == b[j] && s[1..] == b[j + 1..];
    VarintByte(s, k);
    CarryNone(v, k);
    CarryLast(v, k, b[j], s[1..]);
    if b[j] >= 128 { CarryOn(v, k, b[j], Varint(s[1..], k + 1)); }
  }

  lemma CarryNone(v: nat, k: nat)
    ensures Carry(v, k, None) == None
  {
  }

  lemma CarryLast(v: nat, k: nat, c: byte, rest: Text)
    ensures c < 128 ==> Carry(v, k, Some((c, rest))) == Some((v + c % 128 * Pow128(k), rest))
  {
    hide Pow128;
    Swap(Pow128(k), c);
  }

  lemma CarryOn(v: nat, k: nat, c: byte, rest: Option<(nat, Text)>)
    requires c >= 128
    ensures Carry(v, k, match rest case None => None case Some(r) => Some((c as int - 128 + 128 * r.0, r.1)))
      == Carry(v + c % 128 * Pow128(k), k + 1, rest)
  {
    var w := Pow128(k);
    assert Pow128(k + 1) == 128 * w;
    hide Pow128;
    if rest.Some? { Regroup(v, w, c as int - 128, rest.value.0); }
  }

  lemma Swap(x: nat, y: nat)
    ensures x * y == y * x
  {
  }

  lemma Regroup(v: nat, weight: nat, c: nat, n: nat)
    ensures v + weight * (c + 128 * n) == (v + c * weight) + 128 * weight * n
  {
    assert weight * (c + 128 * n) == weight * c + weight * (128 * n);
    assert weight * (128 * n) == 128 * weight * n;
  }

  /** `read_varint`: the cursor `i` moves past what was read. */
  method ReadVarint(b: Text, i: nat) returns (r: Option<nat>, j: nat)
    requires i <= |b|
    ensures match Varint(b[i..], 0)
      case None => r == None
      case Some(v) => r == Some(v.0) && j <= |b| && b[j..] == v.1
  {
    hide Varint;
    var v: nat := 0;
    j := i;
    assert Pow128(0) == 1;
    for k := 0 to 10
      invariant i <= j <= |b|
      invariant Varint(b[i..], 0) == Carry(v, k, Varint(b[j..], k))
    {
      if j >= |b| {
        VarintStops(b[j..], k);
        return None, j;
      }
      CarryByte(b, j, v, k);
      var c := b[j];
      j := j + 1;
      if k == 9 && c > 1 { return None, j; }
      v := v + c % 128 * Pow128(k);
      if c < 128 { return Some(v), j; }
    }
    VarintStops(b[j..], 10);
    return None, j;
  }

  lemma VarintStops(s: Text, k: nat)
    requires k <= 10 && (s == [] || k == 10)
    ensures Varint(s, k) == None
  {
  }

  /** One past the largest number whose varint may start at byte `k`. */
  function Top(k: nat): (t: nat)
    requires k <= 9
    ensures t >= 2 && (k < 9 ==> t >= 256)
    decreases 9 - k
  {
    if k == 9 then 2 else 128 * Top(k + 1)
  }

  lemma {:induction false} VarintBack(n: nat, k: nat, rest: Text)
    requires k <= 9 && n < Top(k)
    ensures Varint(Uvarint(n) + rest, k) == Some((n, rest))
    decreases 9 - k
  {
    hide Varint;
    var s := Uvarint(n) + rest;
    VarintByte(s, k);
    if n < 128 {
      assert s[1..] == rest;
    } else {
      assert s[1..] == Uvarint(n / 128) + rest;
      VarintBack(n / 128, k + 1, rest);
    }
  }

  /** Groups of seven bits, every one but the last marked as having another after it; the last may
      be empty. */
  predicate Marked(g: Text)
  {
    g != [] && forall i :: 0 <= i < |g| ==> (g[i] >= 128 <==> i < |g| - 1)
  }

  /** What is read: such a run at the front, at its value, if it is ten bytes or fewer and fits 64
      bits; longer than need be or not. */
  lemma {:induction false} VarintMeans(g: Text, k: nat, rest: Text)
    requires Marked(g) && k <= 9
    ensures Varint(g + rest, k) == if |g| <= 10 - k && Groups(g) < Top(k) then Some((Groups(g), rest)) else None
    decreases 9 - k
  {
    hide Varint;
    var s := g + rest;
    VarintByte(s, k);
    assert s[1..] == g[1..] + rest;
    if |g| == 1 {
      assert g[1..] == [] && Groups(g[1..]) == 0;
    } else {
      assert g[0] >= 128;
      if k < 9 {
        MarkedRest(g);
        VarintMeans(g[1..], k + 1, rest);
      }
    }
  }

  lemma MarkedRest(g: Text)
    requires Marked(g) && |g| > 1
    ensures Marked(g[1..])
  {
    var h := g[1..];
    forall i | 0 <= i < |h| ensures h[i] >= 128 <==> i < |h| - 1 {
      assert h[i] == g[i + 1];
    }
  }

  /** Bytes that all say there is another to come are no number. */
  lemma {:induction false} VarintUnfinished(s: Text, k: nat)
    requires k <= 10 && forall i :: 0 <= i < |s| ==> s[i] >= 128
    ensures Varint(s, k) == None
    decreases 10 - k
  {
    if s != [] && k < 10 {
      VarintUnfinished(s[1..], k + 1);
    }
  }

  lemma {:induction false} VarintSmaller(s: Text, k: nat)
    requires k <= 10
    ensures Varint(s, k).Some? ==>
      |Varint(s, k).value.1| < |s| && (k <= 9 ==> Varint(s, k).value.0 < Top(k))
    decreases 10 - k
  {
    if k < 10 && s != [] && s[0] >= 128 {
      VarintSmaller(s[1..], k + 1);
    }
  }

  lemma TopIs64()
    ensures Top(0) == TWO_64
  {
    assert Top(9) == 2 && Top(8) == 256 && Top(7) == 0x8000 && Top(6) == 0x40_0000 && Top(5) == 0x2000_0000;
    assert Top(4) == 0x10_0000_0000 && Top(3) == 0x800_0000_0000 && Top(2) == 0x4_0000_0000_0000;
    assert Top(1) == 0x200_0000_0000_0000;
  }

  /** `zigzag`, and its inverse as the decoder writes it. */
  function Zigzag(n: int): nat
  {
    if n >= 0 then 2 * n else -2 * n - 1
  }

  function Unzigzag(z: nat): int
  {
    if z % 2 == 0 then z / 2 else -(z as int / 2) - 1
  }

  /** The low `k` bytes of `n`, most significant first. */
  function BigEndian(n: nat, k: nat): (s: Text)
    ensures |s| == k
  {
    if k == 0 then [] else BigEndian(n / 256, k - 1) + [n % 256]
  }

  function FromBigEndian(s: Text): nat
  {
    if s == [] then 0 else FromBigEndian(s[..|s| - 1]) * 256 + s[|s| - 1]
  }

  function Pow256(k: nat): (r: nat)
    ensures r > 0
  {
    if k == 0 then 1 else 256 * Pow256(k - 1)
  }

  lemma {:induction false} BigEndianBack(n: nat, k: nat)
    requires n < Pow256(k)
    ensures FromBigEndian(BigEndian(n, k)) == n
  {
    if k > 0 {
      BigEndianBack(n / 256, k - 1);
      var s := BigEndian(n, k);
      assert s[..k - 1] == BigEndian(n / 256, k - 1);
    }
  }

  /** Each byte times 256 once for every byte after it. */
  function Weighed(s: Text): nat
  {
    if s == [] then 0 else s[0] * Pow256(|s| - 1) + Weighed(s[1..])
  }

  lemma {:induction false} WeighedMore(s: Text, c: byte)
    ensures Weighed(s + [c]) == 256 * Weighed(s) + c
  {
    if s == [] {
      assert Pow256(0) == 1 && (s + [c])[1..] == [];
    } else {
      assert (s + [c])[1..] == s[1..] + [c];
      WeighedMore(s[1..], c);
      assert Pow256(|s|) == 256 * Pow256(|s| - 1);
      assert s[0] * (256 * Pow256(|s| - 1)) == 256 * (s[0] * Pow256(|s| - 1));
    }
  }

  /** The most significant byte stands first. */
  lemma {:induction false} BigEndianIs(n: nat, k: nat)
    requires n < Pow256(k)
    ensures Weighed(BigEndian(n, k)) == n
  {
    if k > 0 {
      BigEndianIs(n / 256, k - 1);
      WeighedMore(BigEndian(n / 256, k - 1), n % 256);
    }
  }

  lemma {:induction false} FromBigEndianBound(s: Text)
    ensures FromBigEndian(s) < Pow256(|s|)
    ensures BigEndian(FromBigEndian(s), |s|) == s
  {
    if s != [] {
      FromBigEndianBound(s[..|s| - 1]);
    }
  }

  // ---------------------------------------------------------------------------
  // Encoding
  // ---------------------------------------------------------------------------

  function EncStr(s: Text): (r: Text)
    ensures r != []
  {
    [STR] + Uvarint(|s|) + s
  }

  function EncNum(v: Number): (r: Text)
    ensures r != []
  {
    match v
    case Whole(n) => [INT] + Uvarint(Zigzag(n))
    case Double(bits) => [FLOAT] + BigEndian(bits, 8)
  }

  predicate KeyLess(a: Text, b: Text)
  {
    Less(EncStr(a), EncStr(b))
  }

  /** Members sorted by the encoded bytes of their keys. */
  function InsertPair<V>(p: Member<V>, ps: seq<Member<V>>): (r: seq<Member<V>>)
    ensures |r| == |ps| + 1
  {
    if ps == [] || KeyLess(p.key, ps[0].key) then [p] + ps else [ps[0]] + InsertPair(p, ps[1..])
  }

  function SortPairs<V>(ps: seq<Member<V>>): (r: seq<Member<V>>)
    ensures |r| == |ps|
  {
    if ps == [] then [] else InsertPair(ps[0], SortPairs(ps[1..]))
  }

  function Flat(ps: seq<Member<Text>>): Text
  {
    if ps == [] then [] else EncStr(ps[0].key) + ps[0].value + Flat(ps[1..])
  }

  /** The bytes `encode` writes for a value it does not refuse. */
  function Enc(v: Value): (r: Text)
    ensures r != []
  {
    match v
    case Null => [NULL]
    case False => [FALSE]
    case True => [TRUE]
    case Num(n) => EncNum(n)
    case Str(s) => EncStr(s)
    case List(items) => [SEQ] + Uvarint(|items|) + EncItems(items)
    case Map(pairs) => [MAP] + Uvarint(|pairs|) + Flat(SortPairs(EncPairs(pairs)))
  }

  function EncItems(items: seq<Value>): Text
  {
    if items == [] then [] else Enc(items[0]) + EncItems(items[1..])
  }

  function EncPairs(pairs: seq<Member<Value>>): (r: seq<Member<Text>>)
    ensures |r| == |pairs|
    ensures forall i :: 0 <= i < |pairs| ==> r[i].key == pairs[i].key
  {
    if pairs == [] then [] else [Member(pairs[0].key, Enc(pairs[0].value))] + EncPairs(pairs[1..])
  }

  /** A string as C keeps it. */
  predicate IsCString(s: Text)
  {
    0 !in s
  }

  function CString(s: Text): (r: Text)
    ensures IsCString(r) && |r| <= |s| && (IsCString(s) ==> r == s)
    ensures r == s[..|r|] && (|r| < |s| ==> s[|r|] == 0)
  {
    if s == [] || s[0] == 0 then [] else [s[0]] + CString(s[1..])
  }

  /** The values the library can hold in memory. */
  predicate IsValue(v: Value)
  {
    match v
    case Num(n) => IsNumber(n)
    case Str(s) => IsCString(s)
    case List(items) => forall i :: 0 <= i < |items| ==> IsValue(items[i])
    case Map(pairs) => forall i :: 0 <= i < |pairs| ==> IsCString(pairs[i].key) && IsValue(pairs[i].value)
    case _ => true
  }

  /** What `encode` does not refuse: finite numbers, text that is UTF-8, no member twice. */
  predicate Encodable(v: Value)
  {
    match v
    case Num(n) => n.Double? ==> Finite(n.bits)
    case Str(s) => Utf8.IsUtf8(s)
    case List(items) => forall i :: 0 <= i < |items| ==> Encodable(items[i])
    case Map(pairs) =>
      && (forall i :: 0 <= i < |pairs| ==> Utf8.IsUtf8(pairs[i].key) && Encodable(pairs[i].value))
      && (forall i, j :: 0 <= i < j < |pairs| ==> pairs[i].key != pairs[j].key)
    case _ => true
  }

  /** `encode`. */
  function Encode(v: Value): Option<Text>
  {
    if Encodable(v) then Some(Enc(v)) else None
  }

  /** Nesting as the decoder counts it: a member costs a level even when it is a leaf. */
  function Depth(v: Value): nat
  {
    match v
    case List(items) => DepthItems(items)
    case Map(pairs) => DepthPairs(pairs)
    case _ => 0
  }

  function DepthItems(items: seq<Value>): (d: nat)
    ensures forall i :: 0 <= i < |items| ==> Depth(items[i]) < d
    ensures items != [] ==> d > 0
  {
    if items == [] then 0 else
      var a, b := 1 + Depth(items[0]), DepthItems(items[1..]);
      assert forall i :: 0 < i < |items| ==> items[i] == items[1..][i - 1];
      if a > b then a else b
  }

  function DepthPairs(pairs: seq<Member<Value>>): (d: nat)
    ensures forall i :: 0 <= i < |pairs| ==> Depth(pairs[i].value) < d
    ensures pairs != [] ==> d > 0
  {
    if pairs == [] then 0 else
      var a, b := 1 + Depth(pairs[0].value), DepthPairs(pairs[1..]);
      assert forall i :: 0 < i < |pairs| ==> pairs[i] == pairs[1..][i - 1];
      if a > b then a else b
  }

  // ---------------------------------------------------------------------------
  // Decoding
  // ---------------------------------------------------------------------------

  /** A value at the start of `s`, with `room` more levels of nesting allowed, and the bytes
      after it. */
  function Parse(s: Text, room: int): (r: Option<(Value, Text)>)
    ensures r.Some? ==> |r.value.1| < |s|
    decreases |s|, 0
  {
    if room < 0 || s == [] then None
    else if s[0] == NULL then Some((Null, s[1..]))
    else if s[0] == FALSE then Some((False, s[1..]))
    else if s[0] == TRUE then Some((True, s[1..]))
    else if s[0] == FLOAT then
      if |s| < 9 then None else Some((Num(FromBits(FromBigEndian(s[1..9]))), s[9..]))
    else if s[0] in {INT, STR, SEQ, SET, MAP} then
      VarintSmaller(s[1..], 0);
      match Varint(s[1..], 0)
      case None => None
      case Some(h) => ParseBody(s[0], h.0, h.1, room)
    else None
  }

  /** What follows the number after a tag byte. */
  function ParseBody(tag: byte, n: nat, s: Text, room: int): (r: Option<(Value, Text)>)
    ensures r.Some? ==> |r.value.1| <= |s|
    decreases |s|, 2
  {
    if tag == INT then Some((Num(FromInt(Unzigzag(n))), s))
    else if tag == STR then
      if n > |s| then None else Some((Str(CString(s[..n])), s[n..]))
    else if tag == MAP then
      if n > |s| / 2 then None else
        match ParsePairs(s, n, room - 1)
        case None => None
        case Some(r) => Some((Map(r.0), r.1))
    else
      if n > |s| then None else
        match ParseItems(s, n, room - 1)
        case None => None
        case Some(r) => Some((List(r.0), r.1))
  }

  function ParseItems(s: Text, n: nat, room: int): (r: Option<(seq<Value>, Text)>)
    ensures r.Some? ==> |r.value.1| <= |s| && |r.value.0| == n
    decreases |s|, 1
  {
    if n == 0 then Some(([], s)) else
      match Parse(s, room)
      case None => None
      case Some(x) =>
        match ParseItems(x.1, n - 1, room)
        case None => None
        case Some(xs) => Some(([x.0] + xs.0, xs.1))
  }

  function ParsePairs(s: Text, n: nat, room: int): (r: Option<(seq<Member<Value>>, Text)>)
    ensures r.Some? ==> |r.value.1| <= |s| && |r.value.0| == n
    decreases |s|, 1
  {
    if n == 0 then Some(([], s)) else
      match Parse(s, room)
      case None => None
      case Some(k) =>
        if !k.0.Str? then None else
          match Parse(k.1, room)
          case None => None
          case Some(x) =>
            match ParsePairs(x.1, n - 1, room)
            case None => None
            case Some(xs) => Some(([Member(k.0.text, x.0)] + xs.0, xs.1))
  }

  /** `CJSON_NESTING_LIMIT`. */
  const NESTING_LIMIT := 1000

  /** `decode`: one value and nothing after it. */
  function Decode(b: Text): Option<Value>
  {
    match Parse(b, NESTING_LIMIT)
    case None => None
    case Some(r) => if r.1 == [] then Some(r.0) else None
  }

  /** `is_canonical`: what decodes, and encodes to the very same bytes. */
  predicate IsCanonical(b: Text)
  {
    match Decode(b)
    case None => false
    case Some(v) => Encode(v) == Some(b)
  }
}
