/** The encoding loses nothing but the order of members, and the parser accepts as canonical
    exactly what the encoder can write. */
module CodecLaws {
  import opened Bytes
  import opened Codec
  import opened Numbers
  import opened Options
  import Utf8

  /** The value with the members of every object in the order they are encoded. */
  function Canon(v: Value): Value
  {
    match v
    case List(items) => List(CanonItems(items))
    case Map(pairs) => Map(SortPairs(CanonPairs(pairs)))
    case _ => v
  }

  function CanonItems(items: seq<Value>): (r: seq<Value>)
    ensures |r| == |items|
    ensures forall i :: 0 <= i < |items| ==> r[i] == Canon(items[i])
  {
    if items == [] then [] else [Canon(items[0])] + CanonItems(items[1..])
  }

  function CanonPairs(pairs: seq<Member<Value>>): (r: seq<Member<Value>>)
    ensures |r| == |pairs|
    ensures forall i :: 0 <= i < |pairs| ==> r[i] == Member(pairs[i].key, Canon(pairs[i].value))
  {
    if pairs == [] then [] else [Member(pairs[0].key, Canon(pairs[0].value))] + CanonPairs(pairs[1..])
  }

  // ---------------------------------------------------------------------------
  // Sorting members
  // ---------------------------------------------------------------------------

  lemma {:induction false} InsertMembers<V>(p: Member<V>, ps: seq<Member<V>>)
    ensures multiset(InsertPair(p, ps)) == multiset([p]) + multiset(ps)
  {
    if ps != [] && !KeyLess(p.key, ps[0].key) {
      InsertMembers(p, ps[1..]);
      assert ps == [ps[0]] + ps[1..];
    }
  }

  lemma {:induction false} SortMembers<V>(ps: seq<Member<V>>)
    ensures multiset(SortPairs(ps)) == multiset(ps)
    ensures forall m :: m in SortPairs(ps) <==> m in ps
  {
    if ps != [] {
      SortMembers(ps[1..]);
      InsertMembers(ps[0], SortPairs(ps[1..]));
      assert ps == [ps[0]] + ps[1..];
    }
    assert forall m :: m in SortPairs(ps) <==> m in multiset(SortPairs(ps));
    assert forall m :: m in ps <==> m in multiset(ps);
  }

  lemma SortedEach<V>(ps: seq<Member<V>>, i: nat) returns (j: nat)
    requires i < |ps|
    ensures j < |ps| && SortPairs(ps)[i] == ps[j]
  {
    SortMembers(ps);
    var m := SortPairs(ps)[i];
    assert m in multiset(SortPairs(ps));
    assert m in multiset(ps);
    j :| 0 <= j < |ps| && ps[j] == m;
  }

  lemma {:induction false} InsertEnc(p: Member<Value>, ps: seq<Member<Value>>)
    ensures InsertPair(Member(p.key, Enc(p.value)), EncPairs(ps)) == EncPairs(InsertPair(p, ps))
  {
    if ps != [] {
      assert EncPairs(ps)[1..] == EncPairs(ps[1..]);
      if KeyLess(p.key, ps[0].key) {
        assert ([p] + ps)[1..] == ps;
      } else {
        InsertEnc(p, ps[1..]);
        assert ([ps[0]] + InsertPair(p, ps[1..]))[1..] == InsertPair(p, ps[1..]);
      }
    }
  }

  lemma {:induction false} SortEnc(ps: seq<Member<Value>>)
    ensures SortPairs(EncPairs(ps)) == EncPairs(SortPairs(ps))
  {
    if ps != [] {
      assert EncPairs(ps)[1..] == EncPairs(ps[1..]);
      SortEnc(ps[1..]);
      InsertEnc(ps[0], SortPairs(ps[1..]));
    }
  }

  lemma {:induction false} InsertCanon(p: Member<Value>, ps: seq<Member<Value>>)
    ensures InsertPair(Member(p.key, Canon(p.value)), CanonPairs(ps)) == CanonPairs(InsertPair(p, ps))
  {
    if ps != [] {
      assert CanonPairs(ps)[1..] == CanonPairs(ps[1..]);
      if KeyLess(p.key, ps[0].key) {
        assert ([p] + ps)[1..] == ps;
      } else {
        InsertCanon(p, ps[1..]);
        assert ([ps[0]] + InsertPair(p, ps[1..]))[1..] == InsertPair(p, ps[1..]);
      }
    }
  }

  lemma {:induction false} SortCanon(ps: seq<Member<Value>>)
    ensures SortPairs(CanonPairs(ps)) == CanonPairs(SortPairs(ps))
  {
    if ps != [] {
      assert CanonPairs(ps)[1..] == CanonPairs(ps[1..]);
      SortCanon(ps[1..]);
      InsertCanon(ps[0], SortPairs(ps[1..]));
    }
  }

  ghost predicate DistinctKeys<V>(ps: seq<Member<V>>)
  {
    forall i, j :: 0 <= i < j < |ps| ==> ps[i].key != ps[j].key
  }

  ghost predicate Rising<V>(ps: seq<Member<V>>)
  {
    forall i, j :: 0 <= i < j < |ps| ==> KeyLess(ps[i].key, ps[j].key)
  }

  lemma {:induction false} UvarintPrefix(m: nat, n: nat, x: Text, y: Text)
    requires Uvarint(m) + x == Uvarint(n) + y
    ensures m == n && x == y
  {
    var s := Uvarint(m) + x;
    assert s[0] == Uvarint(m)[0] && s[0] == Uvarint(n)[0];
    if m >= 128 && n >= 128 {
      assert s[1..] == Uvarint(m / 128) + x;
      assert s[1..] == Uvarint(n / 128) + y;
      UvarintPrefix(m / 128, n / 128, x, y);
    } else {
      assert m < 128 && n < 128;
      assert s[1..] == x && s[1..] == y;
    }
  }

  /** Keys that encode alike are the same key. */
  lemma EncStrInjective(a: Text, b: Text)
    requires EncStr(a) == EncStr(b)
    ensures a == b
  {
    assert EncStr(a)[1..] == Uvarint(|a|) + a;
    assert EncStr(b)[1..] == Uvarint(|b|) + b;
    UvarintPrefix(|a|, |b|, a, b);
  }

  lemma KeyTotal(a: Text, b: Text)
    requires a != b
    ensures KeyLess(a, b) <==> !KeyLess(b, a)
  {
    if EncStr(a) == EncStr(b) { EncStrInjective(a, b); }
    LessTotal(EncStr(a), EncStr(b));
    if KeyLess(a, b) { LessAsymmetric(EncStr(a), EncStr(b)); }
  }

  lemma {:induction false} InsertRises<V>(p: Member<V>, ps: seq<Member<V>>)
    requires Rising(ps) && forall i :: 0 <= i < |ps| ==> ps[i].key != p.key
    ensures Rising(InsertPair(p, ps))
  {
    hide Less, EncStr;
    if ps != [] {
      KeyTotal(p.key, ps[0].key);
      if KeyLess(p.key, ps[0].key) {
        forall i | 0 <= i < |ps| ensures KeyLess(p.key, ps[i].key) {
          if i > 0 { LessTransitive(EncStr(p.key), EncStr(ps[0].key), EncStr(ps[i].key)); }
        }
      } else {
        var rest := InsertPair(p, ps[1..]);
        InsertRises(p, ps[1..]);
        InsertMembers(p, ps[1..]);
        forall j | 0 <= j < |rest| ensures KeyLess(ps[0].key, rest[j].key) {
          assert rest[j] in multiset(rest);
          assert rest[j] == p || rest[j] in ps[1..];
        }
      }
    }
  }

  lemma {:induction false} SortRises<V>(ps: seq<Member<V>>)
    requires DistinctKeys(ps)
    ensures Rising(SortPairs(ps))
  {
    hide KeyLess;
    if ps != [] {
      SortRises(ps[1..]);
      var rest := SortPairs(ps[1..]);
      forall i | 0 <= i < |rest| ensures rest[i].key != ps[0].key {
        var j := SortedEach(ps[1..], i);
      }
      InsertRises(ps[0], rest);
    }
  }

  lemma {:induction false} SortSorted<V>(ps: seq<Member<V>>)
    requires Rising(ps)
    ensures SortPairs(ps) == ps
  {
    hide KeyLess;
    if ps != [] {
      SortSorted(ps[1..]);
      assert ps == [ps[0]] + ps[1..];
    }
  }

  lemma SortKeepsDistinct<V>(ps: seq<Member<V>>)
    requires DistinctKeys(ps)
    ensures DistinctKeys(SortPairs(ps))
  {
    hide KeyLess;
    SortRises(ps);
    forall i, j | 0 <= i < j < |ps| ensures SortPairs(ps)[i].key != SortPairs(ps)[j].key {
      KeyIrreflexive(SortPairs(ps)[i].key);
    }
  }

  lemma KeyIrreflexive(a: Text)
    ensures !KeyLess(a, a)
  {
    LessIrreflexive(EncStr(a));
  }

  /** At every depth the members stand by the bytes their keys are written as, strictly
      ascending. */
  ghost predicate InOrder(v: Value)
  {
    match v
    case List(items) => forall i :: 0 <= i < |items| ==> InOrder(items[i])
    case Map(pairs) =>
      && (forall i, j :: 0 <= i < j < |pairs| ==> Less(EncStr(pairs[i].key), EncStr(pairs[j].key)))
      && forall i :: 0 <= i < |pairs| ==> InOrder(pairs[i].value)
    case _ => true
  }

  /** Sorting members no two of which share a key puts the bytes of their keys in order. */
  lemma SortedByBytes<V>(ps: seq<Member<V>>)
    requires DistinctKeys(ps)
    ensures forall i, j :: 0 <= i < j < |ps| ==> Less(EncStr(SortPairs(ps)[i].key), EncStr(SortPairs(ps)[j].key))
  {
    hide EncStr, Less, SortPairs;
    SortRises(ps);
  }

  lemma {:induction false} CanonInOrder(v: Value)
    requires Encodable(v)
    ensures InOrder(Canon(v))
    decreases v
  {
    hide EncStr, Less, Utf8.IsUtf8;
    match v {
      case List(items) =>
        forall i | 0 <= i < |items| ensures InOrder(Canon(items[i])) { CanonInOrder(items[i]); }
      case Map(pairs) =>
        var qs := CanonPairs(pairs);
        SortedByBytes(qs);
        forall i | 0 <= i < |pairs| ensures InOrder(SortPairs(qs)[i].value) {
          var j := SortedEach(qs, i);
          CanonInOrder(pairs[j].value);
        }
      case _ =>
    }
  }

  // ---------------------------------------------------------------------------
  // Round trip
  // ---------------------------------------------------------------------------

  /** Parsing what was encoded gives the value back, whatever follows it. */
  ghost predicate Reads(v: Value)
  {
    forall rest: Text, room: int :: Depth(v) <= room && |Enc(v)| < TWO_64 ==>
      Parse(Enc(v) + rest, room) == Some((Canon(v), rest))
  }

  lemma ParseTagged(tag: byte, n: nat, rest: Text, room: int)
    requires tag in {INT, STR, SEQ, MAP} && n < TWO_64 && room >= 0
    ensures Parse([tag] + Uvarint(n) + rest, room) == ParseBody(tag, n, rest, room)
  {
    var s := [tag] + Uvarint(n) + rest;
    assert s[1..] == Uvarint(n) + rest;
    TopIs64();
    VarintBack(n, 0, rest);
  }

  lemma {:induction false} ItemsLong(items: seq<Value>)
    ensures |EncItems(items)| >= |items|
    ensures forall i :: 0 <= i < |items| ==> |Enc(items[i])| <= |EncItems(items)|
  {
    hide Enc;
    if items != [] {
      ItemsLong(items[1..]);
      assert forall i :: 0 < i < |items| ==> items[i] == items[1..][i - 1];
    }
  }

  lemma {:induction false} ItemsBack(items: seq<Value>, rest: Text, room: int)
    requires forall i :: 0 <= i < |items| ==> Reads(items[i])
    requires DepthItems(items) <= room + 1 && |EncItems(items)| < TWO_64
    ensures ParseItems(EncItems(items) + rest, |items|, room) == Some((CanonItems(items), rest))
  {
    hide Parse, Enc, Canon, Depth;
    if items == [] {
      assert [] + rest == rest;
    } else {
      var after := EncItems(items[1..]) + rest;
      assert EncItems(items) + rest == Enc(items[0]) + after;
      assert Reads(items[0]);
      assert Parse(Enc(items[0]) + after, room) == Some((Canon(items[0]), after));
      ItemsBack(items[1..], rest, room);
    }
  }

  lemma {:induction false} FlatLong(ps: seq<Member<Text>>)
    requires forall i :: 0 <= i < |ps| ==> ps[i].value != []
    ensures |Flat(ps)| >= 2 * |ps|
    ensures forall i :: 0 <= i < |ps| ==> |EncStr(ps[i].key)| <= |Flat(ps)| && |ps[i].value| <= |Flat(ps)|
  {
    hide EncStr;
    if ps != [] {
      FlatLong(ps[1..]);
      assert forall i :: 0 < i < |ps| ==> ps[i] == ps[1..][i - 1];
    }
  }

  lemma StrReads(s: Text)
    requires IsCString(s)
    ensures Reads(Str(s))
  {
    forall rest: Text, room: int | 0 <= room && |EncStr(s)| < TWO_64
      ensures Parse(EncStr(s) + rest, room) == Some((Str(s), rest))
    {
      assert EncStr(s) + rest == [STR] + Uvarint(|s|) + (s + rest);
      ParseTagged(STR, |s|, s + rest, room);
      assert (s + rest)[..|s|] == s && (s + rest)[|s|..] == rest;
    }
  }

  lemma {:induction false} PairsBack(ps: seq<Member<Value>>, rest: Text, room: int)
    requires forall i :: 0 <= i < |ps| ==> IsCString(ps[i].key) && Reads(ps[i].value)
    requires forall i :: 0 <= i < |ps| ==> Depth(ps[i].value) <= room
    requires |Flat(EncPairs(ps))| < TWO_64
    ensures ParsePairs(Flat(EncPairs(ps)) + rest, |ps|, room) == Some((CanonPairs(ps), rest))
  {
    hide Parse, Canon, Depth, IsCString, EncStr;
    if ps == [] {
      assert [] + rest == rest;
    } else {
      assert EncPairs(ps)[1..] == EncPairs(ps[1..]);
      var k, v := ps[0].key, ps[0].value;
      var last := Flat(EncPairs(ps[1..])) + rest;
      StrReads(k);
      KeyParses(k, Enc(v) + last, room, v);
      assert Flat(EncPairs(ps)) + rest == EncStr(k) + (Enc(v) + last);
      assert Reads(v);
      assert Parse(Enc(v) + last, room) == Some((Canon(v), last));
      PairsBack(ps[1..], rest, room);
    }
  }

  lemma KeyParses(k: Text, rest: Text, room: int, v: Value)
    requires Reads(Str(k)) && |EncStr(k)| < TWO_64 && Depth(v) <= room
    ensures Parse(EncStr(k) + rest, room) == Some((Str(k), rest))
  {
    hide Parse, EncStr;
    assert Enc(Str(k)) == EncStr(k) && Depth(Str(k)) == 0;
    assert Parse(Enc(Str(k)) + rest, room) == Some((Canon(Str(k)), rest));
  }

  lemma NumReads(n: Number)
    requires IsNumber(n)
    ensures Reads(Num(n))
  {
    hide Parse, EncNum;
    forall rest: Text, room: int | 0 <= room ensures Parse(EncNum(n) + rest, room) == Some((Num(n), rest)) {
      match n {
        case Whole(k) => WholeReads(k, rest, room);
        case Double(bits) => DoubleReads(bits, rest, room);
      }
    }
  }

  lemma WholeReads(k: int, rest: Text, room: int)
    requires IsNumber(Whole(k)) && 0 <= room
    ensures Parse(EncNum(Whole(k)) + rest, room) == Some((Num(Whole(k)), rest))
  {
    hide Parse;
    assert EncNum(Whole(k)) + rest == [INT] + Uvarint(Zigzag(k)) + rest;
    ParseTagged(INT, Zigzag(k), rest, room);
  }

  lemma DoubleReads(bits: nat, rest: Text, room: int)
    requires IsNumber(Double(bits)) && 0 <= room
    ensures Parse(EncNum(Double(bits)) + rest, room) == Some((Num(Double(bits)), rest))
  {
    hide BigEndian, FromBigEndian, Varint;
    var s := EncNum(Double(bits)) + rest;
    assert s[1..9] == BigEndian(bits, 8) && s[9..] == rest;
    EightBytes();
    BigEndianBack(bits, 8);
  }

  lemma EightBytes()
    ensures Pow256(8) == TWO_64
  {
  }

  lemma {:induction false} ListReads(items: seq<Value>)
    requires forall i :: 0 <= i < |items| ==> Reads(items[i])
    ensures Reads(List(items))
  {
    forall rest: Text, room: int | DepthItems(items) <= room && |Enc(List(items))| < TWO_64
      ensures Parse(Enc(List(items)) + rest, room) == Some((Canon(List(items)), rest))
    {
      ListParses(items, rest, room);
    }
  }

  lemma ListParses(items: seq<Value>, rest: Text, room: int)
    requires forall i :: 0 <= i < |items| ==> Reads(items[i])
    requires DepthItems(items) <= room && |Enc(List(items))| < TWO_64
    ensures Parse(Enc(List(items)) + rest, room) == Some((Canon(List(items)), rest))
  {
    hide Parse, Reads, EncItems, CanonItems, ParseItems, DepthItems;
    ItemsLong(items);
    assert Enc(List(items)) + rest == [SEQ] + Uvarint(|items|) + (EncItems(items) + rest);
    ParseTagged(SEQ, |items|, EncItems(items) + rest, room);
    ItemsBack(items, rest, room - 1);
  }

  lemma MapReads(ps: seq<Member<Value>>)
    requires forall i :: 0 <= i < |ps| ==> IsCString(ps[i].key) && Reads(ps[i].value)
    ensures Reads(Map(ps))
  {
    hide SortPairs, EncPairs, IsCString;
    var qs := SortPairs(ps);
    SortEnc(ps);
    SortCanon(ps);
    forall i | 0 <= i < |qs| ensures IsCString(qs[i].key) && Reads(qs[i].value) && Depth(qs[i].value) < DepthPairs(ps) {
      var j := SortedEach(ps, i);
    }
    EncPairsFilled(qs);
    forall rest: Text, room: int | DepthPairs(ps) <= room && |Enc(Map(ps))| < TWO_64
      ensures Parse(Enc(Map(ps)) + rest, room) == Some((Canon(Map(ps)), rest))
    {
      MapParses(ps, qs, rest, room);
    }
  }

  lemma EncPairsFilled(ps: seq<Member<Value>>)
    ensures forall i :: 0 <= i < |ps| ==> EncPairs(ps)[i].value != []
  {
    if ps != [] {
      EncPairsFilled(ps[1..]);
    }
  }

  lemma MapParses(ps: seq<Member<Value>>, qs: seq<Member<Value>>, rest: Text, room: int)
    requires |qs| == |ps| && SortPairs(EncPairs(ps)) == EncPairs(qs) && SortPairs(CanonPairs(ps)) == CanonPairs(qs)
    requires forall i :: 0 <= i < |qs| ==>
      IsCString(qs[i].key) && Reads(qs[i].value) && Depth(qs[i].value) < room + 1
    requires forall i :: 0 <= i < |qs| ==> EncPairs(qs)[i].value != []
    requires 0 <= room && (qs != [] ==> 1 <= room) && |Enc(Map(ps))| < TWO_64
    requires forall i :: 0 <= i < |qs| ==> Depth(qs[i].value) <= room - 1
    ensures Parse(Enc(Map(ps)) + rest, room) == Some((Canon(Map(ps)), rest))
  {
    hide Parse, Reads, SortPairs, CanonPairs, EncPairs, IsCString, Depth, ParsePairs, Flat;
    var body := Flat(EncPairs(qs));
    assert Enc(Map(ps)) == [MAP] + Uvarint(|ps|) + body;
    assert Enc(Map(ps)) + rest == [MAP] + Uvarint(|ps|) + (body + rest);
    FlatLong(EncPairs(qs));
    ParseTagged(MAP, |ps|, body + rest, room);
    PairsBack(qs, rest, room - 1);
  }

  /** Every value `encode` accepts is read back, up to the order of its members. */
  lemma {:induction false} RoundTrip(v: Value)
    requires IsValue(v) && Encodable(v)
    ensures Reads(v)
  {
    hide Reads;
    match v {
      case Null => LeafReads(v);
      case False => LeafReads(v);
      case True => LeafReads(v);
      case Num(n) => NumReads(n);
      case Str(s) => StrReads(s);
      case List(items) =>
        forall i | 0 <= i < |items| ensures Reads(items[i]) { RoundTrip(items[i]); }
        ListReads(items);
      case Map(pairs) =>
        forall i | 0 <= i < |pairs| ensures Reads(pairs[i].value) { RoundTrip(pairs[i].value); }
        MapReads(pairs);
    }
  }

  lemma LeafReads(v: Value)
    requires v.Null? || v.False? || v.True?
    ensures Reads(v)
  {
    forall rest: Text, room: int | 0 <= room ensures Parse(Enc(v) + rest, room) == Some((v, rest)) {
      assert (Enc(v) + rest)[1..] == rest;
    }
  }

  /** Putting members in order changes nothing about the bytes. */
  lemma {:induction false} EncCanon(v: Value)
    requires Encodable(v)
    ensures Enc(Canon(v)) == Enc(v)
  {
    match v {
      case List(items) =>
        forall i | 0 <= i < |items| ensures Enc(Canon(items[i])) == Enc(items[i]) { EncCanon(items[i]); }
        EncCanonItems(items);
      case Map(pairs) =>
        forall i | 0 <= i < |pairs| ensures Enc(Canon(pairs[i].value)) == Enc(pairs[i].value) {
          EncCanon(pairs[i].value);
        }
        EncCanonPairs(pairs);
        SortEnc(CanonPairs(pairs));
        assert DistinctKeys(EncPairs(pairs));
        SortRises(EncPairs(pairs));
        SortSorted(SortPairs(EncPairs(pairs)));
      case _ =>
    }
  }

  lemma {:induction false} EncCanonItems(items: seq<Value>)
    requires forall i :: 0 <= i < |items| ==> Enc(Canon(items[i])) == Enc(items[i])
    ensures EncItems(CanonItems(items)) == EncItems(items)
  {
    hide Enc, Canon;
    if items != [] {
      EncCanonItems(items[1..]);
      assert CanonItems(items)[1..] == CanonItems(items[1..]);
    }
  }

  lemma {:induction false} EncCanonPairs(pairs: seq<Member<Value>>)
    requires forall i :: 0 <= i < |pairs| ==> Enc(Canon(pairs[i].value)) == Enc(pairs[i].value)
    ensures EncPairs(CanonPairs(pairs)) == EncPairs(pairs)
  {
    hide Enc, Canon;
    if pairs != [] {
      EncCanonPairs(pairs[1..]);
      assert CanonPairs(pairs)[1..] == CanonPairs(pairs[1..]);
    }
  }

  lemma {:induction false} CanonEncodable(v: Value)
    requires Encodable(v)
    ensures Encodable(Canon(v))
  {
    match v {
      case List(items) =>
        forall i | 0 <= i < |items| ensures Encodable(Canon(items[i])) { CanonEncodable(items[i]); }
      case Map(pairs) =>
        var ps := CanonPairs(pairs);
        forall i | 0 <= i < |ps| ensures Encodable(ps[i].value) && Utf8.IsUtf8(ps[i].key) {
          CanonEncodable(pairs[i].value);
        }
        SortKeepsDistinct(ps);
        forall i | 0 <= i < |ps| ensures Encodable(SortPairs(ps)[i].value) && Utf8.IsUtf8(SortPairs(ps)[i].key) {
          var j := SortedEach(ps, i);
        }
      case _ =>
    }
  }

  // ---------------------------------------------------------------------------
  // What the parser accepts
  // ---------------------------------------------------------------------------

  lemma {:induction false} ParseGives(s: Text, room: int)
    requires Parse(s, room).Some?
    ensures IsValue(Parse(s, room).value.0) && Depth(Parse(s, room).value.0) <= room
    decreases |s|, 0
  {
    if s[0] == FLOAT {
      FromBigEndianBound(s[1..9]);
      assert Pow256(8) == TWO_64;
      FromBitsIsNumber(FromBigEndian(s[1..9]));
    } else if s[0] in {INT, STR, SEQ, SET, MAP} {
      VarintSmaller(s[1..], 0);
      TopIs64();
      var h := Varint(s[1..], 0).value;
      BodyGives(s[0], h.0, h.1, room);
    }
  }

  lemma {:induction false} BodyGives(tag: byte, n: nat, s: Text, room: int)
    requires room >= 0 && n < TWO_64 && ParseBody(tag, n, s, room).Some?
    ensures IsValue(ParseBody(tag, n, s, room).value.0) && Depth(ParseBody(tag, n, s, room).value.0) <= room
    decreases |s|, 2
  {
    if tag == INT {
      var k := Unzigzag(n);
      if !(-TWO_53 < k < TWO_53) { BigNeverFolds(k); }
    } else if tag == MAP {
      PairsGive(s, n, room - 1);
    } else if tag != STR {
      ItemsGive(s, n, room - 1);
    }
  }

  lemma {:induction false} ItemsGive(s: Text, n: nat, room: int)
    requires ParseItems(s, n, room).Some?
    ensures var items := ParseItems(s, n, room).value.0;
      && (forall i :: 0 <= i < |items| ==> IsValue(items[i]))
      && (DepthItems(items) <= room + 1 || items == [])
    decreases |s|, 1
  {
    if n > 0 {
      var x := Parse(s, room).value;
      ParseGives(s, room);
      ItemsGive(x.1, n - 1, room);
      var xs := ParseItems(x.1, n - 1, room).value.0;
      assert ([x.0] + xs)[1..] == xs;
    }
  }

  lemma StrIsValue(v: Value)
    requires IsValue(v)
    ensures v.Str? ==> IsCString(v.text)
  {
  }

  lemma {:induction false} PairsGive(s: Text, n: nat, room: int)
    requires ParsePairs(s, n, room).Some?
    ensures var pairs := ParsePairs(s, n, room).value.0;
      && (forall i :: 0 <= i < |pairs| ==> IsCString(pairs[i].key) && IsValue(pairs[i].value))
      && (DepthPairs(pairs) <= room + 1 || pairs == [])
    decreases |s|, 1
  {
    hide Parse, IsValue, Depth, IsCString;
    if n > 0 {
      var k := Parse(s, room).value;
      ParseGives(s, room);
      StrIsValue(k.0);
      var x := Parse(k.1, room).value;
      ParseGives(k.1, room);
      PairsGive(x.1, n - 1, room);
      var xs := ParsePairs(x.1, n - 1, room).value.0;
      assert ([Member(k.0.text, x.0)] + xs)[1..] == xs;
    }
  }

  /** `decode(encode(v))` is `v` with its members in order, for every encodable value nested
      no deeper than the limit. */
  lemma DecodeEncode(v: Value)
    requires IsValue(v) && Encodable(v) && Depth(v) <= NESTING_LIMIT && |Enc(v)| < TWO_64
    ensures Decode(Enc(v)) == Some(Canon(v)) && Encode(Canon(v)) == Encode(v)
  {
    RoundTrip(v);
    assert Enc(v) + [] == Enc(v);
    assert Parse(Enc(v) + [], NESTING_LIMIT) == Some((Canon(v), []));
    EncCanon(v);
    CanonEncodable(v);
  }

  /** `is_canonical` accepts exactly the bytes `encode` can write within the limit. */
  lemma CanonicalIffWritten(b: Text)
    requires |b| < TWO_64
    ensures IsCanonical(b) <==>
      exists v :: IsValue(v) && Encodable(v) && Depth(v) <= NESTING_LIMIT && Enc(v) == b
    ensures IsCanonical(b) <==>
      exists v :: IsValue(v) && Encodable(v) && Depth(v) <= NESTING_LIMIT && InOrder(v) && Enc(v) == b
  {
    hide InOrder;
    if IsCanonical(b) {
      ParseGives(b, NESTING_LIMIT);
      var v := Decode(b).value;
      CanonicalOrdered(b, v);
      assert IsValue(v) && Encodable(v) && Depth(v) <= NESTING_LIMIT && InOrder(v) && Enc(v) == b;
    }
    if v :| IsValue(v) && Encodable(v) && Depth(v) <= NESTING_LIMIT && Enc(v) == b {
      DecodeEncode(v);
    }
  }

  /** Canonical bytes decode to a value whose members are already in order, at every depth. */
  lemma CanonicalOrdered(b: Text, v: Value)
    requires |b| < TWO_64 && IsCanonical(b) && Decode(b) == Some(v)
    ensures Canon(v) == v && InOrder(v)
  {
    hide InOrder;
    ParseGives(b, NESTING_LIMIT);
    DecodeEncode(v);
    CanonInOrder(v);
  }

  /** No encoding is a proper prefix of another value's, and equal encodings mean equal
      values up to the order of members. */
  lemma PrefixFree(v: Value, w: Value, x: Text, y: Text)
    requires IsValue(v) && Encodable(v) && IsValue(w) && Encodable(w)
    requires |Enc(v)| < TWO_64 && |Enc(w)| < TWO_64 && Enc(v) + x == Enc(w) + y
    ensures Canon(v) == Canon(w) && Enc(v) == Enc(w) && x == y
  {
    RoundTrip(v);
    RoundTrip(w);
    var room := if Depth(v) > Depth(w) then Depth(v) else Depth(w);
    assert Parse(Enc(v) + x, room) == Some((Canon(v), x));
    assert Parse(Enc(w) + y, room) == Some((Canon(w), y));
    EncCanon(v);
    EncCanon(w);
  }

  /** Bytes of small values: one byte a constant, whole numbers zigzagged, a length before text,
      lists and objects, and members by the bytes of their keys. */
  lemma SampleBytes()
    ensures Enc(Null) == [0] && Enc(False) == [1] && Enc(True) == [2]
    ensures Enc(Num(Whole(1))) == [3, 2] && Enc(Num(Whole(-1))) == [3, 1]
    ensures Enc(List([True, Null])) == [7, 2, 2, 0]
    ensures Enc(Map([Member([98], Null), Member([97], Null)])) == [8, 2, 5, 1, 97, 0, 5, 1, 98, 0]
  {
    SampleList();
    SampleMap();
  }

  lemma SampleList()
    ensures Enc(List([True, Null])) == [7, 2, 2, 0]
  {
    var items := [True, Null];
    assert items[1..] == [Null] && items[1..][1..] == [];
    assert EncItems(items[1..]) == [0];
    assert EncItems(items) == [2, 0];
  }

  lemma SampleMap()
    ensures Enc(Map([Member([98], Null), Member([97], Null)])) == [8, 2, 5, 1, 97, 0, 5, 1, 98, 0]
  {
    hide Less;
    var b, a: Member<Text> := Member([98], [0]), Member([97], [0]);
    var pairs: seq<Member<Value>> := [Member([98], Null), Member([97], Null)];
    assert pairs[1..] == [Member([97], Null)] && pairs[1..][1..] == [];
    var es := EncPairs(pairs);
    assert es == [b, a] && es[1..] == [a];
    SampleKeys();
    SampleSort(b, a);
    var sorted: seq<Member<Text>> := [a, b];
    assert sorted[1..] == [b] && |sorted[1..][1..]| == 0;
    assert Flat(sorted[1..]) == [5, 1, 98, 0];
    assert Flat(sorted) == [5, 1, 97, 0, 5, 1, 98, 0];
  }

  lemma SampleKeys()
    ensures EncStr([97]) == [5, 1, 97] && EncStr([98]) == [5, 1, 98]
    ensures KeyLess([97], [98]) && !KeyLess([98], [97])
  {
    var x, y := EncStr([97]), EncStr([98]);
    assert x == [5, 1, 97] && y == [5, 1, 98];
    assert PartsAt(x, y, 2);
    LessMeans(x, y);
    LessAsymmetric(x, y);
  }

  lemma SampleSort(b: Member<Text>, a: Member<Text>)
    requires KeyLess(a.key, b.key) && !KeyLess(b.key, a.key)
    ensures SortPairs([b, a]) == [a, b]
  {
    hide KeyLess;
    var ps: seq<Member<Text>> := [b, a];
    assert ps[1..] == [a] && |ps[1..][1..]| == 0;
    assert SortPairs(ps[1..]) == [a];
    assert |[a][1..]| == 0;
    assert InsertPair(b, [a]) == [a, b];
  }

  /** Bytes the encoder never writes for a value are decoded all the same, and are not canonical: a
      set, which reads as a list, and a whole number with a group to spare. A value with bytes
      left over is refused. */
  lemma SampleDecodes()
    ensures Decode([9, 1, 0]) == Some(List([Null])) && !IsCanonical([9, 1, 0])
    ensures Decode([3, 130, 0]) == Some(Num(Whole(1))) && !IsCanonical([3, 130, 0])
    ensures Decode([0, 0]) == None
  {
    SampleSet();
    SampleSpare();
    var two: Text := [0, 0];
    assert two[1..] == [0];
  }

  lemma SampleSet()
    ensures Decode([9, 1, 0]) == Some(List([Null])) && !IsCanonical([9, 1, 0])
  {
    var b: Text := [9, 1, 0];
    assert b[1..] == [1, 0] && b[1..][1..] == [0] && b[1..][1..][1..] == [];
    assert Varint(b[1..], 0) == Some((1, [0]));
    assert Parse([0], NESTING_LIMIT - 1) == Some((Null, []));
    assert ParseItems([], 0, NESTING_LIMIT - 1) == Some(([], []));
    var none: seq<Value> := [];
    assert [Null] + none == [Null];
    assert ParseItems([0], 1, NESTING_LIMIT - 1) == Some(([Null], []));
    assert Parse(b, NESTING_LIMIT) == Some((List([Null]), []));
    assert Enc(List([Null]))[0] == 7;
  }

  lemma SampleSpare()
    ensures Decode([3, 130, 0]) == Some(Num(Whole(1))) && !IsCanonical([3, 130, 0])
  {
    var b: Text := [3, 130, 0];
    var g: Text := [130, 0];
    assert b[1..] == g && g[1..] == [0] && g[1..][1..] == [];
    assert Varint([0], 1) == Some((0, []));
    assert Varint(g, 0) == Some((2, []));
    assert Parse(b, NESTING_LIMIT) == Some((Num(Whole(1)), []));
    assert |Enc(Num(Whole(1)))| == 2;
  }
}
