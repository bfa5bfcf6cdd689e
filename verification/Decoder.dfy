/** The decoder as it runs: one cursor over the bytes, moved by every read. */
module Decoders {
  import opened Bytes
  import opened Codec
  import Numbers
  import opened Options

  /** The cursor `j` stands where the parse of the rest left off. */
  ghost predicate Agrees<V>(parsed: Option<(V, Text)>, v: Option<V>, b: Text, j: nat)
  {
    match parsed
    case None => v == None
    case Some(r) => v == Some(r.0) && j <= |b| && b[j..] == r.1
  }

  /** Elements already read, before those still to come. */
  ghost function After<V>(done: seq<V>, rest: Option<(seq<V>, Text)>): Option<(seq<V>, Text)>
  {
    match rest
    case None => None
    case Some(r) => Some((done + r.0, r.1))
  }

  lemma NoneDone<V>(rest: Option<(seq<V>, Text)>)
    ensures After([], rest) == rest
  {
    if rest.Some? { assert [] + rest.value.0 == rest.value.0; }
  }

  lemma ItemDone(done: seq<Value>, s: Text, n: nat, room: int)
    requires n > 0
    ensures After(done, ParseItems(s, n, room)) ==
      match Parse(s, room)
      case None => None
      case Some(x) => After(done + [x.0], ParseItems(x.1, n - 1, room))
  {
    hide Parse;
    if Parse(s, room).Some? {
      var x := Parse(s, room).value;
      var rest := ParseItems(x.1, n - 1, room);
      if rest.Some? { assert done + ([x.0] + rest.value.0) == (done + [x.0]) + rest.value.0; }
    }
  }

  lemma PairDone(done: seq<Member<Value>>, s: Text, n: nat, room: int)
    requires n > 0
    ensures After(done, ParsePairs(s, n, room)) ==
      match Parse(s, room)
      case None => None
      case Some(k) =>
        if !k.0.Str? then None else
          match Parse(k.1, room)
          case None => None
          case Some(x) => After(done + [Member(k.0.text, x.0)], ParsePairs(x.1, n - 1, room))
  {
    hide Parse;
    if Parse(s, room).Some? && Parse(s, room).value.0.Str? {
      var k := Parse(s, room).value;
      if Parse(k.1, room).Some? {
        var x := Parse(k.1, room).value;
        var rest := ParsePairs(x.1, n - 1, room);
        var m := Member(k.0.text, x.0);
        if rest.Some? { assert done + ([m] + rest.value.0) == (done + [m]) + rest.value.0; }
      }
    }
  }

  lemma AllDone<V>(done: seq<V>, s: Text)
    ensures After(done, Some(([], s))) == Some((done, s))
  {
    assert done + [] == done;
  }

  /** The bits of a double, as eight bytes. */
  method ReadBits(b: Text, i: nat) returns (bits: nat)
    requires i + 8 <= |b|
    ensures bits == FromBigEndian(b[i..i + 8])
  {
    bits := 0;
    for k := 0 to 8
      invariant bits == FromBigEndian(b[i..i + k])
    {
      assert b[i..i + k + 1][..k] == b[i..i + k];
      bits := bits * 256 + b[i + k];
    }
  }

  /** `decode_at`: a value at the cursor, at the given depth of nesting. */
  method DecodeAt(b: Text, i: nat, depth: nat) returns (v: Option<Value>, j: nat)
    requires i <= |b|
    ensures Agrees(Parse(b[i..], NESTING_LIMIT - depth), v, b, j)
    decreases NESTING_LIMIT + 1 - depth, 1
  {
    j := i;
    if depth > NESTING_LIMIT || i >= |b| { return None, j; }
    var tag := b[i];
    j := i + 1;
    ghost var s := b[i..];
    assert s[0] == tag && s[1..] == b[j..];
    if tag == NULL { return Some(Null), j; }
    if tag == FALSE { return Some(False), j; }
    if tag == TRUE { return Some(True), j; }
    if tag == FLOAT {
      if |b| - j < 8 { return None, j; }
      var bits := ReadBits(b, j);
      assert s[1..9] == b[j..j + 8] && s[9..] == b[j + 8..];
      return Some(Num(Numbers.FromBits(bits))), j + 8;
    }
    if !(tag in {INT, STR, SEQ, SET, MAP}) { return None, j; }
    var n: Option<nat>;
    n, j := ReadVarint(b, j);
    if n == None { return None, j; }
    v, j := DecodeBody(b, tag, n.value, j, depth);
  }

  method DecodeBody(b: Text, tag: byte, n: nat, i: nat, depth: nat) returns (v: Option<Value>, j: nat)
    requires i <= |b| && depth <= NESTING_LIMIT && tag in {INT, STR, SEQ, SET, MAP}
    ensures Agrees(ParseBody(tag, n, b[i..], NESTING_LIMIT - depth), v, b, j)
    decreases NESTING_LIMIT + 1 - depth, 0
  {
    hide Parse, ParseItems, ParsePairs;
    j := i;
    if tag == INT {
      return Some(Num(Numbers.FromInt(Unzigzag(n)))), j;
    } else if tag == STR {
      if n > |b| - j { return None, j; }
      assert b[i..][..n] == b[i..i + n] && b[i..][n..] == b[i + n..];
      return Some(Str(CString(b[j..j + n]))), j + n;
    } else if tag == MAP {
      if n > (|b| - j) / 2 { return None, j; }
      var pairs;
      pairs, j := DecodePairs(b, n, i, depth + 1);
      if pairs == None { return None, j; }
      return Some(Map(pairs.value)), j;
    } else {
      if n > |b| - j { return None, j; }
      var items;
      items, j := DecodeItems(b, n, i, depth + 1);
      if items == None { return None, j; }
      return Some(List(items.value)), j;
    }
  }

  method DecodeItems(b: Text, n: nat, i: nat, depth: nat) returns (items: Option<seq<Value>>, j: nat)
    requires i <= |b| && depth <= NESTING_LIMIT + 1
    ensures Agrees(ParseItems(b[i..], n, NESTING_LIMIT - depth), items, b, j)
    decreases NESTING_LIMIT + 1 - depth, 2
  {
    hide Parse, ParseItems;
    ghost var room := NESTING_LIMIT - depth;
    var done: seq<Value> := [];
    j := i;
    NoneDone(ParseItems(b[i..], n, room));
    for k := 0 to n
      invariant j <= |b|
      invariant ParseItems(b[i..], n, room) == After(done, ParseItems(b[j..], n - k, room))
    {
      ItemDone(done, b[j..], n - k, room);
      var item;
      item, j := DecodeAt(b, j, depth);
      if item == None { return None, j; }
      done := done + [item.value];
    }
    EmptyItems(b[j..], room);
    AllDone(done, b[j..]);
    return Some(done), j;
  }

  lemma EmptyItems(s: Text, room: int)
    ensures ParseItems(s, 0, room) == Some(([], s)) && ParsePairs(s, 0, room) == Some(([], s))
  {
  }

  method DecodePairs(b: Text, n: nat, i: nat, depth: nat) returns (pairs: Option<seq<Member<Value>>>, j: nat)
    requires i <= |b| && depth <= NESTING_LIMIT + 1
    ensures Agrees(ParsePairs(b[i..], n, NESTING_LIMIT - depth), pairs, b, j)
    decreases NESTING_LIMIT + 1 - depth, 2
  {
    hide Parse, ParsePairs;
    ghost var room := NESTING_LIMIT - depth;
    var done: seq<Member<Value>> := [];
    j := i;
    NoneDone(ParsePairs(b[i..], n, room));
    for k := 0 to n
      invariant j <= |b|
      invariant ParsePairs(b[i..], n, room) == After(done, ParsePairs(b[j..], n - k, room))
    {
      PairDone(done, b[j..], n - k, room);
      var key, value;
      key, j := DecodeAt(b, j, depth);
      if key == None || !key.value.Str? { return None, j; }
      value, j := DecodeAt(b, j, depth);
      if value == None { return None, j; }
      done := done + [Member(key.value.text, value.value)];
    }
    EmptyItems(b[j..], room);
    AllDone(done, b[j..]);
    return Some(done), j;
  }

  /** `decode`. */
  method DecodeBytes(b: Text) returns (v: Option<Value>)
    ensures v == Decode(b)
  {
    hide Parse;
    var j;
    v, j := DecodeAt(b, 0, 0);
    assert b[0..] == b;
    if v != None && j != |b| { v := None; }
  }
}
