/** A document in which only the name a withheld rune shows is kept back. */
module Withheld {
  import opened Bytes
  import opened Codec
  import opened CodecLaws
  import opened Docs
  import opened Edits
  import opened Exports
  import Lens
  import Numbers
  import opened Options
  import opened OrSets
  import PlaceNames
  import opened Policies
  import opened Samples
  import opened Tags
  import Utf8

  const OWN: Thing := Mantle([109])
  const HIDDEN: Thing := Rune([109], [114])

  /** The names `a` and `b` as the rune's register holds them. */
  const NAME_A: Text := Enc(Str([97]))
  const NAME_B: Text := Enc(Str([98]))

  /** An edge from the rune named `b` to itself. */
  const LOOP: Value := Map([Member(PlaceNames.Chars("to"), Str([98])), Member(PlaceNames.Chars("from"), Str([98]))])

  const NAMES: OrSet<Text> := OrSet(map[Mint(FIRST, 4) := NAME_A, Mint(SECOND, 5) := NAME_B], {})
  const EDGES: OrSet<Text> := OrSet(map[Mint(FIRST, 2) := Enc(LOOP)], {})

  /** A shared mantle with one edge, and in it a rune two devices named at once. */
  const TWO_NAMED: Doc := map[
    Place(OWN, Present) := OrSet(map[Mint(FIRST, 1) := ONE], {}),
    Place(OWN, EdgeSet) := EDGES,
    Place(HIDDEN, Present) := OrSet(map[Mint(FIRST, 3) := ONE], {}),
    Place(HIDDEN, Register(SpiritName)) := NAMES]

  // ---------------------------------------------------------------------------
  // What its bytes say
  // ---------------------------------------------------------------------------

  lemma KeysRise()
    ensures KeyLess(PlaceNames.Chars("to"), PlaceNames.Chars("from"))
  {
    var a, b := PlaceNames.Chars("to"), PlaceNames.Chars("from");
    SmallUvarint(2);
    SmallUvarint(4);
    assert EncStr(a)[0] == STR && EncStr(b)[0] == STR;
    assert EncStr(a)[1..] == [2] + a && EncStr(b)[1..] == [4] + b;
    assert Less(EncStr(a)[1..], EncStr(b)[1..]);
  }

  lemma LoopIsValue()
    ensures IsValue(LOOP) && Encodable(LOOP) && Depth(LOOP) <= NESTING_LIMIT && Canon(LOOP) == LOOP
    ensures |Enc(LOOP)| < Numbers.TWO_64
  {
    hide KeyLess, IsValue, Encodable, Enc, PlaceNames.Chars, SortPairs, CanonPairs;
    var ps := LOOP.pairs;
    KeysRise();
    LoopFits(ps);
    LoopDepth(ps);
    LoopSorted(ps);
    LoopLength(ps);
  }

  lemma LoopFits(ps: seq<Member<Value>>)
    requires ps == LOOP.pairs
    ensures IsValue(Map(ps)) && Encodable(Map(ps))
  {
    hide Utf8.IsUtf8;
    assert |PlaceNames.Chars("to")| == 2 && |PlaceNames.Chars("from")| == 4 by { Letters(); }
    AsciiIsUtf8(ps[0].key);
    AsciiIsUtf8(ps[1].key);
    AsciiIsUtf8([98]);
  }

  lemma LoopDepth(ps: seq<Member<Value>>)
    requires |ps| == 2 && ps[0].value.Str? && ps[1].value.Str?
    ensures DepthPairs(ps) == 1
  {
    assert DepthPairs(ps[2..]) == 0 && ps[1..][1..] == ps[2..];
    assert DepthPairs(ps[1..]) == 1;
  }

  lemma LoopSorted(ps: seq<Member<Value>>)
    requires |ps| == 2 && ps[0].value.Str? && ps[1].value.Str? && KeyLess(ps[0].key, ps[1].key)
    ensures SortPairs(CanonPairs(ps)) == ps && SortPairs(EncPairs(ps)) == EncPairs(ps)
  {
    hide KeyLess, SortPairs;
    assert CanonPairs(ps) == ps;
    SortSorted(ps);
    SortSorted(EncPairs(ps));
  }

  lemma LoopLength(ps: seq<Member<Value>>)
    requires ps == LOOP.pairs && SortPairs(EncPairs(ps)) == EncPairs(ps)
    ensures |Enc(LOOP)| < Numbers.TWO_64
  {
    hide SortPairs, KeyLess, PlaceNames.Chars;
    var to, from := PlaceNames.Chars("to"), PlaceNames.Chars("from");
    assert |to| == 2 && |from| == 4 by { Letters(); }
    SmallUvarint(2);
    SmallUvarint(4);
    LetterBytes(98);
    var es: seq<Member<Text>> := EncPairs(ps);
    assert ps[1..] == [ps[1]] && |ps[1..][1..]| == 0;
    assert es == [Member(to, Enc(Str([98]))), Member(from, Enc(Str([98])))];
    var rest: seq<Member<Text>> := es[1..];
    assert rest == [es[1]] && |rest[1..]| == 0;
    assert |Codec.Flat(es[1..])| == |EncStr(from)| + 3;
    assert |Codec.Flat(es)| == |EncStr(to)| + 3 + |Codec.Flat(es[1..])|;
  }

  lemma Letters()
    ensures |PlaceNames.Chars("to")| == 2 && |PlaceNames.Chars("from")| == 4
  {
  }

  /** The edge decodes to itself, and both its ends give the name `b` in its own mantle. */
  lemma LoopBack()
    ensures IsCanonical(Enc(LOOP)) && Decode(Enc(LOOP)) == Some(LOOP)
    ensures EndsOf(Enc(LOOP), [109]) == [([109], [98]), ([109], [98])]
  {
    hide Enc, Decode, PlaceNames.Chars;
    LoopIsValue();
    DecodeEncode(LOOP);
    CanonicalIffWritten(Enc(LOOP));
    var to, from := PlaceNames.Chars("to"), PlaceNames.Chars("from");
    assert to != from by { Letters(); }
    var ps := LOOP.pairs;
    assert ps[1..] == [Member(from, Str([98]))];
    assert Lookup(ps, to) == Some(Str([98])) && Lookup(ps, from) == Some(Str([98]));
  }

  // ---------------------------------------------------------------------------
  // What leaves
  // ---------------------------------------------------------------------------

  lemma NamesAre(number: Text -> Option<real>)
    ensures Values(NAMES) == {NAME_A, NAME_B}
    ensures Shown(NAMES, Conflict, number) == Some(NAME_A) && Shown(NAMES, Latest, number) == Some(NAME_B)
    ensures NameIn(Some(NAME_A)) == [97] && NameIn(Some(NAME_B)) == [98]
  {
    hide Shown, Values, Enc, NameIn, Less, Mint, StampOf;
    LetterBack(97);
    LetterBack(98);
    LetterBytes(97);
    LetterBytes(98);
    assert Less(NAME_A, NAME_B) by { LettersRise(); }
    MintsApart(4, 5);
    LaterOfTwo(4, 5);
    Lens.TwoNames(NAMES, Mint(FIRST, 4), Mint(SECOND, 5), NAME_A, NAME_B, number);
    ShownLeast(NAMES, Conflict, number);
  }

  lemma LettersRise()
    ensures Less([STR, 1, 97], [STR, 1, 98])
  {
    var x, y: Text := [STR, 1, 97], [STR, 1, 98];
    assert x[1..] == [1, 97] && y[1..] == [1, 98];
    assert x[1..][1..] == [97] && y[1..][1..] == [98];
    assert Less(x[1..][1..], y[1..][1..]) && Less(x[1..], y[1..]);
  }

  lemma PresentAllowed(thing: Thing, s: OrSet<Text>)
    requires [] !in s.adds && s.removes == {}
    ensures SetAllowed(Place(thing, Present), s)
  {
  }

  lemma NamesAllowed()
    ensures SetAllowed(Place(HIDDEN, Register(SpiritName)), NAMES)
  {
    hide IsCanonical, Enc, Mint;
    MintsApart(4, 5);
    LetterBack(97);
    LetterBack(98);
  }

  lemma EdgesAllowed()
    ensures SetAllowed(Place(OWN, EdgeSet), EDGES)
  {
    hide IsCanonical, Enc, Mint;
    MintsApart(2, 2);
    LoopBack();
  }

  lemma TwoNamedIsValid()
    ensures Validate(TWO_NAMED)
  {
    hide SetAllowed, Mint;
    MintsApart(1, 1);
    MintsApart(3, 3);
    NamesAllowed();
    EdgesAllowed();
    PresentAllowed(OWN, OrSet(map[Mint(FIRST, 1) := ONE], {}));
    PresentAllowed(HIDDEN, OrSet(map[Mint(FIRST, 3) := ONE], {}));
  }

  /** The one withheld rune, and the one name it shows. */
  lemma OneHidden(share: ExportSet, r: Reading, name: Text)
    requires share(OWN) && !share(HIDDEN)
    requires NameShown(TWO_NAMED, r, HIDDEN) == name
    ensures forall x :: WithheldName(TWO_NAMED, share, r, [109], x) <==> x == name
    ensures !WithheldMantle(TWO_NAMED, share, [109])
  {
    hide NameShown;
    var p := Place(HIDDEN, Present);
    assert p in TWO_NAMED && Exists(TWO_NAMED, HIDDEN);
    forall id | Exists(TWO_NAMED, Rune([109], id)) ensures id == [114] {
      var q :| q in TWO_NAMED && q.thing == Rune([109], id);
    }
  }

  /** The edge leaves exactly when `b` is not the name shown. */
  lemma LoopLeaves(share: ExportSet, r: Reading, name: Text)
    requires share(OWN) && !share(HIDDEN) && NameShown(TWO_NAMED, r, HIDDEN) == name
    ensures Added(Export(TWO_NAMED, share, r), Place(OWN, EdgeSet), Mint(FIRST, 2), Enc(LOOP)) <==> name != [98]
  {
    hide NameShown, EndsOf, Enc, WithheldName, WithheldMantle;
    OneHidden(share, r, name);
    LoopBack();
    var p := Place(OWN, EdgeSet);
    assert p in TWO_NAMED && TWO_NAMED[p] == EDGES;
    assert Leaves(TWO_NAMED, share, p);
    var end: (Text, Text) := ([109], [98]);
    assert EndsOf(Enc(LOOP), [109])[0] == end;
    assert EndLeaks(TWO_NAMED, share, r, end) <==> name == [98];
    assert Leaks(TWO_NAMED, share, r, [109], Enc(LOOP)) <==> name == [98];
  }

  /** A withheld rune holds the name `b`, live, and the edge that gives it leaves all the same:
      what is shown is the other name. */
  lemma HeldNameEscapes(share: ExportSet, r: Reading)
    requires share(OWN) && !share(HIDDEN) && r.join(SpiritName) == Conflict
    ensures Validate(TWO_NAMED) && NAME_B in Values(At(TWO_NAMED, Place(HIDDEN, Register(SpiritName))))
    ensures EndsOf(Enc(LOOP), [109]) == [([109], NameIn(Some(NAME_B))), ([109], NameIn(Some(NAME_B)))]
    ensures Added(Export(TWO_NAMED, share, r), Place(OWN, EdgeSet), Mint(FIRST, 2), Enc(LOOP))
  {
    hide EndsOf, Enc, NameIn, Shown, Values;
    TwoNamedIsValid();
    LoopBack();
    NamesAre(r.number);
    assert At(TWO_NAMED, Place(HIDDEN, Register(SpiritName))) == NAMES;
    LoopLeaves(share, r, [97]);
  }

  /** Setting a policy can make an export stale: read by Latest the edge stays back, and read as
      a conflict it leaves, from the one document. */
  lemma PolicyMovesExport(share: ExportSet, lens: Reading, r: Reading)
    requires share(OWN) && !share(HIDDEN) && lens.join(SpiritName) == Latest && r.join(SpiritName) == Conflict
    ensures Validate(TWO_NAMED) && !Below(Export(TWO_NAMED, share, r), Export(TWO_NAMED, share, lens))
  {
    hide EndsOf, Enc, NameIn, Shown, Export;
    TwoNamedIsValid();
    NamesAre(r.number);
    NamesAre(lens.number);
    assert At(TWO_NAMED, Place(HIDDEN, Register(SpiritName))) == NAMES;
    LoopLeaves(share, r, [97]);
    LoopLeaves(share, lens, [98]);
  }
}
