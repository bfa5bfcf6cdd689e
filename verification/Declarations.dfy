/** A glyph declared twice: what its policy shows and what flattening shows can differ. */
module Declarations {
  import opened Bytes
  import opened Codec
  import CodecLaws
  import opened Docs
  import opened Edits
  import Lens
  import opened OrSets
  import opened Policies
  import opened Samples
  import opened Tags
  import Utf8
  import Validity

  const GLYPH: Thing := Glyph([103])

  /** The empty declaration, and one with a member. */
  const EMPTY: Text := [8, 0]
  const OTHER: Text := [8, 1, 5, 1, 97, 0]

  const DECLARED: OrSet<Text> := OrSet(map[Mint(FIRST, 2) := EMPTY, Mint(SECOND, 3) := OTHER], {})

  const TWICE: Doc := map[
    Place(GLYPH, Present) := OrSet(map[Mint(FIRST, 1) := []], {}),
    Place(GLYPH, Register(Descriptor)) := DECLARED]

  const STATE: State := map[GLYPH := Showing(map[Descriptor := OTHER], {}, {})]

  lemma EmptyIsCanonical()
    ensures IsCanonical(EMPTY)
  {
    var v := Map([]);
    SmallUvarint(0);
    assert Enc(v) == EMPTY;
    CodecLaws.CanonicalIffWritten(EMPTY);
    assert IsValue(v) && Encodable(v) && Depth(v) <= NESTING_LIMIT;
  }

  lemma OtherIsCanonical()
    ensures IsCanonical(OTHER)
  {
    hide IsCanonical, Utf8.IsUtf8;
    var pairs := [Member([97], Null)];
    var v := Map(pairs);
    SmallUvarint(1);
    AsciiIsUtf8([97]);
    assert pairs[1..] == [];
    assert EncPairs(pairs) == [Member([97], [NULL])];
    OneMember(Member([97], [NULL]));
    assert Enc(v) == OTHER;
    assert DepthPairs(pairs) == 1;
    assert IsValue(v) && Encodable(v) && Depth(v) <= NESTING_LIMIT;
    CodecLaws.CanonicalIffWritten(OTHER);
  }

  lemma OneMember(p: Member<Text>)
    ensures SortPairs([p]) == [p] && Codec.Flat([p]) == EncStr(p.key) + p.value
  {
    assert [p][1..] == [];
  }

  lemma DeclarationsRise()
    ensures Less(EMPTY, OTHER)
  {
    assert EMPTY[1..] == [0] && OTHER[1..] == [1, 5, 1, 97, 0];
    assert Less(EMPTY[1..], OTHER[1..]);
  }

  lemma TwiceIsValid()
    ensures Validate(TWICE)
  {
    hide IsCanonical, Mint;
    MintsApart(1, 1);
    MintsApart(2, 3);
    EmptyIsCanonical();
    OtherIsCanonical();
  }

  /** With the declaration's register read by Latest, a conflicted glyph can show one
      declaration and flatten to another: observing the shown one then writes nothing. Document
      and state are ones the library accepts and can hold. */
  lemma LatestHidesDeclaration(r: Reading)
    requires r.join(Descriptor) == Latest && forall v :: r.strip(v) == v
    ensures Validate(TWICE) && WellFormed(STATE) && Validity.Canonical(STATE, r) && !Lens.PlainlyRead(TWICE, STATE, r)
  {
    hide Shown, Values, Least, IsCanonical, Mint;
    TwiceIsValid();
    OtherIsCanonical();
    MintsApart(2, 3);
    LaterOfTwo(2, 3);
    DeclarationsRise();
    Lens.TwoNames(DECLARED, Mint(FIRST, 2), Mint(SECOND, 3), EMPTY, OTHER, r.number);
    assert At(TWICE, Place(GLYPH, Register(Descriptor))) == DECLARED;
    assert !Lens.GlyphPlain(TWICE, r, GLYPH, OTHER);
    assert GLYPH in STATE && r.strip(STATE[GLYPH].fields[Descriptor]) == OTHER;
    assert Named(GLYPH) && !Optional(GLYPH, Descriptor);
  }
}
