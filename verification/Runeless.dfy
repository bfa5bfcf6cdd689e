/** A mantle without runes, observed and sent: two documents in sync with different bytes.

    What the observation stores has no `runes`; what the export writes always has, so the device
    that takes it in holds an empty map the first does not. */
module Runeless {
  import opened Bytes
  import opened Codec
  import opened Docs
  import opened Edits
  import opened Options
  import opened OrSets
  import opened PlaceNames
  import opened Samples
  import Spelling
  import opened Tags
  import opened TreeDocs
  import opened TreeForms
  import opened Trees

  const BARE: Thing := Mantle([109])

  /** The three sets `observe` makes of a mantle `m` that has no id, no domain and no runes. */
  const PRESENCE: OrSet<Text> := OrSet(map[Mint(FIRST, 1) := ONE], {})
  const ID: OrSet<Text> := OrSet(map[Mint(FIRST, 2) := NOTHING], {})
  const DOMAIN: OrSet<Text> := OrSet(map[Mint(FIRST, 3) := NOTHING], {})

  const OBSERVED: Doc := map[
    Place(BARE, Present) := PRESENCE,
    Place(BARE, Register(Id)) := ID,
    Place(BARE, Register(Domain)) := DOMAIN]

  const FIELDS: Tree := Object(map[Chars("id") := WriteSet(ID), Chars("domain") := WriteSet(DOMAIN)])
  const MANTLE: Tree := Object(map[Chars("present") := WriteSet(PRESENCE), Chars("fields") := FIELDS])
  const MANTLES: Tree := Object(map[[109] := MANTLE])

  /** The tree it is stored as: nothing creates `runes`. */
  const STORED: Tree := Object(map[Chars("palabra") := SHAPE, Chars("mantles") := MANTLES])

  lemma NullIsCanonical()
    ensures IsCanonical(NOTHING)
  {
    assert NOTHING[1..] == [];
    assert Decode(NOTHING) == Some(Null);
  }

  lemma WrittenIsGood(s: OrSet<Text>, canonical: bool)
    requires Tagged(s) && (canonical ==> forall t :: t in s.adds ==> IsCanonical(s.adds[t]))
    ensures GoodSet(WriteSet(s), canonical) && ReadSet(WriteSet(s)) == s
  {
    hide IsCanonical;
    ReadWrite(s);
    WriteIsGood(s);
  }

  lemma SetsAreGood()
    ensures GoodSet(WriteSet(PRESENCE), false) && ReadSet(WriteSet(PRESENCE)) == PRESENCE
    ensures GoodSet(WriteSet(ID), true) && ReadSet(WriteSet(ID)) == ID
    ensures GoodSet(WriteSet(DOMAIN), true) && ReadSet(WriteSet(DOMAIN)) == DOMAIN
  {
    hide GoodSet, IsCanonical, Mint;
    MintsApart(1, 1);
    MintsApart(2, 2);
    MintsApart(3, 3);
    NullIsCanonical();
    WrittenIsGood(PRESENCE, false);
    WrittenIsGood(ID, true);
    WrittenIsGood(DOMAIN, true);
  }

  lemma FieldsAre()
    ensures Chars("id") != Chars("domain") && FieldsOk(FIELDS, false)
  {
    hide GoodSet, WriteSet, Chars;
    SetsAreGood();
    Lengths();
    assert FieldText(Id) == Chars("id") && OfMantle(Id);
    assert FieldText(Domain) == Chars("domain") && OfMantle(Domain);
  }

  lemma Lengths()
    ensures |Chars("id")| == 2 && |Chars("domain")| == 6
  {
  }

  lemma TwoMembers(present: Tree, fields: Tree)
    requires GoodSet(present, false) && FieldsOk(fields, false)
    ensures MantleOk(Object(map[Chars("present") := present, Chars("fields") := fields]))
  {
    hide GoodSet, FieldsOk, Chars;
    KeysDiffer();
    assert MantleMember(Chars("present"), present) && MantleMember(Chars("fields"), fields);
  }

  lemma OneMantle(name: Text, t: Tree)
    requires MantleOk(t) && name != []
    ensures MantlesOk(Object(map[name := t]))
    ensures ValidTree(Object(map[Chars("palabra") := SHAPE, Chars("mantles") := Object(map[name := t])]))
  {
    hide MantleOk, Chars;
    KeysDiffer();
    var ms := Object(map[name := t]);
    assert RootMember(Chars("palabra"), SHAPE) && RootMember(Chars("mantles"), ms);
  }

  lemma StoredIsGood()
    ensures ValidTree(STORED) && MantlesOk(MANTLES) && MantleOk(MANTLE)
  {
    hide GoodSet, FieldsOk, Chars, WriteSet, MantleOk, MantlesOk, ValidTree, Mint;
    SetsAreGood();
    FieldsAre();
    TwoMembers(WriteSet(PRESENCE), FIELDS);
    OneMantle([109], MANTLE);
  }

  lemma Follow(t: Tree, k: Text, path: seq<Text>)
    ensures NodeAt(t, [k] + path) == if t.Object? && k in t.kids then NodeAt(t.kids[k], path) else None
  {
    assert ([k] + path)[1..] == path && ([k] + path)[0] == k;
  }

  lemma StoresBare(p: Place)
    requires PlaceAllowed(p) && p.thing == BARE
    ensures NodeAt(MANTLE, SlotKeys(p.slot)) ==
      if p.slot == Present then Some(WriteSet(PRESENCE))
      else if p.slot == Register(Id) then Some(WriteSet(ID))
      else if p.slot == Register(Domain) then Some(WriteSet(DOMAIN)) else None
  {
    hide Chars, WriteSet, FieldText;
    KeysDiffer();
    var k, rest := SlotKeys(p.slot)[0], SlotKeys(p.slot)[1..];
    assert SlotKeys(p.slot) == [k] + rest;
    Follow(MANTLE, k, rest);
    if p.slot.Register? {
      assert rest == [FieldText(p.slot.field)] + [];
      Follow(FIELDS, FieldText(p.slot.field), []);
      FieldIs(p.slot.field);
    }
  }

  lemma FieldIs(f: Field)
    ensures Chars("id") != Chars("domain")
    ensures FieldText(f) == Chars("id") <==> f == Id
    ensures FieldText(f) == Chars("domain") <==> f == Domain
  {
    hide Chars;
    Lengths();
    assert FieldText(Id) == Chars("id") && FieldText(Domain) == Chars("domain");
    if FieldText(f) == Chars("id") { Spelling.FieldsApart(f, Id); }
    if FieldText(f) == Chars("domain") { Spelling.FieldsApart(f, Domain); }
  }

  /** Where a path that starts at a mantle's name leads. */
  lemma UnderName(name: Text, below: seq<Text>)
    ensures NodeAt(STORED, [Chars("mantles"), name] + below) == if name == [109] then NodeAt(MANTLE, below) else None
  {
    hide NodeAt, Chars, WriteSet;
    KeysDiffer();
    Follow(STORED, Chars("mantles"), [name] + below);
    Follow(MANTLES, name, below);
    assert [Chars("mantles"), name] + below == [Chars("mantles")] + ([name] + below);
  }

  lemma NoGlyphs(rest: seq<Text>)
    ensures NodeAt(STORED, [Chars("glyphs")] + rest) == None
  {
    hide NodeAt, Chars, WriteSet;
    KeysDiffer();
    Follow(STORED, Chars("glyphs"), rest);
  }

  lemma NoRunesHere(rest: seq<Text>)
    ensures NodeAt(MANTLE, [Chars("runes")] + rest) == None
  {
    hide NodeAt, Chars, WriteSet;
    KeysDiffer();
    Follow(MANTLE, Chars("runes"), rest);
  }

  lemma ObservedAt(p: Place)
    ensures p in OBSERVED <==>
      p.thing == BARE && (p.slot == Present || p.slot == Register(Id) || p.slot == Register(Domain))
    ensures OBSERVED[Place(BARE, Present)] == PRESENCE
    ensures OBSERVED[Place(BARE, Register(Id))] == ID && OBSERVED[Place(BARE, Register(Domain))] == DOMAIN
  {
    hide Mint;
  }

  lemma StoredAtPlace(p: Place)
    requires PlaceAllowed(p)
    ensures StoresAt(STORED, OBSERVED, p)
  {
    hide Chars, WriteSet, ReadSet, SlotKeys, NodeAt, IsSet, PlaceAllowed, Mint, GoodSet;
    SetsAreGood();
    SetsAreSets();
    ObservedAt(p);
    match p.thing {
      case Mantle(name) =>
        UnderName(name, SlotKeys(p.slot));
        assert PathOf(p) == [Chars("mantles"), name] + SlotKeys(p.slot);
        if name == [109] { StoresBare(p); }
      case Rune(name, id) =>
        var rest := [id] + SlotKeys(p.slot);
        UnderName(name, [Chars("runes")] + rest);
        NoRunesHere(rest);
        assert PathOf(p) == [Chars("mantles"), name] + ([Chars("runes")] + rest);
      case Glyph(name) =>
        NoGlyphs([name] + SlotKeys(p.slot));
        assert PathOf(p) == [Chars("glyphs")] + ([name] + SlotKeys(p.slot));
    }
  }

  lemma SetsAreSets()
    ensures IsSet(WriteSet(PRESENCE)) && IsSet(WriteSet(ID)) && IsSet(WriteSet(DOMAIN))
  {
  }

  lemma StoredStores()
    ensures Stores(STORED, OBSERVED)
  {
    hide PlaceAllowed, StoresAt;
    assert PlaceAllowed(Place(BARE, Present)) && PlaceAllowed(Place(BARE, Register(Id)))
      && PlaceAllowed(Place(BARE, Register(Domain))) by { BareAllowed(); }
    forall p | PlaceAllowed(p) ensures StoresAt(STORED, OBSERVED, p) { StoredAtPlace(p); }
  }

  lemma BareAllowed()
    ensures PlaceAllowed(Place(BARE, Present)) && PlaceAllowed(Place(BARE, Register(Id)))
    ensures PlaceAllowed(Place(BARE, Register(Domain)))
  {
  }

  lemma NoRunes()
    ensures !RunesEverywhere(STORED)
  {
    hide WriteSet, Chars, GoodSet;
    KeysDiffer();
    SetsAreGood();
    var ms, m, rs := Chars("mantles"), [109], Chars("runes");
    StoredIsGood();
    RootIsMap(STORED);
    FieldsAre();
    MantleFacts();
    KidAt(STORED, ms, [m]);
    KidAt(MANTLES, m, []);
    assert [m] + [] == [m] && [ms] + [m] == [ms, m];
    assert MapAt(STORED, [ms, m]);
    KidAt(STORED, ms, [m, rs]);
    KidAt(MANTLES, m, [rs]);
    KidAt(MANTLE, rs, []);
    assert [m] + [rs] == [m, rs] && [ms] + [m, rs] == [ms, m, rs];
    assert !MapAt(STORED, [ms, m, rs]);
  }

  lemma MantleFacts()
    ensures Rank(MANTLES) == 3 && Rank(MANTLE) == 3 && KindOf(MANTLE) == AMap
  {
    hide MantleOk, MantlesOk, Chars, WriteSet, IsSet;
    StoredIsGood();
    MantleIsMap(MANTLE);
    MantlesAreMaps(MANTLES);
    MapKind(MANTLE);
  }

  /** A device observes a mantle without runes and shares everything; another, new, takes its
      export in. Both trees are valid and store the one document, their exports have one canonical
      form, so both sessions are in sync, and the two documents have two. */
  lemma InSyncButNotTheSame(shown: Tree -> Text)
    ensures ValidTree(STORED) && Stores(STORED, OBSERVED)
    ensures var u := JoinNode(NEW_ROOT, ExportAll(STORED), shown);
      && ValidTree(u) && u.Object? && Stores(u, OBSERVED)
      && Norm(ExportAll(u)) == Norm(ExportAll(STORED)) && Norm(u) != Norm(STORED)
  {
    hide ValidTree, Stores, Norm, ExportAll, JoinNode, RunesEverywhere;
    StoredIsGood();
    StoredStores();
    NoRunes();
    FirstMerge(STORED, OBSERVED, shown);
  }
}
