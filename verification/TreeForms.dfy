/** When two stored trees of one document have one canonical form.

    A tree is what stands at the end of each path through its maps: a set, a leaf or a map. In a
    valid tree sets stand at places and the one leaf is the shape number, so trees of one
    document differ in nothing but their maps, and only where one of them is empty. Exports
    always write some of those. */
module TreeForms {
  import opened Bytes
  import opened Codec
  import opened Docs
  import opened Options
  import opened OrSets
  import opened PlaceNames
  import opened TreeDocs
  import opened Trees

  // ---------------------------------------------------------------------------
  // A tree path by path
  // ---------------------------------------------------------------------------

  /** What stands at the end of a path through maps. */
  datatype Kind = AMap | ASet(s: OrSet<Text>) | ALeaf(t: Tree)

  function KindOf(t: Tree): Kind
  {
    if IsSet(t) then ASet(ReadSet(t)) else if t.Object? then AMap else ALeaf(t)
  }

  function KindAt(t: Tree, path: seq<Text>): Option<Kind>
    decreases |path|
  {
    if path == [] then Some(KindOf(t))
    else if Rank(t) == 3 && path[0] in t.kids then KindAt(t.kids[path[0]], path[1..])
    else None
  }

  predicate MapAt(t: Tree, path: seq<Text>)
  {
    KindAt(t, path) == Some(AMap)
  }

  /** Trees have maps, empty or not, at the same paths. */
  ghost predicate SameMaps(a: Tree, b: Tree)
  {
    forall path :: MapAt(a, path) <==> MapAt(b, path)
  }

  lemma {:induction false} KindsAreMeaning(a: Tree, b: Tree)
    requires forall path :: KindAt(a, path) == KindAt(b, path)
    ensures Mean(a) == Mean(b)
  {
    hide ReadSet, IsSet;
    assert KindAt(a, []) == KindAt(b, []);
    if Rank(a) == 3 {
      forall k ensures (k in a.kids <==> k in b.kids) && (k in a.kids ==> Mean(a.kids[k]) == Mean(b.kids[k])) {
        KidKinds(a, b, k);
        if k in a.kids { KindsAreMeaning(a.kids[k], b.kids[k]); }
      }
      assert Mean(a).of == Mean(b).of;
    }
  }

  lemma KidKinds(a: Tree, b: Tree, k: Text)
    requires Rank(a) == 3 && Rank(b) == 3 && forall path :: KindAt(a, path) == KindAt(b, path)
    ensures k in a.kids <==> k in b.kids
    ensures k in a.kids ==> forall path :: KindAt(a.kids[k], path) == KindAt(b.kids[k], path)
  {
    hide IsSet, KindOf;
    KidAt(a, k, []);
    KidAt(b, k, []);
    assert KindAt(a, [k] + []) == KindAt(b, [k] + []);
    if k in a.kids {
      forall path ensures KindAt(a.kids[k], path) == KindAt(b.kids[k], path) {
        KidAt(a, k, path);
        KidAt(b, k, path);
        assert KindAt(a, [k] + path) == KindAt(b, [k] + path);
      }
    }
  }

  lemma KidAt(t: Tree, k: Text, path: seq<Text>)
    requires Rank(t) == 3
    ensures KindAt(t, [k] + path) == if k in t.kids then KindAt(t.kids[k], path) else None
    ensures KindAt(t, [k]) == if k in t.kids then Some(KindOf(t.kids[k])) else None
  {
    assert ([k] + path)[1..] == path && ([k] + path)[0] == k;
    assert [k][1..] == [];
  }

  lemma {:induction false} MeaningIsKinds(a: Tree, b: Tree, path: seq<Text>)
    requires Mean(a) == Mean(b)
    ensures KindAt(a, path) == KindAt(b, path)
    decreases |path|
  {
    hide ReadSet;
    if path != [] && Rank(a) == 3 {
      MeanOfMap(a);
      MeanOfMap(b);
      if path[0] in a.kids {
        assert Mean(a).of[path[0]] == Mean(b).of[path[0]];
        MeaningIsKinds(a.kids[path[0]], b.kids[path[0]], path[1..]);
      }
    }
  }

  // ---------------------------------------------------------------------------
  // What ends a path in a valid tree
  // ---------------------------------------------------------------------------

  /** A path that ends in a set is that of a place, and one that ends in a leaf is the shape
      number's. */
  ghost predicate Ends(t: Tree, path: seq<Text>)
  {
    match KindAt(t, path)
    case Some(ASet(_)) => exists p :: PlaceAllowed(p) && PathOf(p) == path
    case Some(ALeaf(u)) => path == [Chars("palabra")] && u == SHAPE
    case _ => true
  }

  predicate EndsInSet(t: Tree, path: seq<Text>)
  {
    KindAt(t, path).Some? && KindAt(t, path).value.ASet?
  }

  predicate GoesOn(t: Tree, path: seq<Text>)
  {
    KindAt(t, path).Some? && !KindAt(t, path).value.AMap?
  }

  lemma SetEnds(t: Tree, canonical: bool, path: seq<Text>)
    requires GoodSet(t, canonical) && GoesOn(t, path)
    ensures path == [] && EndsInSet(t, path)
  {
    hide ReadSet;
  }

  lemma FieldsEnd(t: Tree, rune: bool, path: seq<Text>) returns (f: Field)
    requires FieldsOk(t, rune) && GoesOn(t, path)
    ensures (if rune then OfRune(f) else OfMantle(f)) && path == [FieldText(f)] && EndsInSet(t, path)
  {
    hide GoodSet, FieldText, IsSet, KindOf;
    AllSets(t, rune);
    assert path != [] by { MapKind(t); }
    var k := path[0];
    assert NamesField(k, rune);
    f :| (if rune then OfRune(f) else OfMantle(f)) && k == FieldText(f);
    SetEnds(t.kids[k], true, path[1..]);
    assert path == [k] + path[1..];
  }

  lemma MapKind(t: Tree)
    requires Rank(t) == 3
    ensures KindOf(t) == AMap
  {
  }

  predicate RuneSlot(slot: Slot)
  {
    slot.Present? || slot.TagSet? || (slot.Register? && OfRune(slot.field))
  }

  lemma RuneEnds(t: Tree, path: seq<Text>) returns (slot: Slot)
    requires RuneOk(t) && GoesOn(t, path)
    ensures RuneSlot(slot) && path == SlotKeys(slot) && EndsInSet(t, path)
  {
    hide GoodSet, FieldsOk, FieldText, IsSet, KindOf, Chars, OfRune;
    RuneIsMap(t);
    assert path != [] by { MapKind(t); }
    var k, rest := path[0], path[1..];
    assert path == [k] + rest && RuneMember(k, t.kids[k]);
    if k == Chars("present") {
      SetEnds(t.kids[k], false, rest);
      slot := Present;
    } else if k == Chars("fields") {
      var f := FieldsEnd(t.kids[k], true, rest);
      slot := Register(f);
    } else {
      SetEnds(t.kids[k], true, rest);
      slot := TagSet;
    }
  }

  lemma MantleEnds(t: Tree, name: Text, path: seq<Text>) returns (p: Place)
    requires MantleOk(t) && GoesOn(t, path) && name != []
    ensures PlaceAllowed(p) && !p.thing.Glyph? && PathOf(p) == [Chars("mantles"), name] + path && EndsInSet(t, path)
  {
    hide GoodSet, FieldsOk, FieldText, IsSet, KindOf, Chars, OfMantle, OfRune, RuneOk;
    MantleIsMap(t);
    assert path != [] by { MapKind(t); }
    var k, rest := path[0], path[1..];
    assert path == [k] + rest && MantleMember(k, t.kids[k]);
    if k == Chars("present") {
      SetEnds(t.kids[k], false, rest);
      p := Place(Mantle(name), Present);
    } else if k == Chars("fields") {
      var f := FieldsEnd(t.kids[k], false, rest);
      p := Place(Mantle(name), Register(f));
    } else if k == Chars("runes") {
      var runes := t.kids[k];
      RunesAreMaps(runes);
      assert rest != [] by { MapKind(runes); }
      var id, tail := rest[0], rest[1..];
      assert rest == [id] + tail;
      var slot := RuneEnds(runes.kids[id], tail);
      p := Place(Rune(name, id), slot);
    } else {
      SetEnds(t.kids[k], true, rest);
      p := Place(Mantle(name), EdgeSet);
    }
  }

  lemma GlyphEnds(t: Tree, name: Text, path: seq<Text>) returns (p: Place)
    requires GlyphOk(t) && GoesOn(t, path) && name != []
    ensures PlaceAllowed(p) && p.thing.Glyph? && PathOf(p) == [Chars("glyphs"), name] + path && EndsInSet(t, path)
  {
    hide GoodSet, IsSet, KindOf, Chars;
    GlyphIsMap(t);
    assert path != [] by { MapKind(t); }
    var k, rest := path[0], path[1..];
    assert path == [k] + rest && GlyphMember(k, t.kids[k]);
    if k == Chars("present") {
      SetEnds(t.kids[k], false, rest);
      p := Place(Glyph(name), Present);
    } else {
      var fields := t.kids[k];
      GlyphFieldsAreMap(fields);
      assert GoesOn(fields, rest);
      assert rest != [] by { MapKind(fields); }
      assert rest == [rest[0]] + rest[1..] && DeclarationSet(fields.kids[rest[0]]);
      SetEnds(fields.kids[rest[0]], true, rest[1..]);
      p := Place(Glyph(name), Register(Descriptor));
    }
  }

  lemma ValidEnds(t: Tree, path: seq<Text>)
    requires ValidTree(t)
    ensures Ends(t, path)
  {
    hide MantleOk, GlyphOk, Chars, PathOf, PlaceAllowed, IsSet, KindOf;
    RootIsMap(t);
    MapKind(t);
    if path != [] && path[0] in t.kids && GoesOn(t, path) {
      var k, rest := path[0], path[1..];
      assert path == [k] + rest && RootMember(k, t.kids[k]);
      if k == Chars("palabra") {
        ShapeEnds(rest);
      } else if k == Chars("mantles") {
        UnderMantles(t.kids[k], rest);
      } else {
        UnderGlyphs(t.kids[k], rest);
      }
    }
  }

  lemma ShapeEnds(path: seq<Text>)
    ensures KindAt(SHAPE, path) == if path == [] then Some(ALeaf(SHAPE)) else None
  {
  }

  lemma UnderMantles(t: Tree, path: seq<Text>)
    requires MantlesOk(t) && GoesOn(t, path)
    ensures EndsInSet(t, path) && exists p :: PlaceAllowed(p) && PathOf(p) == [Chars("mantles")] + path
  {
    hide MantleOk, Chars, PathOf, PlaceAllowed, IsSet, KindOf;
    MantlesAreMaps(t);
    assert path != [] by { MapKind(t); }
    var name, rest := path[0], path[1..];
    var p := MantleEnds(t.kids[name], name, rest);
    assert [Chars("mantles")] + path == [Chars("mantles"), name] + rest;
  }

  lemma UnderGlyphs(t: Tree, path: seq<Text>)
    requires GlyphsOk(t) && GoesOn(t, path)
    ensures EndsInSet(t, path) && exists p :: PlaceAllowed(p) && PathOf(p) == [Chars("glyphs")] + path
  {
    hide GlyphOk, Chars, PathOf, PlaceAllowed, IsSet, KindOf;
    GlyphsAreMaps(t);
    assert path != [] by { MapKind(t); }
    var name, rest := path[0], path[1..];
    var p := GlyphEnds(t.kids[name], name, rest);
    assert [Chars("glyphs")] + path == [Chars("glyphs"), name] + rest;
  }

  // ---------------------------------------------------------------------------
  // One canonical form
  // ---------------------------------------------------------------------------

  /** Where only maps are on the way, following keys and looking for kinds agree. */
  lemma {:induction false} KindIsNode(t: Tree, path: seq<Text>)
    requires Walkable(t, path)
    ensures KindAt(t, path) == if NodeAt(t, path).Some? then Some(KindOf(NodeAt(t, path).value)) else None
    decreases |path|
  {
    hide IsSet, KindOf;
    if path != [] && path[0] in t.kids { KindIsNode(t.kids[path[0]], path[1..]); }
  }

  /** At a place, two trees of one document have the same set, or none. */
  lemma PlaceKinds(a: Tree, b: Tree, d: Doc, p: Place)
    requires ValidTree(a) && ValidTree(b) && Stores(a, d) && Stores(b, d) && PlaceAllowed(p)
    ensures KindAt(a, PathOf(p)) == KindAt(b, PathOf(p))
  {
    hide ValidTree, PathOf, PlaceAllowed, NodeAt, Walkable, GoodSet, DeclarationSet, ReadSet;
    PlaceFound(a, p);
    PlaceFound(b, p);
    KindIsNode(a, PathOf(p));
    KindIsNode(b, PathOf(p));
    assert StoresAt(a, d, p) && StoresAt(b, d, p);
  }

  lemma ShapeKind(t: Tree)
    requires ValidTree(t)
    ensures KindAt(t, [Chars("palabra")]) == Some(ALeaf(SHAPE))
  {
    hide Chars, MantlesOk, GlyphsOk;
    RootIsMap(t);
    KidAt(t, Chars("palabra"), []);
    assert RootMember(Chars("palabra"), t.kids[Chars("palabra")]);
  }

  /** Two valid trees of one document, with their maps at the same paths, have the same kinds
      everywhere. */
  lemma SameKind(a: Tree, b: Tree, d: Doc, path: seq<Text>)
    requires ValidTree(a) && ValidTree(b) && Stores(a, d) && Stores(b, d) && (MapAt(a, path) <==> MapAt(b, path))
    ensures KindAt(a, path) == KindAt(b, path)
  {
    hide ValidTree, PathOf, PlaceAllowed, Stores, KindAt, Chars;
    ValidEnds(a, path);
    ValidEnds(b, path);
    ShapeKind(a);
    ShapeKind(b);
    if !MapAt(a, path) {
      if EndsInSet(a, path) || EndsInSet(b, path) {
        var p :| PlaceAllowed(p) && PathOf(p) == path;
        PlaceKinds(a, b, d, p);
      }
    }
  }

  /** The canonical form tells two valid trees of one document apart exactly when one has a map,
      an empty one, where the other has none. */
  lemma OneFormIffSameMaps(a: Tree, b: Tree, d: Doc)
    requires ValidTree(a) && ValidTree(b) && Stores(a, d) && Stores(b, d)
    ensures Norm(a) == Norm(b) <==> SameMaps(a, b)
  {
    hide ValidTree, Stores, KindAt, WellShaped, Norm, Mean;
    ValidIsShaped(a);
    ValidIsShaped(b);
    SameFormIffSameMeaning(a, b);
    if SameMaps(a, b) {
      forall path ensures KindAt(a, path) == KindAt(b, path) {
        assert MapAt(a, path) <==> MapAt(b, path);
        SameKind(a, b, d, path);
      }
      KindsAreMeaning(a, b);
    }
    if Mean(a) == Mean(b) {
      forall path ensures MapAt(a, path) <==> MapAt(b, path) { MeaningIsKinds(a, b, path); }
    }
  }

  // ---------------------------------------------------------------------------
  // Exports of everything
  // ---------------------------------------------------------------------------

  /** `exportable` of one mantle when everything is shared: its `runes` are always written. */
  function MantleOut(t: Tree): Tree
    requires t.Object?
  {
    var runes := if Chars("runes") in t.kids then t.kids[Chars("runes")] else Object(map[]);
    var edges := if Chars("edges") in t.kids && IsSet(t.kids[Chars("edges")])
      then map[Chars("edges") := WriteSet(ReadSet(t.kids[Chars("edges")]))] else map[];
    Object((map k | k in t.kids && (k == Chars("present") || k == Chars("fields")) :: t.kids[k])
      + edges + map[Chars("runes") := runes])
  }

  function MantlesOut(t: Tree): Tree
  {
    if t.Object? then Object(map m | m in t.kids && t.kids[m].Object? :: MantleOut(t.kids[m])) else Object(map[])
  }

  /** `exportable` when everything is shared: `mantles` is always written. */
  function ExportAll(t: Tree): Tree
    requires t.Object?
  {
    var mantles := if Chars("mantles") in t.kids then MantlesOut(t.kids[Chars("mantles")]) else Object(map[]);
    Object((map k | k in t.kids && k == Chars("glyphs") :: t.kids[k])
      + map[Chars("palabra") := SHAPE, Chars("mantles") := mantles])
  }

  /** The maps every export has: `mantles`, and the `runes` of each mantle. */
  predicate AlwaysOut(path: seq<Text>)
  {
    path == [Chars("mantles")]
    || (|path| == 3 && path[0] == Chars("mantles") && path[2] == Chars("runes"))
  }

  lemma MantleOutHas(t: Tree)
    requires t.Object? && (Chars("edges") in t.kids ==> IsSet(t.kids[Chars("edges")]))
    requires forall k :: k in t.kids ==>
      k == Chars("present") || k == Chars("fields") || k == Chars("runes") || k == Chars("edges")
    ensures var u := MantleOut(t);
      && u.Object? && u.kids.Keys == t.kids.Keys + {Chars("runes")}
      && (forall k :: k in t.kids && k != Chars("runes") && k != Chars("edges") ==> u.kids[k] == t.kids[k])
      && (Chars("edges") in t.kids ==> u.kids[Chars("edges")] == WriteSet(ReadSet(t.kids[Chars("edges")])))
      && u.kids[Chars("runes")] == if Chars("runes") in t.kids then t.kids[Chars("runes")] else Object(map[])
  {
    hide Chars, WriteSet, ReadSet, IsSet;
    KeysDiffer();
  }

  lemma MantleKeys(t: Tree)
    requires MantleOk(t)
    ensures t.Object? && (Chars("edges") in t.kids ==> IsSet(t.kids[Chars("edges")]))
    ensures Chars("edges") in t.kids ==> GoodSet(t.kids[Chars("edges")], true)
    ensures forall k :: k in t.kids ==>
      k == Chars("present") || k == Chars("fields") || k == Chars("runes") || k == Chars("edges")
  {
    hide Chars, FieldsOk, RunesOk;
    KeysDiffer();
    forall k | k in t.kids ensures MantleMember(k, t.kids[k]) {}
  }

  lemma MantleOutKids(t: Tree)
    requires MantleOk(t)
    ensures var u := MantleOut(t);
      && MantleOk(u) && u.kids.Keys == t.kids.Keys + {Chars("runes")}
      && forall k :: k in t.kids && k != Chars("runes") ==>
           (k != Chars("edges") ==> u.kids[k] == t.kids[k])
           && (k == Chars("edges") ==> IsSet(t.kids[k]) && u.kids[k] == WriteSet(ReadSet(t.kids[k])))
    ensures Chars("runes") in t.kids ==> MantleOut(t).kids[Chars("runes")] == t.kids[Chars("runes")]
    ensures Chars("runes") !in t.kids ==> MantleOut(t).kids[Chars("runes")] == Object(map[])
  {
    hide Chars, WriteSet, ReadSet, IsSet, MantleOut, GoodSet, FieldsOk, RunesOk;
    KeysDiffer();
    MantleKeys(t);
    MantleOutHas(t);
    NoRunesOk();
    var u := MantleOut(t);
    if Chars("edges") in t.kids { RewrittenIsGood(t.kids[Chars("edges")]); }
    forall k | k in u.kids ensures MantleMember(k, u.kids[k]) {
      if k in t.kids { assert MantleMember(k, t.kids[k]); }
    }
  }

  lemma NoRunesOk()
    ensures RunesOk(Object(map[]))
  {
  }

  lemma RewrittenIsGood(t: Tree)
    requires GoodSet(t, true)
    ensures GoodSet(WriteSet(ReadSet(t)), true)
  {
    hide IsCanonical;
    ReadIsTagged(t);
    ReadWrite(ReadSet(t));
    WriteIsGood(ReadSet(t));
  }

  lemma MantleOutKinds(t: Tree, path: seq<Text>)
    requires MantleOk(t)
    ensures KindAt(MantleOut(t), path) == if path == [Chars("runes")] then Some(AMap) else KindAt(t, path)
  {
    hide MantleMember, Chars, MantleOut, WriteSet, ReadSet, IsSet, KindOf;
    var u := MantleOut(t);
    MantleIsMap(t);
    MantleOutKids(t);
    MantleIsMap(u);
    MapKind(t);
    MapKind(u);
    if path != [] {
      var k, rest := path[0], path[1..];
      assert path == [k] + rest;
      if k == Chars("runes") {
        RunesKind(t, u, rest);
      } else if k in t.kids && k == Chars("edges") {
        RewrittenKind(t.kids[k], rest);
      }
    }
  }

  lemma RunesKind(t: Tree, u: Tree, path: seq<Text>)
    requires MantleOk(t) && MantleOk(u) && Chars("runes") in u.kids
    requires u.kids[Chars("runes")] == if Chars("runes") in t.kids then t.kids[Chars("runes")] else Object(map[])
    ensures KindAt(u.kids[Chars("runes")], path) ==
      if path == [] then Some(AMap) else if Chars("runes") in t.kids then KindAt(t.kids[Chars("runes")], path) else None
  {
    hide MantleOk, Chars;
    MantleIsMap(t);
    MantleIsMap(u);
    var runes := u.kids[Chars("runes")];
    RunesAre(u);
    MapKind(runes);
  }

  lemma RunesAre(t: Tree)
    requires MantleOk(t) && Chars("runes") in t.kids
    ensures RunesOk(t.kids[Chars("runes")]) && Rank(t.kids[Chars("runes")]) == 3
  {
    hide RunesOk, Chars;
    KeysDiffer();
    assert MantleMember(Chars("runes"), t.kids[Chars("runes")]);
    RunesAreMaps(t.kids[Chars("runes")]);
  }

  lemma RewrittenKind(t: Tree, path: seq<Text>)
    requires IsSet(t)
    ensures KindAt(WriteSet(ReadSet(t)), path) == KindAt(t, path)
  {
    hide ReadSet, WriteSet;
    ReadIsTagged(t);
    ReadWrite(ReadSet(t));
  }

  lemma MantlesOutKinds(t: Tree, path: seq<Text>)
    requires MantlesOk(t)
    ensures MantlesOk(MantlesOut(t))
    ensures KindAt(MantlesOut(t), path) ==
      if |path| == 2 && path[1] == Chars("runes") && path[0] in t.kids then Some(AMap) else KindAt(t, path)
  {
    hide MantleOk, Chars, MantleOut, IsSet, KindOf;
    var u := MantlesOut(t);
    forall m | m in t.kids ensures t.kids[m].Object? && MantleOk(MantleOut(t.kids[m])) {
      MantleIsMap(t.kids[m]);
      MantleOutKids(t.kids[m]);
    }
    assert u.kids.Keys == t.kids.Keys;
    MantlesAreMaps(t);
    MantlesAreMaps(u);
    MapKind(t);
    MapKind(u);
    if path != [] && path[0] in t.kids {
      var m, rest := path[0], path[1..];
      MantleOutKinds(t.kids[m], rest);
      assert rest == [Chars("runes")] <==> |path| == 2 && path[1] == Chars("runes");
    }
  }

  lemma ExportIsValid(t: Tree)
    requires ValidTree(t)
    ensures ValidTree(ExportAll(t))
  {
    hide MantlesOk, GlyphsOk, Chars, MantlesOut;
    KeysDiffer();
    var u := ExportAll(t);
    forall k | k in u.kids ensures RootMember(k, u.kids[k]) {
      if k == Chars("mantles") {
        if k in t.kids {
          assert RootMember(k, t.kids[k]);
          MantlesOutKinds(t.kids[k], []);
        } else {
          NoMantles();
        }
      } else if k == Chars("glyphs") {
        assert RootMember(k, t.kids[k]);
      }
    }
  }

  lemma NoMantles()
    ensures MantlesOk(Object(map[])) && Rank(Object(map[])) == 3
  {
  }

  /** An export has the kinds its document has, and the maps every export has besides. */
  lemma ExportKinds(t: Tree, path: seq<Text>)
    requires ValidTree(t)
    ensures KindAt(ExportAll(t), path) ==
      if path == [Chars("mantles")] || (AlwaysOut(path) && MapAt(t, path[..2])) then Some(AMap) else KindAt(t, path)
  {
    hide MantlesOk, GlyphsOk, Chars, MantlesOut, IsSet, KindOf;
    KeysDiffer();
    var u := ExportAll(t);
    ExportIsValid(t);
    RootIsMap(t);
    RootIsMap(u);
    MapKind(t);
    MapKind(u);
    if path != [] {
      var k, rest := path[0], path[1..];
      assert path == [k] + rest;
      if k == Chars("mantles") {
        UnderExport(t, u, rest);
      } else if k == Chars("palabra") {
        assert RootMember(k, t.kids[k]);
      }
    }
  }

  /** Below `mantles`. */
  lemma UnderExport(t: Tree, u: Tree, path: seq<Text>)
    requires ValidTree(t) && ValidTree(u) && Rank(t) == 3 && Rank(u) == 3 && Chars("mantles") in u.kids
    requires u.kids[Chars("mantles")] ==
      if Chars("mantles") in t.kids then MantlesOut(t.kids[Chars("mantles")]) else Object(map[])
    ensures var whole := [Chars("mantles")] + path;
      KindAt(u, whole) ==
        if path == [] || (|path| == 2 && path[1] == Chars("runes") && MapAt(t, whole[..2])) then Some(AMap)
        else KindAt(t, whole)
  {
    hide MantlesOk, GlyphsOk, Chars, MantlesOut, IsSet, KindOf;
    var k := Chars("mantles");
    var whole := [k] + path;
    KidAt(t, k, path);
    KidAt(u, k, path);
    KeysDiffer();
    NoMantles();
    MapKind(Object(map[]));
    if k in t.kids {
      var ms := t.kids[k];
      assert RootMember(k, ms);
      MantlesOutKinds(ms, path);
      MantlesAreMaps(ms);
      MantlesAreMaps(MantlesOut(ms));
      MapKind(MantlesOut(ms));
      if |path| == 2 {
        assert whole[..2] == [k] + [path[0]];
        KidAt(t, k, [path[0]]);
        KidAt(ms, path[0], []);
        if path[0] in ms.kids { MantleKind(ms, path[0]); }
      }
    } else if |path| == 2 {
      assert whole[..2] == [k] + [path[0]];
      KidAt(t, k, [path[0]]);
    }
  }

  lemma MantleKind(t: Tree, m: Text)
    requires MantlesOk(t) && m in t.kids
    ensures KindOf(t.kids[m]) == AMap
  {
    hide MantleOk, IsSet;
    MantleIsMap(t.kids[m]);
  }

  /** An export of everything stores the document it was made from. */
  lemma ExportStores(t: Tree, d: Doc)
    requires ValidTree(t) && Stores(t, d)
    ensures Stores(ExportAll(t), d)
  {
    hide ValidTree, PathOf, PlaceAllowed, StoresAt, ExportAll, NodeAt;
    RootIsMap(t);
    forall p | PlaceAllowed(p) ensures StoresAt(ExportAll(t), d, p) {
      assert StoresAt(t, d, p);
      ExportStoresAt(t, d, p);
    }
  }

  lemma ExportStoresAt(t: Tree, d: Doc, p: Place)
    requires ValidTree(t) && t.Object? && PlaceAllowed(p) && StoresAt(t, d, p)
    ensures StoresAt(ExportAll(t), d, p)
  {
    hide ValidTree, PathOf, PlaceAllowed, ExportAll, NodeAt, ReadSet, Walkable, GoodSet, DeclarationSet, AlwaysOut;
    ExportIsValid(t);
    PlaceFound(t, p);
    PlaceFound(ExportAll(t), p);
    KindIsNode(t, PathOf(p));
    KindIsNode(ExportAll(t), PathOf(p));
    ExportKinds(t, PathOf(p));
    PlaceIsNoMap(p);
  }

  lemma PlaceIsNoMap(p: Place)
    requires PlaceAllowed(p)
    ensures PathOf(p) != [Chars("mantles")] && !AlwaysOut(PathOf(p))
  {
    hide Chars;
    KeysDiffer();
  }

  /** The exports of two valid trees of one document have one canonical form exactly when the
      trees have the same maps, `mantles` and the mantles' `runes` aside. */
  lemma ExportsOneFormIff(a: Tree, b: Tree, d: Doc)
    requires ValidTree(a) && ValidTree(b) && Stores(a, d) && Stores(b, d)
    ensures a.Object? && b.Object?
    ensures Norm(ExportAll(a)) == Norm(ExportAll(b)) <==>
      forall path :: !AlwaysOut(path) ==> (MapAt(a, path) <==> MapAt(b, path))
  {
    hide ValidTree, Stores, KindAt, Norm, ExportAll, AlwaysOut;
    RootIsMap(a);
    RootIsMap(b);
    ExportIsValid(a);
    ExportIsValid(b);
    ExportStores(a, d);
    ExportStores(b, d);
    OneFormIffSameMaps(ExportAll(a), ExportAll(b), d);
    forall path ensures MapAt(ExportAll(a), path) <==> (AlwaysAt(a, path) || MapAt(a, path)) { ExportMaps(a, path); }
    forall path ensures MapAt(ExportAll(b), path) <==> (AlwaysAt(b, path) || MapAt(b, path)) { ExportMaps(b, path); }
    if forall path :: !AlwaysOut(path) ==> (MapAt(a, path) <==> MapAt(b, path)) {
      forall path ensures MapAt(ExportAll(a), path) <==> MapAt(ExportAll(b), path) {
        AlwaysAlike(a, b, path);
      }
    } else {
      var path :| !AlwaysOut(path) && !(MapAt(a, path) <==> MapAt(b, path));
      NotAlways(a, path);
      NotAlways(b, path);
      assert !(MapAt(ExportAll(a), path) <==> MapAt(ExportAll(b), path));
    }
  }

  predicate AlwaysAt(t: Tree, path: seq<Text>)
  {
    path == [Chars("mantles")] || (AlwaysOut(path) && MapAt(t, path[..2]))
  }

  lemma NotAlways(t: Tree, path: seq<Text>)
    requires !AlwaysOut(path)
    ensures !AlwaysAt(t, path)
  {
  }

  lemma ExportMaps(t: Tree, path: seq<Text>)
    requires ValidTree(t)
    ensures t.Object? && (MapAt(ExportAll(t), path) <==> (AlwaysAt(t, path) || MapAt(t, path)))
  {
    hide ValidTree, KindAt, ExportAll, AlwaysOut;
    RootIsMap(t);
    ExportKinds(t, path);
  }

  /** Where exports always have a map, both have it: a mantle is no map the rule leaves out, and
      `runes` are only where their mantle is. */
  lemma AlwaysAlike(a: Tree, b: Tree, path: seq<Text>)
    requires ValidTree(a) && ValidTree(b)
    requires forall p :: !AlwaysOut(p) ==> (MapAt(a, p) <==> MapAt(b, p))
    ensures AlwaysAt(a, path) || MapAt(a, path) <==> AlwaysAt(b, path) || MapAt(b, path)
  {
    hide ValidTree, Chars, KindAt;
    if AlwaysOut(path) && path != [Chars("mantles")] {
      assert |path[..2]| == 2 && !AlwaysOut(path[..2]);
      assert MapAt(a, path[..2]) <==> MapAt(b, path[..2]);
      if MapAt(a, path) { Prefix(a, path, 2); }
      if MapAt(b, path) { Prefix(b, path, 2); }
    }
  }

  /** Whatever a path leads to, it leads through maps. */
  lemma {:induction false} Prefix(t: Tree, path: seq<Text>, n: nat)
    requires n < |path| && KindAt(t, path).Some?
    ensures MapAt(t, path[..n])
    decreases |path|
  {
    hide IsSet, ReadSet;
    if n > 0 {
      Prefix(t.kids[path[0]], path[1..], n - 1);
      assert path[..n][1..] == path[1..][..n - 1] && path[..n][0] == path[0];
    } else {
      assert path[..0] == [];
    }
  }

  // ---------------------------------------------------------------------------
  // The first merge
  // ---------------------------------------------------------------------------

  /** `empty_root`: what a new replica holds. */
  const NEW_ROOT := Object(map[Chars("palabra") := SHAPE, Chars("mantles") := Object(map[])])

  /** Every mantle has its `runes`, and there is a `mantles` to hold them. */
  ghost predicate RunesEverywhere(t: Tree)
  {
    && MapAt(t, [Chars("mantles")])
    && forall m :: MapAt(t, [Chars("mantles"), m]) ==> MapAt(t, [Chars("mantles"), m, Chars("runes")])
  }

  /** A document is its own export exactly when it has every map an export has. */
  lemma ExportIsWholeIff(t: Tree, d: Doc)
    requires ValidTree(t) && Stores(t, d)
    ensures t.Object? && (Norm(ExportAll(t)) == Norm(t) <==> RunesEverywhere(t))
  {
    hide ValidTree, Stores, KindAt, Norm, ExportAll, Chars;
    RootIsMap(t);
    ExportIsValid(t);
    ExportStores(t, d);
    OneFormIffSameMaps(ExportAll(t), t, d);
    forall path ensures MapAt(ExportAll(t), path) <==> (AlwaysAt(t, path) || MapAt(t, path)) { ExportMaps(t, path); }
    if RunesEverywhere(t) {
      forall path ensures AlwaysAt(t, path) ==> MapAt(t, path) { AlwaysThere(t, path); }
    }
    if SameMaps(ExportAll(t), t) {
      assert AlwaysAt(t, [Chars("mantles")]);
      forall m | MapAt(t, [Chars("mantles"), m]) ensures MapAt(t, [Chars("mantles"), m, Chars("runes")]) {
        var path := [Chars("mantles"), m, Chars("runes")];
        assert path[..2] == [Chars("mantles"), m];
        assert AlwaysAt(t, path);
      }
    }
  }

  lemma AlwaysThere(t: Tree, path: seq<Text>)
    requires RunesEverywhere(t)
    ensures AlwaysAt(t, path) ==> MapAt(t, path)
  {
    hide KindAt, Chars;
    if AlwaysAt(t, path) && path != [Chars("mantles")] {
      assert path[..2] == [Chars("mantles"), path[1]];
      assert path == [Chars("mantles"), path[1], Chars("runes")];
    }
  }

  lemma NewRootIsEmpty()
    ensures ValidTree(NEW_ROOT) && Stores(NEW_ROOT, EMPTY_DOC)
  {
    hide SlotKeys, PlaceAllowed;
    KeysDiffer();
    NoMantles();
    assert RootMember(Chars("palabra"), SHAPE) && RootMember(Chars("mantles"), Object(map[]));
    forall p | PlaceAllowed(p) ensures NodeAt(NEW_ROOT, PathOf(p)) == None { NothingThere(p); }
  }

  lemma NothingThere(p: Place)
    ensures NodeAt(NEW_ROOT, PathOf(p)) == None
  {
    hide SlotKeys;
    KeysDiffer();
    var path := PathOf(p);
    assert |path| >= 2 && (path[0] == Chars("mantles") || path[0] == Chars("glyphs"));
    assert NodeAt(Object(map[]), path[1..]) == None;
  }

  /** Joining into a new replica gives what was joined. */
  lemma JoinIntoNew(t: Tree, shown: Tree -> Text)
    requires ValidTree(t) && MapAt(t, [Chars("mantles")])
    ensures Norm(JoinNode(NEW_ROOT, t, shown)) == Norm(t)
  {
    hide MantlesOk, GlyphsOk, Chars, JoinNode, Norm, WellShaped;
    NewRootIsEmpty();
    ValidIsShaped(NEW_ROOT);
    ValidIsShaped(t);
    JoinMeans(NEW_ROOT, t, shown);
    RootIsMap(t);
    KeysDiffer();
    KidAt(t, Chars("mantles"), []);
    MeetsWhole(t, shown);
    SameFormIffSameMeaning(JoinNode(NEW_ROOT, t, shown), t);
  }

  lemma MeetsWhole(t: Tree, shown: Tree -> Text)
    requires Rank(t) == 3 && Chars("palabra") != Chars("mantles")
    requires Chars("palabra") in t.kids && t.kids[Chars("palabra")] == SHAPE
    requires Chars("mantles") in t.kids && Rank(t.kids[Chars("mantles")]) == 3
    ensures Meet(Mean(NEW_ROOT), Mean(t), shown) == Mean(t)
  {
    hide Chars, Mean, Meet, IsSet;
    MeanOfMap(t);
    MeanOfNew();
    MeanOfShape();
    var x := map[Chars("palabra") := Leaf(SHAPE), Chars("mantles") := Node(map[])];
    MeetOfMaps(x, Mean(t).of, shown);
    SameLeaf(shown);
    MeanOfMap(t.kids[Chars("mantles")]);
    NothingMeets(Mean(t.kids[Chars("mantles")]).of, shown);
    assert Meet(Node(x), Mean(t), shown).of == Mean(t).of;
  }

  lemma MeanOfNew()
    requires Chars("palabra") != Chars("mantles")
    ensures Mean(NEW_ROOT) == Node(map[Chars("palabra") := Leaf(SHAPE), Chars("mantles") := Node(map[])])
  {
    hide Chars, ReadSet;
    NewRootIsEmpty();
    RootIsMap(NEW_ROOT);
    MeanOfMap(NEW_ROOT);
    assert Mean(Object(map[])) == Node(map[]);
    MeanOfShape();
    assert Mean(NEW_ROOT).of == map[Chars("palabra") := Leaf(SHAPE), Chars("mantles") := Node(map[])];
  }

  lemma MeanOfShape()
    ensures Mean(SHAPE) == Leaf(SHAPE)
  {
  }

  lemma SameLeaf(shown: Tree -> Text)
    ensures Meet(Leaf(SHAPE), Leaf(SHAPE), shown) == Leaf(SHAPE)
  {
  }

  lemma NothingMeets(m: map<Text, Meaning>, shown: Tree -> Text)
    ensures Meet(Node(map[]), Node(m), shown) == Node(m)
  {
    hide Meet;
    MeetOfMaps(map[], m, shown);
    assert Meet(Node(map[]), Node(m), shown).of == m;
  }

  /** One device shares everything and another, new, takes its export in. Their exports then have
      one canonical form, so both sessions say they are in sync and nothing more is sent; their
      documents have one exactly when every mantle of the first has its `runes`. */
  lemma FirstMerge(t: Tree, d: Doc, shown: Tree -> Text)
    requires ValidTree(t) && Stores(t, d)
    ensures t.Object?
    ensures var u := JoinNode(NEW_ROOT, ExportAll(t), shown);
      && ValidTree(u) && u.Object? && Stores(u, d)
      && Norm(ExportAll(u)) == Norm(ExportAll(t))
      && (Norm(u) == Norm(t) <==> RunesEverywhere(t))
  {
    hide ValidTree, Stores, KindAt, Norm, ExportAll, Chars, JoinNode, RunesEverywhere, AlwaysOut, JoinDocs;
    RootIsMap(t);
    ExportIsValid(t);
    ExportStores(t, d);
    var x := ExportAll(t);
    var u := JoinNode(NEW_ROOT, x, shown);
    NewRootIsEmpty();
    ValidJoins(NEW_ROOT, x, shown);
    StoredJoin(NEW_ROOT, x, EMPTY_DOC, d, shown);
    NothingJoined(d);
    RootIsMap(u);
    ExportMaps(t, [Chars("mantles")]);
    JoinIntoNew(x, shown);
    ExportIsWholeIff(t, d);
    ExportsOneFormIff(u, t, d);
    forall path | !AlwaysOut(path) ensures MapAt(u, path) <==> MapAt(t, path) {
      ExportMaps(t, path);
      NotAlways(t, path);
      SameFormSameMaps(u, x, path);
    }
  }

  lemma NothingJoined(d: Doc)
    ensures JoinDocs(EMPTY_DOC, d) == d
  {
    assert forall p :: p in d ==> Join(EMPTY_SET, d[p]) == d[p] by {
      forall p | p in d ensures Join(EMPTY_SET, d[p]) == d[p] { EmptyJoins(EMPTY_SET, d[p]); }
    }
  }

  lemma SameFormSameMaps(a: Tree, b: Tree, path: seq<Text>)
    requires ValidTree(a) && ValidTree(b) && Norm(a) == Norm(b)
    ensures MapAt(a, path) <==> MapAt(b, path)
  {
    hide ValidTree, KindAt, Norm, Mean, WellShaped;
    ValidIsShaped(a);
    ValidIsShaped(b);
    SameFormIffSameMeaning(a, b);
    MeaningIsKinds(a, b, path);
  }
}
