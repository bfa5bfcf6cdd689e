/** Trees as documents.

    `validate` is a shape of trees, kept by joining them; and the sets of a valid tree, place by
    place, are the document the rest of this model works on. */
module TreeDocs {
  import opened Bytes
  import opened Codec
  import opened Docs
  import opened Options
  import opened OrSets
  import opened PlaceNames
  import opened Trees

  // ---------------------------------------------------------------------------
  // The shape
  // ---------------------------------------------------------------------------

  /** `check_orset`: exactly `a` and `r`, every entry well spelled, and its values canonical
      where they must be. */
  predicate GoodSet(t: Tree, canonical: bool)
  {
    && IsSet(t) && t.kids.Keys == {A, R}
    && (forall k :: k in t.kids[A].kids ==> GoodAdd(k, t.kids[A].kids[k]))
    && (forall x :: x in t.kids[R].items ==> x.Str? && x.text != [])
    && (canonical ==> forall k :: k in ReadSet(t).adds ==> IsCanonical(ReadSet(t).adds[k]))
  }

  ghost predicate FieldsOk(t: Tree, rune: bool)
  {
    t.Object? && forall k :: k in t.kids ==> NamesField(k, rune) && GoodSet(t.kids[k], true)
  }

  /** `rune_field_allowed`, `mantle_field_allowed`. */
  ghost predicate NamesField(k: Text, rune: bool)
  {
    exists f :: (if rune then OfRune(f) else OfMantle(f)) && k == FieldText(f)
  }

  ghost predicate RuneMember(k: Text, t: Tree)
  {
    if k == Chars("present") then GoodSet(t, false)
    else if k == Chars("fields") then FieldsOk(t, true)
    else k == Chars("tags") && GoodSet(t, true)
  }

  ghost predicate RuneOk(t: Tree)
  {
    t.Object? && forall k :: k in t.kids ==> RuneMember(k, t.kids[k])
  }

  ghost predicate RunesOk(t: Tree)
  {
    t.Object? && forall k :: k in t.kids ==> k != [] && RuneOk(t.kids[k])
  }

  ghost predicate MantleMember(k: Text, t: Tree)
  {
    if k == Chars("present") then GoodSet(t, false)
    else if k == Chars("fields") then FieldsOk(t, false)
    else if k == Chars("runes") then RunesOk(t)
    else k == Chars("edges") && GoodSet(t, true)
  }

  ghost predicate MantleOk(t: Tree)
  {
    t.Object? && forall k :: k in t.kids ==> MantleMember(k, t.kids[k])
  }

  ghost predicate MantlesOk(t: Tree)
  {
    t.Object? && forall k :: k in t.kids ==> k != [] && MantleOk(t.kids[k])
  }

  /** A declaration is a map. */
  predicate DeclarationSet(t: Tree)
  {
    GoodSet(t, true) && forall k :: k in ReadSet(t).adds ==> ReadSet(t).adds[k] != [] && ReadSet(t).adds[k][0] == MAP
  }

  predicate GlyphFields(t: Tree)
  {
    t.Object? && forall k :: k in t.kids ==> k == Chars("descriptor") && DeclarationSet(t.kids[k])
  }

  predicate GlyphMember(k: Text, t: Tree)
  {
    if k == Chars("present") then GoodSet(t, false) else k == Chars("fields") && GlyphFields(t)
  }

  predicate GlyphOk(t: Tree)
  {
    t.Object? && forall k :: k in t.kids ==> GlyphMember(k, t.kids[k])
  }

  predicate GlyphsOk(t: Tree)
  {
    t.Object? && forall k :: k in t.kids ==> k != [] && GlyphOk(t.kids[k])
  }

  /** The document shape this library reads. */
  const SHAPE := Other([0x31])

  ghost predicate RootMember(k: Text, t: Tree)
  {
    if k == Chars("palabra") then t == SHAPE
    else if k == Chars("mantles") then MantlesOk(t)
    else k == Chars("glyphs") && GlyphsOk(t)
  }

  /** `validate`. */
  ghost predicate ValidTree(t: Tree)
  {
    t.Object? && Chars("palabra") in t.kids && forall k :: k in t.kids ==> RootMember(k, t.kids[k])
  }

  // ---------------------------------------------------------------------------
  // Joining keeps it
  // ---------------------------------------------------------------------------

  /** A map none of whose members is a list is no set, whatever its users named them. */
  lemma NoListNoSet(t: Tree)
    requires t.Object? && forall k :: k in t.kids ==> !t.kids[k].List?
    ensures !IsSet(t) && Rank(t) == 3
  {
  }

  lemma SetJoins(a: Tree, b: Tree, canonical: bool, shown: Tree -> Text)
    requires GoodSet(a, canonical) && GoodSet(b, canonical)
    ensures JoinNode(a, b, shown) == WriteSet(Join(ReadSet(a), ReadSet(b)))
    ensures ReadSet(JoinNode(a, b, shown)) == Join(ReadSet(a), ReadSet(b))
    ensures GoodSet(JoinNode(a, b, shown), canonical)
  {
    hide IsCanonical, ReadSet, WriteSet;
    var s := Join(ReadSet(a), ReadSet(b));
    ReadIsTagged(a);
    ReadIsTagged(b);
    ReadWrite(s);
    WriteIsGood(s);
    JoinKeepsCanonical(a, b, canonical);
  }

  lemma JoinKeepsCanonical(a: Tree, b: Tree, canonical: bool)
    requires GoodSet(a, canonical) && GoodSet(b, canonical)
    ensures var s := Join(ReadSet(a), ReadSet(b));
      canonical ==> forall k :: k in s.adds ==> IsCanonical(s.adds[k])
  {
    hide IsCanonical, ReadSet;
  }

  lemma WriteIsGood(s: OrSet<Text>)
    requires Tagged(s)
    ensures var t := WriteSet(s);
      && t.kids.Keys == {A, R} && (forall k :: k in t.kids[A].kids ==> GoodAdd(k, t.kids[A].kids[k]))
      && forall x :: x in t.kids[R].items ==> x.Str? && x.text != []
  {
    var t := WriteSet(s);
    assert A[0] != R[0];
    forall k | k in t.kids[A].kids ensures GoodAdd(k, t.kids[A].kids[k]) { UnhexHex(s.adds[k]); }
    forall x | x in t.kids[R].items ensures x.Str? && x.text != [] {
      var i :| 0 <= i < |t.kids[R].items| && t.kids[R].items[i] == x;
      assert Sorted(s.removes)[i] in Sorted(s.removes);
    }
  }

  /** A set is allowed at a place exactly when, written down, it passes the check of that place. */
  lemma AllowedIffGood(p: Place, s: OrSet<Text>)
    ensures SetAllowed(p, s) <==>
      && GoodSet(WriteSet(s), p.slot != Present)
      && (p.slot == Register(Descriptor) ==> DeclarationSet(WriteSet(s)))
  {
    hide IsCanonical, WriteSet, ReadSet;
    TaggedIffGood(s);
    if Tagged(s) { ReadWrite(s); }
  }

  lemma TaggedIffGood(s: OrSet<Text>)
    ensures Tagged(s) <==> GoodSet(WriteSet(s), false)
  {
    var t := WriteSet(s);
    if Tagged(s) {
      WriteIsGood(s);
    } else if [] in s.adds {
      assert A[0] != R[0];
      assert [] in t.kids[A].kids && !GoodAdd([], t.kids[A].kids[[]]);
    } else {
      var i :| 0 <= i < |Sorted(s.removes)| && Sorted(s.removes)[i] == [];
      assert A[0] != R[0];
      assert t.kids[R].items[i] == Tree.Str([]);
      assert Tree.Str([]) in t.kids[R].items;
    }
  }

  lemma FieldsJoin(a: Tree, b: Tree, rune: bool, shown: Tree -> Text)
    requires FieldsOk(a, rune) && FieldsOk(b, rune)
    ensures FieldsOk(JoinNode(a, b, shown), rune)
  {
    hide GoodSet, NamesField, JoinNode;
    AllSets(a, rune);
    AllSets(b, rune);
    MapJoin(a, b, shown);
    forall k | k in a.kids && k in b.kids ensures GoodSet(JoinNode(a.kids[k], b.kids[k], shown), true) {
      SetJoins(a.kids[k], b.kids[k], true, shown);
    }
  }

  lemma AllSets(t: Tree, rune: bool)
    requires FieldsOk(t, rune)
    ensures Rank(t) == 3
  {
    hide NamesField, IsCanonical, ReadSet;
    NoListNoSet(t);
  }

  lemma RuneJoin(a: Tree, b: Tree, shown: Tree -> Text)
    requires RuneOk(a) && RuneOk(b)
    ensures RuneOk(JoinNode(a, b, shown))
  {
    hide RuneMember, JoinNode;
    RuneIsMap(a);
    RuneIsMap(b);
    MapJoin(a, b, shown);
    forall k | k in a.kids && k in b.kids ensures RuneMember(k, JoinNode(a.kids[k], b.kids[k], shown)) {
      RuneMemberJoin(k, a.kids[k], b.kids[k], shown);
    }
  }

  lemma RuneIsMap(t: Tree)
    requires RuneOk(t)
    ensures Rank(t) == 3
  {
    hide IsCanonical, ReadSet, NamesField, Chars;
    NoListNoSet(t);
  }

  lemma RuneMemberJoin(k: Text, a: Tree, b: Tree, shown: Tree -> Text)
    requires RuneMember(k, a) && RuneMember(k, b)
    ensures RuneMember(k, JoinNode(a, b, shown))
  {
    hide GoodSet, FieldsOk, JoinNode, Chars;
    if k == Chars("present") {
      SetJoins(a, b, false, shown);
    } else if k == Chars("fields") {
      FieldsJoin(a, b, true, shown);
    } else {
      SetJoins(a, b, true, shown);
    }
  }

  lemma RunesJoin(a: Tree, b: Tree, shown: Tree -> Text)
    requires RunesOk(a) && RunesOk(b)
    ensures RunesOk(JoinNode(a, b, shown))
  {
    hide RuneOk, JoinNode;
    RunesAreMaps(a);
    RunesAreMaps(b);
    MapJoin(a, b, shown);
    forall k | k in a.kids && k in b.kids ensures RuneOk(JoinNode(a.kids[k], b.kids[k], shown)) {
      RuneJoin(a.kids[k], b.kids[k], shown);
    }
  }

  lemma RunesAreMaps(t: Tree)
    requires RunesOk(t)
    ensures Rank(t) == 3
  {
    hide RuneMember;
    NoListNoSet(t);
  }

  lemma MantleMemberJoin(k: Text, a: Tree, b: Tree, shown: Tree -> Text)
    requires MantleMember(k, a) && MantleMember(k, b)
    ensures MantleMember(k, JoinNode(a, b, shown))
  {
    hide GoodSet, FieldsOk, RunesOk, JoinNode, Chars;
    if k == Chars("present") {
      SetJoins(a, b, false, shown);
    } else if k == Chars("fields") {
      FieldsJoin(a, b, false, shown);
    } else if k == Chars("runes") {
      RunesJoin(a, b, shown);
    } else {
      SetJoins(a, b, true, shown);
    }
  }

  lemma MantleIsMap(t: Tree)
    requires MantleOk(t)
    ensures Rank(t) == 3
  {
    hide IsCanonical, ReadSet, NamesField, Chars, RuneOk;
    NoListNoSet(t);
  }

  lemma MantlesJoin(a: Tree, b: Tree, shown: Tree -> Text)
    requires MantlesOk(a) && MantlesOk(b)
    ensures MantlesOk(JoinNode(a, b, shown))
  {
    hide MantleMember, JoinNode;
    NoListNoSet(a);
    NoListNoSet(b);
    MapJoin(a, b, shown);
    forall k | k in a.kids && k in b.kids ensures MantleOk(JoinNode(a.kids[k], b.kids[k], shown)) {
      var x, y := a.kids[k], b.kids[k];
      MantleIsMap(x);
      MantleIsMap(y);
      MapJoin(x, y, shown);
      forall j | j in x.kids && j in y.kids ensures MantleMember(j, JoinNode(x.kids[j], y.kids[j], shown)) {
        MantleMemberJoin(j, x.kids[j], y.kids[j], shown);
      }
    }
  }

  lemma DeclarationJoin(a: Tree, b: Tree, shown: Tree -> Text)
    requires DeclarationSet(a) && DeclarationSet(b)
    ensures DeclarationSet(JoinNode(a, b, shown))
  {
    hide GoodSet, JoinNode, ReadSet;
    assert GoodSet(a, true) && GoodSet(b, true);
    GoodIsSet(a);
    GoodIsSet(b);
    SetJoins(a, b, true, shown);
  }

  lemma GoodIsSet(t: Tree)
    requires GoodSet(t, true)
    ensures IsSet(t)
  {
  }

  lemma GlyphMemberJoin(k: Text, a: Tree, b: Tree, shown: Tree -> Text)
    requires GlyphMember(k, a) && GlyphMember(k, b)
    ensures GlyphMember(k, JoinNode(a, b, shown))
  {
    hide GoodSet, DeclarationSet, JoinNode, Chars;
    if k == Chars("present") {
      SetJoins(a, b, false, shown);
    } else {
      GlyphFieldsAreMap(a);
      GlyphFieldsAreMap(b);
      MapJoin(a, b, shown);
      forall j | j in a.kids && j in b.kids ensures DeclarationSet(JoinNode(a.kids[j], b.kids[j], shown)) {
        DeclarationJoin(a.kids[j], b.kids[j], shown);
      }
    }
  }

  lemma GlyphFieldsAreMap(t: Tree)
    requires GlyphFields(t)
    ensures Rank(t) == 3
  {
    hide IsCanonical, ReadSet, Chars;
    NoListNoSet(t);
  }

  lemma GlyphIsMap(t: Tree)
    requires GlyphOk(t)
    ensures Rank(t) == 3
  {
    hide IsCanonical, ReadSet, Chars, DeclarationSet;
    NoListNoSet(t);
  }

  lemma GlyphsJoin(a: Tree, b: Tree, shown: Tree -> Text)
    requires GlyphsOk(a) && GlyphsOk(b)
    ensures GlyphsOk(JoinNode(a, b, shown))
  {
    hide GlyphMember, JoinNode;
    NoListNoSet(a);
    NoListNoSet(b);
    MapJoin(a, b, shown);
    forall k | k in a.kids && k in b.kids ensures GlyphOk(JoinNode(a.kids[k], b.kids[k], shown)) {
      var x, y := a.kids[k], b.kids[k];
      GlyphIsMap(x);
      GlyphIsMap(y);
      MapJoin(x, y, shown);
      forall j | j in x.kids && j in y.kids ensures GlyphMember(j, JoinNode(x.kids[j], y.kids[j], shown)) {
        GlyphMemberJoin(j, x.kids[j], y.kids[j], shown);
      }
    }
  }

  lemma RootIsMap(t: Tree)
    requires ValidTree(t)
    ensures Rank(t) == 3
  {
    hide MantleOk, GlyphOk, Chars;
    NoListNoSet(t);
  }

  /** Joining two documents fit to merge gives one fit to merge. */
  lemma ValidJoins(a: Tree, b: Tree, shown: Tree -> Text)
    requires ValidTree(a) && ValidTree(b)
    ensures ValidTree(JoinNode(a, b, shown))
  {
    hide JoinNode, MantlesOk, GlyphsOk, Chars;
    RootIsMap(a);
    RootIsMap(b);
    MapJoin(a, b, shown);
    forall k | k in a.kids && k in b.kids ensures RootMember(k, JoinNode(a.kids[k], b.kids[k], shown)) {
      assert RootMember(k, a.kids[k]) && RootMember(k, b.kids[k]);
      if k == Chars("palabra") {
        SameScalar(a.kids[k], shown);
      } else if k == Chars("mantles") {
        MantlesJoin(a.kids[k], b.kids[k], shown);
      } else {
        GlyphsJoin(a.kids[k], b.kids[k], shown);
      }
    }
  }

  lemma SameScalar(t: Tree, shown: Tree -> Text)
    requires t.Other?
    ensures JoinNode(t, t, shown) == t
  {
  }

  lemma SetShaped(t: Tree)
    requires IsSet(t)
    ensures WellShaped(t)
  {
  }

  /** A map of well-shaped members, none of them a list, is well shaped. */
  lemma MapShaped(t: Tree)
    requires t.Object? && forall k :: k in t.kids ==> !t.kids[k].List? && WellShaped(t.kids[k])
    ensures WellShaped(t) && !t.List?
  {
  }

  lemma FieldsShaped(t: Tree, rune: bool)
    requires FieldsOk(t, rune)
    ensures WellShaped(t)
  {
    hide WellShaped, IsCanonical, ReadSet, NamesField;
    forall k | k in t.kids ensures WellShaped(t.kids[k]) { SetShaped(t.kids[k]); }
    MapShaped(t);
  }

  lemma RuneShaped(t: Tree)
    requires RuneOk(t)
    ensures WellShaped(t)
  {
    hide WellShaped, FieldsOk, IsCanonical, ReadSet, Chars;
    forall k | k in t.kids ensures WellShaped(t.kids[k]) && !t.kids[k].List? {
      assert RuneMember(k, t.kids[k]);
      if FieldsOk(t.kids[k], true) { FieldsShaped(t.kids[k], true); FieldsAreMap(t.kids[k], true); }
      else { SetShaped(t.kids[k]); }
    }
    MapShaped(t);
  }

  lemma FieldsAreMap(t: Tree, rune: bool)
    requires FieldsOk(t, rune)
    ensures t.Object?
  {
  }

  lemma MantleShaped(t: Tree)
    requires MantleOk(t)
    ensures WellShaped(t)
  {
    hide WellShaped, FieldsOk, RuneOk, IsCanonical, ReadSet, Chars;
    forall k | k in t.kids ensures WellShaped(t.kids[k]) && !t.kids[k].List? {
      var u := t.kids[k];
      assert MantleMember(k, u);
      if FieldsOk(u, false) {
        FieldsShaped(u, false);
        FieldsAreMap(u, false);
      } else if RunesOk(u) {
        forall id | id in u.kids ensures WellShaped(u.kids[id]) && !u.kids[id].List? {
          RuneShaped(u.kids[id]);
          RuneIsMap(u.kids[id]);
        }
        MapShaped(u);
      } else {
        SetShaped(u);
      }
    }
    MapShaped(t);
  }

  lemma GlyphShaped(t: Tree)
    requires GlyphOk(t)
    ensures WellShaped(t)
  {
    hide WellShaped, IsCanonical, ReadSet, Chars;
    forall k | k in t.kids ensures WellShaped(t.kids[k]) && !t.kids[k].List? {
      var u := t.kids[k];
      assert GlyphMember(k, u);
      if GlyphFields(u) {
        forall j | j in u.kids ensures WellShaped(u.kids[j]) { SetShaped(u.kids[j]); }
        MapShaped(u);
      } else {
        SetShaped(u);
      }
    }
    MapShaped(t);
  }

  /** Documents fit to merge are well shaped: the laws of the join hold of them. */
  lemma ValidIsShaped(t: Tree)
    requires ValidTree(t)
    ensures WellShaped(t)
  {
    hide WellShaped, MantleOk, GlyphOk, Chars;
    forall k | k in t.kids ensures WellShaped(t.kids[k]) && !t.kids[k].List? {
      var u := t.kids[k];
      assert RootMember(k, u);
      if u == SHAPE {
        ScalarShaped(u);
      } else {
        forall j | j in u.kids ensures WellShaped(u.kids[j]) && !u.kids[j].List? {
          if MantleOk(u.kids[j]) { MantleShaped(u.kids[j]); MantleIsMap(u.kids[j]); }
          else { GlyphShaped(u.kids[j]); GlyphIsMap(u.kids[j]); }
        }
        MapShaped(u);
      }
    }
    MapShaped(t);
  }

  lemma ScalarShaped(t: Tree)
    requires t.Other?
    ensures WellShaped(t)
  {
  }

  // ---------------------------------------------------------------------------
  // From trees to documents
  // ---------------------------------------------------------------------------

  /** `at_path`: the node reached by following keys. */
  function NodeAt(t: Tree, path: seq<Text>): Option<Tree>
    decreases |path|
  {
    if path == [] then Some(t)
    else if !t.Object? || path[0] !in t.kids then None
    else NodeAt(t.kids[path[0]], path[1..])
  }

  /** Only maps on the way down. */
  ghost predicate Walkable(t: Tree, path: seq<Text>)
    decreases |path|
  {
    path != [] ==> Rank(t) == 3 && (path[0] in t.kids ==> Walkable(t.kids[path[0]], path[1..]))
  }

  function JoinFound(x: Option<Tree>, y: Option<Tree>, shown: Tree -> Text): Option<Tree>
  {
    if x == None then y else if y == None then x else Some(JoinNode(x.value, y.value, shown))
  }

  lemma {:induction false} JoinFinds(a: Tree, b: Tree, path: seq<Text>, shown: Tree -> Text)
    requires Walkable(a, path) && Walkable(b, path)
    ensures NodeAt(JoinNode(a, b, shown), path) == JoinFound(NodeAt(a, path), NodeAt(b, path), shown)
    decreases |path|
  {
    hide JoinNode;
    if path != [] {
      MapJoin(a, b, shown);
      if path[0] in a.kids && path[0] in b.kids {
        JoinFinds(a.kids[path[0]], b.kids[path[0]], path[1..], shown);
      }
    }
  }

  /** What a valid tree holds where a set of a thing may be. */
  ghost predicate SetFound(t: Tree, path: seq<Text>, canonical: bool, declaration: bool)
  {
    && Walkable(t, path)
    && (NodeAt(t, path).Some? ==> GoodSet(NodeAt(t, path).value, canonical))
    && (NodeAt(t, path).Some? && declaration ==> DeclarationSet(NodeAt(t, path).value))
  }

  lemma Deeper(t: Tree, k: Text, path: seq<Text>, canonical: bool, declaration: bool)
    requires Rank(t) == 3 && (k in t.kids ==> SetFound(t.kids[k], path, canonical, declaration))
    ensures SetFound(t, [k] + path, canonical, declaration)
  {
    hide GoodSet, DeclarationSet;
    assert ([k] + path)[1..] == path;
  }

  lemma Found(t: Tree, canonical: bool, declaration: bool)
    requires GoodSet(t, canonical) && (declaration ==> DeclarationSet(t))
    ensures SetFound(t, [], canonical, declaration)
  {
    hide GoodSet, DeclarationSet;
  }

  lemma FieldFound(t: Tree, rune: bool, f: Field)
    requires FieldsOk(t, rune)
    ensures SetFound(t, [FieldText(f)], true, false)
  {
    hide GoodSet, DeclarationSet, SetFound, NamesField, FieldText;
    AllSets(t, rune);
    if FieldText(f) in t.kids { Found(t.kids[FieldText(f)], true, false); }
    Deeper(t, FieldText(f), [], true, false);
    assert [FieldText(f)] + [] == [FieldText(f)];
  }

  lemma RuneSetFound(t: Tree, slot: Slot)
    requires RuneOk(t) && (slot.Present? || slot.TagSet? || slot.Register?)
    ensures SetFound(t, SlotKeys(slot), slot != Present, false)
  {
    hide GoodSet, DeclarationSet, SetFound, FieldsOk, FieldText, Chars;
    KeysDiffer();
    RuneIsMap(t);
    var k := SlotKeys(slot)[0];
    var rest := SlotKeys(slot)[1..];
    assert SlotKeys(slot) == [k] + rest;
    if k in t.kids {
      assert RuneMember(k, t.kids[k]);
      if slot.Register? {
        FieldFound(t.kids[k], true, slot.field);
      } else {
        Found(t.kids[k], slot != Present, false);
      }
    }
    Deeper(t, k, rest, slot != Present, false);
  }

  lemma MantleSetFound(t: Tree, slot: Slot)
    requires MantleOk(t) && (slot.Present? || slot.EdgeSet? || slot.Register?)
    ensures SetFound(t, SlotKeys(slot), slot != Present, false)
  {
    hide GoodSet, DeclarationSet, SetFound, FieldsOk, FieldText, Chars, RunesOk;
    KeysDiffer();
    MantleIsMap(t);
    var k := SlotKeys(slot)[0];
    var rest := SlotKeys(slot)[1..];
    assert SlotKeys(slot) == [k] + rest;
    if k in t.kids {
      assert MantleMember(k, t.kids[k]);
      if slot.Register? {
        FieldFound(t.kids[k], false, slot.field);
      } else {
        Found(t.kids[k], slot != Present, false);
      }
    }
    Deeper(t, k, rest, slot != Present, false);
  }

  lemma GlyphSetFound(t: Tree, slot: Slot)
    requires GlyphOk(t) && (slot.Present? || slot == Register(Descriptor))
    ensures SetFound(t, SlotKeys(slot), slot != Present, slot != Present)
  {
    hide GoodSet, SetFound, Chars;
    KeysDiffer();
    GlyphIsMap(t);
    var k := SlotKeys(slot)[0];
    var rest := SlotKeys(slot)[1..];
    assert SlotKeys(slot) == [k] + rest;
    if k in t.kids {
      assert GlyphMember(k, t.kids[k]);
      if slot.Register? {
        var fields := t.kids[k];
        GlyphFieldsAreMap(fields);
        if Chars("descriptor") in fields.kids { Found(fields.kids[Chars("descriptor")], true, true); }
        Deeper(fields, Chars("descriptor"), [], true, true);
        assert rest == [Chars("descriptor")] + [];
      } else {
        Found(t.kids[k], false, false);
      }
    }
    Deeper(t, k, rest, slot != Present, slot != Present);
  }

  lemma RuneBelow(t: Tree, id: Text, slot: Slot)
    requires MantleOk(t) && (slot.Present? || slot.TagSet? || slot.Register?)
    ensures SetFound(t, [Chars("runes"), id] + SlotKeys(slot), slot != Present, false)
  {
    hide SetFound, FieldsOk, SlotKeys, Chars, RuneOk, GoodSet;
    KeysDiffer();
    MantleIsMap(t);
    var rest := SlotKeys(slot);
    if Chars("runes") in t.kids {
      var runes := t.kids[Chars("runes")];
      assert MantleMember(Chars("runes"), runes);
      RunesAreMaps(runes);
      if id in runes.kids { RuneSetFound(runes.kids[id], slot); }
      Deeper(runes, id, rest, slot != Present, false);
    }
    Deeper(t, Chars("runes"), [id] + rest, slot != Present, false);
    assert [Chars("runes")] + ([id] + rest) == [Chars("runes"), id] + rest;
  }

  predicate Declares(p: Place)
  {
    p.slot == Register(Descriptor)
  }

  lemma MantlePlace(t: Tree, p: Place)
    requires MantlesOk(t) && PlaceAllowed(p) && !p.thing.Glyph?
    ensures SetFound(t, PathOf(p)[1..], p.slot != Present, false)
  {
    hide SetFound, SlotKeys, Chars, MantleOk;
    MantlesAreMaps(t);
    match p.thing {
      case Mantle(name) =>
        if name in t.kids { MantleSetFound(t.kids[name], p.slot); }
        Deeper(t, name, SlotKeys(p.slot), p.slot != Present, false);
        assert PathOf(p)[1..] == [name] + SlotKeys(p.slot);
      case Rune(mantle, id) =>
        var rest := [Chars("runes"), id] + SlotKeys(p.slot);
        if mantle in t.kids { RuneBelow(t.kids[mantle], id, p.slot); }
        Deeper(t, mantle, rest, p.slot != Present, false);
        assert PathOf(p)[1..] == [mantle] + rest;
    }
  }

  lemma MantlesAreMaps(t: Tree)
    requires MantlesOk(t)
    ensures Rank(t) == 3
  {
    hide MantleMember;
    NoListNoSet(t);
  }

  lemma GlyphPlace(t: Tree, p: Place)
    requires GlyphsOk(t) && PlaceAllowed(p) && p.thing.Glyph?
    ensures SetFound(t, PathOf(p)[1..], p.slot != Present, p.slot != Present)
  {
    hide SetFound, SlotKeys, Chars, GlyphOk;
    GlyphsAreMaps(t);
    var name := p.thing.name;
    if name in t.kids { GlyphSetFound(t.kids[name], p.slot); }
    Deeper(t, name, SlotKeys(p.slot), p.slot != Present, p.slot != Present);
    assert PathOf(p)[1..] == [name] + SlotKeys(p.slot);
  }

  lemma GlyphsAreMaps(t: Tree)
    requires GlyphsOk(t)
    ensures Rank(t) == 3
  {
    hide GlyphMember;
    NoListNoSet(t);
  }

  lemma OnlyGlyphsDeclare(p: Place)
    requires PlaceAllowed(p)
    ensures Declares(p) <==> p.thing.Glyph? && p.slot != Present
  {
  }

  /** In a valid tree every place a document may have leads to a well-formed set or nowhere. */
  lemma PlaceFound(t: Tree, p: Place)
    requires ValidTree(t) && PlaceAllowed(p)
    ensures SetFound(t, PathOf(p), p.slot != Present, Declares(p))
  {
    hide SetFound, MantlesOk, GlyphsOk, Chars, SlotKeys, PlaceAllowed;
    KeysDiffer();
    RootIsMap(t);
    OnlyGlyphsDeclare(p);
    var k, rest := PathOf(p)[0], PathOf(p)[1..];
    assert PathOf(p) == [k] + rest;
    if k in t.kids {
      assert RootMember(k, t.kids[k]);
      if p.thing.Glyph? { GlyphPlace(t.kids[k], p); } else { MantlePlace(t.kids[k], p); }
    }
    Deeper(t, k, rest, p.slot != Present, Declares(p));
  }

  /** The document a tree stores: at every place, the set its path leads to. */
  ghost predicate Stores(t: Tree, d: Doc)
  {
    && (forall p :: p in d ==> PlaceAllowed(p))
    && forall p :: PlaceAllowed(p) ==> StoresAt(t, d, p)
  }

  ghost predicate StoresAt(t: Tree, d: Doc, p: Place)
  {
    match NodeAt(t, PathOf(p))
    case None => p !in d
    case Some(node) => p in d && IsSet(node) && d[p] == ReadSet(node)
  }

  /** Joining stored trees stores the join of their documents. */
  lemma StoredJoin(a: Tree, b: Tree, d: Doc, e: Doc, shown: Tree -> Text)
    requires ValidTree(a) && ValidTree(b) && Stores(a, d) && Stores(b, e)
    ensures Stores(JoinNode(a, b, shown), JoinDocs(d, e))
  {
    hide ValidTree, PathOf, PlaceAllowed, StoresAt, JoinNode;
    forall p | PlaceAllowed(p) ensures StoresAt(JoinNode(a, b, shown), JoinDocs(d, e), p) {
      assert StoresAt(a, d, p) && StoresAt(b, e, p);
      StoredAt(a, b, d, e, shown, p);
    }
  }

  lemma StoredAt(a: Tree, b: Tree, d: Doc, e: Doc, shown: Tree -> Text, p: Place)
    requires ValidTree(a) && ValidTree(b) && PlaceAllowed(p) && StoresAt(a, d, p) && StoresAt(b, e, p)
    ensures StoresAt(JoinNode(a, b, shown), JoinDocs(d, e), p)
  {
    hide ValidTree, PathOf, PlaceAllowed, JoinNode, NodeAt, ReadSet, GoodSet, DeclarationSet, Walkable, Join;
    PlaceFound(a, p);
    PlaceFound(b, p);
    JoinFinds(a, b, PathOf(p), shown);
    JoinedAt(d, e);
    EmptyJoins(At(d, p), At(e, p));
    var x, y := NodeAt(a, PathOf(p)), NodeAt(b, PathOf(p));
    if x.Some? && y.Some? {
      SetJoins(x.value, y.value, p.slot != Present, shown);
      WriteSetIs(ReadSet(x.value), ReadSet(y.value));
    }
  }

  lemma WriteSetIs(s: OrSet<Text>, u: OrSet<Text>)
    ensures IsSet(WriteSet(Join(s, u)))
  {
  }

  lemma EmptyJoins(s: OrSet<Text>, u: OrSet<Text>)
    ensures Join(s, EMPTY_SET) == s && Join(EMPTY_SET, u) == u
  {
    assert s.adds + EMPTY_SET.adds == s.adds && EMPTY_SET.adds + u.adds == u.adds;
  }

  /** The document a valid tree stores is valid. */
  lemma StoredIsValid(t: Tree, d: Doc)
    requires ValidTree(t) && Stores(t, d)
    ensures Validate(d)
  {
    hide ValidTree, PathOf, PlaceAllowed, NodeAt, Walkable, IsCanonical;
    forall p | p in d ensures SetAllowed(p, d[p]) {
      PlaceFound(t, p);
      assert StoresAt(t, d, p);
      ReadIsTagged(NodeAt(t, PathOf(p)).value);
    }
  }
}
