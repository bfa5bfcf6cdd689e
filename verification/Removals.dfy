/** What a removal sees, on the tree a document is stored as: a walk down the tree finds the
    tags of exactly the places below the thing. */
module Removals {
  import opened Bytes
  import opened Conflicts
  import opened Docs
  import opened Edits
  import opened Options
  import opened OrSets
  import opened PlaceNames
  import opened TreeDocs
  import opened Trees

  // ---------------------------------------------------------------------------
  // The walk
  // ---------------------------------------------------------------------------

  /** `collect_live_tags` below a node that may itself be a set. */
  function Collected(t: Tree): set<Text>
  {
    if IsSet(t) then LiveTags(ReadSet(t))
    else if t.Object? then set k, x | k in t.kids && x in Collected(t.kids[k]) :: x
    else {}
  }

  /** `collect_live_tags`, the node's own presence skipped. */
  function CollectedBelow(t: Tree): set<Text>
  {
    if IsSet(t) then LiveTags(ReadSet(t))
    else if t.Object? then set k, x | k in t.kids && k != Chars("present") && x in Collected(t.kids[k]) :: x
    else {}
  }

  /** The set under a key, if a set is there. */
  function SetUnder(t: Tree, key: Text): OrSet<Text>
  {
    if t.Object? && key in t.kids && IsSet(t.kids[key]) then ReadSet(t.kids[key]) else EMPTY_SET
  }

  /** `raced_by_an_edit`, on the stored tree. */
  predicate RacedNode(t: Tree)
  {
    var present := SetUnder(t, Chars("present"));
    Values(present) == {} && present.removes != {} && !(CollectedBelow(t) <= present.removes)
  }

  /** Only maps on the way to a set in which `x` is live. */
  ghost predicate LiveDown(t: Tree, path: seq<Text>, x: Text)
  {
    && Walkable(t, path) && NodeAt(t, path).Some? && IsSet(NodeAt(t, path).value)
    && x in LiveTags(ReadSet(NodeAt(t, path).value))
  }

  lemma Down(t: Tree, path: seq<Text>, x: Text)
    requires path != []
    ensures LiveDown(t, path, x) <==> Rank(t) == 3 && path[0] in t.kids && LiveDown(t.kids[path[0]], path[1..], x)
  {
    hide IsSet, ReadSet;
  }

  lemma HereOrNowhere(t: Tree, path: seq<Text>, x: Text)
    requires Rank(t) != 3
    ensures LiveDown(t, path, x) <==> path == [] && IsSet(t) && x in LiveTags(ReadSet(t))
  {
    hide IsSet, ReadSet;
  }

  lemma {:induction false} CollectedPaths(t: Tree, x: Text)
    ensures x in Collected(t) <==> exists path :: LiveDown(t, path, x)
  {
    hide LiveDown, ReadSet, LiveTags, IsSet;
    if Rank(t) != 3 {
      HereOrNowhere(t, [], x);
      if path :| LiveDown(t, path, x) { HereOrNowhere(t, path, x); }
    } else {
      if x in Collected(t) {
        var k :| k in t.kids && x in Collected(t.kids[k]);
        CollectedPaths(t.kids[k], x);
        var path :| LiveDown(t.kids[k], path, x);
        assert ([k] + path)[1..] == path;
        Down(t, [k] + path, x);
      }
      if path :| LiveDown(t, path, x) {
        NoSetHere(t, path, x);
        Down(t, path, x);
        CollectedPaths(t.kids[path[0]], x);
      }
    }
  }

  lemma NoSetHere(t: Tree, path: seq<Text>, x: Text)
    requires Rank(t) == 3 && LiveDown(t, path, x)
    ensures path != []
  {
  }

  lemma BelowPaths(t: Tree, x: Text)
    requires Rank(t) == 3
    ensures x in CollectedBelow(t) <==>
      exists path :: path != [] && path[0] != Chars("present") && LiveDown(t, path, x)
  {
    hide LiveDown, ReadSet, LiveTags, IsSet, Collected, Chars;
    if x in CollectedBelow(t) {
      var k :| k in t.kids && k != Chars("present") && x in Collected(t.kids[k]);
      CollectedPaths(t.kids[k], x);
      var path :| LiveDown(t.kids[k], path, x);
      assert ([k] + path)[1..] == path;
      Down(t, [k] + path, x);
      assert ([k] + path)[0] != Chars("present");
    }
    if path :| path != [] && path[0] != Chars("present") && LiveDown(t, path, x) {
      Down(t, path, x);
      CollectedPaths(t.kids[path[0]], x);
    }
  }

  // ---------------------------------------------------------------------------
  // Every set of a valid tree is at a place
  // ---------------------------------------------------------------------------

  /** A path that ends in a set, with only maps before it. */
  ghost predicate ToSet(t: Tree, path: seq<Text>)
  {
    Walkable(t, path) && NodeAt(t, path).Some? && IsSet(NodeAt(t, path).value)
  }

  lemma Step(t: Tree, path: seq<Text>)
    requires Rank(t) == 3 && ToSet(t, path)
    ensures path != [] && path[0] in t.kids && ToSet(t.kids[path[0]], path[1..])
  {
  }

  lemma AtSet(t: Tree, path: seq<Text>)
    requires Rank(t) != 3 && ToSet(t, path)
    ensures path == []
  {
  }

  lemma GoodRank(t: Tree, canonical: bool)
    requires GoodSet(t, canonical)
    ensures Rank(t) == 2
  {
  }

  lemma FieldPath(t: Tree, rune: bool, path: seq<Text>) returns (f: Field)
    requires FieldsOk(t, rune) && ToSet(t, path)
    ensures (if rune then OfRune(f) else OfMantle(f)) && path == [FieldText(f)]
  {
    hide GoodSet, FieldText, OfRune, OfMantle, ToSet;
    AllSets(t, rune);
    Step(t, path);
    GoodRank(t.kids[path[0]], true);
    AtSet(t.kids[path[0]], path[1..]);
    assert NamesField(path[0], rune);
    f :| (if rune then OfRune(f) else OfMantle(f)) && path[0] == FieldText(f);
    assert path == [path[0]] + path[1..];
  }

  lemma RunePath(t: Tree, path: seq<Text>) returns (slot: Slot)
    requires RuneOk(t) && ToSet(t, path)
    ensures path == SlotKeys(slot)
    ensures slot.Present? || slot.TagSet? || (slot.Register? && OfRune(slot.field))
  {
    hide GoodSet, FieldsOk, FieldText, OfRune, ToSet, Chars;
    RuneIsMap(t);
    Step(t, path);
    var k, rest := path[0], path[1..];
    assert path == [k] + rest && RuneMember(k, t.kids[k]);
    if k == Chars("present") {
      GoodRank(t.kids[k], false);
      AtSet(t.kids[k], rest);
      slot := Present;
    } else if k == Chars("fields") {
      var f := FieldPath(t.kids[k], true, rest);
      slot := Register(f);
    } else {
      GoodRank(t.kids[k], true);
      AtSet(t.kids[k], rest);
      slot := TagSet;
    }
  }

  /** A path inside a mantle leads to one of its own sets or to one of a rune's. */
  lemma MantlePath(t: Tree, name: Text, path: seq<Text>) returns (p: Place)
    requires MantleOk(t) && name != [] && ToSet(t, path)
    ensures PlaceAllowed(p) && PathOf(p) == [Chars("mantles"), name] + path
  {
    hide GoodSet, FieldsOk, FieldText, OfRune, OfMantle, ToSet, Chars, RuneOk;
    MantleIsMap(t);
    Step(t, path);
    var k, rest := path[0], path[1..];
    assert path == [k] + rest && MantleMember(k, t.kids[k]);
    if k == Chars("present") {
      GoodRank(t.kids[k], false);
      AtSet(t.kids[k], rest);
      p := Place(Mantle(name), Present);
    } else if k == Chars("fields") {
      var f := FieldPath(t.kids[k], false, rest);
      p := Place(Mantle(name), Register(f));
    } else if k == Chars("runes") {
      RunesAreMaps(t.kids[k]);
      Step(t.kids[k], rest);
      var slot := RunePath(t.kids[k].kids[rest[0]], rest[1..]);
      p := Place(Rune(name, rest[0]), slot);
      assert rest == [rest[0]] + rest[1..];
    } else {
      GoodRank(t.kids[k], true);
      AtSet(t.kids[k], rest);
      p := Place(Mantle(name), EdgeSet);
    }
  }

  lemma GlyphPath(t: Tree, name: Text, path: seq<Text>) returns (p: Place)
    requires GlyphOk(t) && name != [] && ToSet(t, path)
    ensures PlaceAllowed(p) && PathOf(p) == [Chars("glyphs"), name] + path
  {
    hide GoodSet, ToSet, Chars;
    GlyphIsMap(t);
    Step(t, path);
    var k, rest := path[0], path[1..];
    assert path == [k] + rest && GlyphMember(k, t.kids[k]);
    if k == Chars("present") {
      GoodRank(t.kids[k], false);
      AtSet(t.kids[k], rest);
      p := Place(Glyph(name), Present);
    } else {
      GlyphFieldsAreMap(t.kids[k]);
      Step(t.kids[k], rest);
      GoodRank(t.kids[k].kids[rest[0]], true);
      AtSet(t.kids[k].kids[rest[0]], rest[1..]);
      p := Place(Glyph(name), Register(Descriptor));
      assert rest == [rest[0]] + rest[1..];
    }
  }

  /** A valid tree holds no set outside the places of a document. */
  lemma SetsHavePlaces(t: Tree, path: seq<Text>) returns (p: Place)
    requires ValidTree(t) && ToSet(t, path)
    ensures PlaceAllowed(p) && PathOf(p) == path
  {
    hide MantleOk, GlyphOk, ToSet, PathOf, PlaceAllowed, Chars;
    RootIsMap(t);
    Step(t, path);
    var k, rest := path[0], path[1..];
    var top := t.kids[k];
    assert RootMember(k, top);
    if k == Chars("palabra") { NotInScalar(top, rest); }
    if k == Chars("mantles") { MantlesAreMaps(top); } else { GlyphsAreMaps(top); }
    Step(top, rest);
    if k == Chars("mantles") {
      p := MantlePath(top.kids[rest[0]], rest[0], rest[1..]);
    } else {
      p := GlyphPath(top.kids[rest[0]], rest[0], rest[1..]);
    }
    assert path == [k, rest[0]] + rest[1..];
  }

  lemma NotInScalar(t: Tree, path: seq<Text>)
    requires t.Other?
    ensures !ToSet(t, path)
  {
  }

  // ---------------------------------------------------------------------------
  // The walk sees what is beneath
  // ---------------------------------------------------------------------------

  /** Walking to a node and on from it. */
  lemma {:induction false} WalkOn(t: Tree, a: seq<Text>, b: seq<Text>, x: Text)
    requires Walkable(t, a) && NodeAt(t, a).Some?
    ensures LiveDown(t, a + b, x) <==> LiveDown(NodeAt(t, a).value, b, x)
    decreases |a|
  {
    hide LiveDown;
    if a == [] {
      assert a + b == b;
    } else {
      Down(t, a + b, x);
      assert (a + b)[1..] == a[1..] + b;
      WalkOn(t.kids[a[0]], a[1..], b, x);
    }
  }

  /** A node is a map, with only maps above it. */
  ghost predicate MapAt(t: Tree, path: seq<Text>)
  {
    Walkable(t, path) && (NodeAt(t, path).Some? ==> Rank(NodeAt(t, path).value) == 3)
  }

  lemma MapBelow(t: Tree, k: Text, path: seq<Text>)
    requires Rank(t) == 3 && (k in t.kids ==> MapAt(t.kids[k], path))
    ensures MapAt(t, [k] + path)
  {
    assert ([k] + path)[1..] == path;
  }

  lemma MapHere(t: Tree)
    requires Rank(t) == 3
    ensures MapAt(t, [])
  {
  }

  lemma RunesMap(t: Tree, id: Text)
    requires MantleOk(t)
    ensures MapAt(t, [Chars("runes"), id])
  {
    hide MapAt, Chars, RuneOk, Rank;
    KeysDiffer();
    MantleIsMap(t);
    if Chars("runes") in t.kids {
      var runes := t.kids[Chars("runes")];
      assert MantleMember(Chars("runes"), runes);
      RunesAreMaps(runes);
      if id in runes.kids {
        RuneIsMap(runes.kids[id]);
        MapHere(runes.kids[id]);
      }
      MapBelow(runes, id, []);
      assert [id] + [] == [id];
    }
    MapBelow(t, Chars("runes"), [id]);
    assert [Chars("runes")] + [id] == [Chars("runes"), id];
  }

  /** In a valid tree a thing is a map below maps. */
  lemma ThingIsMap(t: Tree, thing: Thing)
    requires ValidTree(t)
    ensures MapAt(t, ThingKeys(thing))
  {
    hide MapAt, Chars, MantleOk, GlyphOk, Rank;
    KeysDiffer();
    RootIsMap(t);
    var keys := ThingKeys(thing);
    var rest := keys[2..];
    var k, name := keys[0], keys[1];
    assert rest == if thing.Rune? then [Chars("runes"), thing.id] else [];
    if k in t.kids {
      var top := t.kids[k];
      assert RootMember(k, top);
      if thing.Glyph? { GlyphsAreMaps(top); } else { MantlesAreMaps(top); }
      if name in top.kids {
        var node := top.kids[name];
        if thing.Glyph? {
          GlyphIsMap(node);
          MapHere(node);
        } else if thing.Mantle? {
          MantleIsMap(node);
          MapHere(node);
        } else {
          RunesMap(node, thing.id);
        }
      }
      MapBelow(top, name, rest);
    }
    MapBelow(t, k, [name] + rest);
    assert [k] + ([name] + rest) == keys;
  }

  /** The places below a thing, its presence apart, are those whose next key is another. */
  lemma NextKey(thing: Thing, p: Place, rest: seq<Text>)
    requires PathOf(p) == ThingKeys(thing) + rest && rest != []
    ensures p != Place(thing, Present) <==> rest[0] != Chars("present")
  {
    hide Chars, FieldText;
    KeysDiffer();
    var keys := ThingKeys(thing);
    assert PathOf(p)[|keys|] == rest[0] && PathOf(p)[|keys|..] == rest;
    assert PathOf(p)[0] == keys[0] && PathOf(p)[1] == keys[1];
    if thing.Rune? { assert PathOf(p)[2] == keys[2] && PathOf(p)[3] == keys[3]; }
  }

  lemma StoredLive(t: Tree, d: Doc, p: Place, x: Text)
    requires ValidTree(t) && Stores(t, d)
    ensures x in LiveTags(At(d, p)) <==> PlaceAllowed(p) && LiveDown(t, PathOf(p), x)
  {
    hide ValidTree, PathOf, PlaceAllowed, NodeAt, Walkable, ReadSet, GoodSet, DeclarationSet;
    EmptyHasNone();
    if PlaceAllowed(p) {
      PlaceFound(t, p);
      assert StoresAt(t, d, p);
    }
  }

  /** The walk below a thing's node finds exactly the tags live beneath the thing. */
  lemma CollectedIsLive(t: Tree, d: Doc, thing: Thing)
    requires ValidTree(t) && Stores(t, d) && NodeAt(t, ThingKeys(thing)).Some?
    ensures CollectedBelow(NodeAt(t, ThingKeys(thing)).value) == LiveBeneath(d, thing)
  {
    hide *;
    var node := NodeAt(t, ThingKeys(thing)).value;
    forall x ensures x in CollectedBelow(node) <==> x in LiveBeneath(d, thing) {
      if x in CollectedBelow(node) { CollectedSeen(t, d, thing, x); }
      if x in LiveBeneath(d, thing) { SeenCollected(t, d, thing, x); }
    }
  }

  lemma CollectedSeen(t: Tree, d: Doc, thing: Thing, x: Text)
    requires ValidTree(t) && Stores(t, d) && NodeAt(t, ThingKeys(thing)).Some?
    requires x in CollectedBelow(NodeAt(t, ThingKeys(thing)).value)
    ensures x in LiveBeneath(d, thing)
  {
    hide ValidTree, Stores, NodeAt, Walkable, CollectedBelow, LiveBeneath, PathOf, ThingKeys, PlaceAllowed, Rank, IsSet;
    hide ReadSet, Chars, At;
    var keys := ThingKeys(thing);
    ThingIsMap(t, thing);
    var node := NodeAt(t, keys).value;
    BelowPaths(node, x);
    var rest :| rest != [] && rest[0] != Chars("present") && LiveDown(node, rest, x);
    WalkOn(t, keys, rest, x);
    var p := SetsHavePlaces(t, keys + rest);
    StoredLive(t, d, p, x);
    NextKey(thing, p, rest);
    assert SeenAt(d, thing, p, x);
    LiveIsSeen(d, thing, x);
  }

  lemma SeenCollected(t: Tree, d: Doc, thing: Thing, x: Text)
    requires ValidTree(t) && Stores(t, d) && NodeAt(t, ThingKeys(thing)).Some?
    requires x in LiveBeneath(d, thing)
    ensures x in CollectedBelow(NodeAt(t, ThingKeys(thing)).value)
  {
    hide ValidTree, Stores, NodeAt, Walkable, CollectedBelow, LiveBeneath, PathOf, ThingKeys, PlaceAllowed, Rank, IsSet;
    hide ReadSet, Chars, At, LiveDown;
    var keys := ThingKeys(thing);
    ThingIsMap(t, thing);
    var node := NodeAt(t, keys).value;
    LiveIsSeen(d, thing, x);
    var p :| SeenAt(d, thing, p, x);
    StoredLive(t, d, p, x);
    var rest := PathOf(p)[|keys|..];
    assert PathOf(p) == keys + rest;
    WalkOn(t, keys, rest, x);
    BelowPaths(node, x);
    NoSetHere(node, rest, x);
    NextKey(thing, p, rest);
  }

  /** A node of a stored document raced exactly when its thing did. */
  lemma RacedInTree(t: Tree, d: Doc, thing: Thing)
    requires ValidTree(t) && Stores(t, d) && PlaceAllowed(Place(thing, Present))
    requires NodeAt(t, ThingKeys(thing)).Some?
    ensures RacedNode(NodeAt(t, ThingKeys(thing)).value) <==> Raced(d, thing)
  {
    hide ValidTree, CollectedBelow, LiveBeneath, ThingKeys, Values, PlaceAllowed, Chars, Walkable, Rank;
    CollectedIsLive(t, d, thing);
    PresenceUnder(t, d, thing);
  }

  lemma PresenceUnder(t: Tree, d: Doc, thing: Thing)
    requires ValidTree(t) && Stores(t, d) && PlaceAllowed(Place(thing, Present))
    requires NodeAt(t, ThingKeys(thing)).Some?
    ensures SetUnder(NodeAt(t, ThingKeys(thing)).value, Chars("present")) == At(d, Place(thing, Present))
  {
    hide ValidTree, ThingKeys, PlaceAllowed, Chars, ReadSet, IsSet;
    var p := Place(thing, Present);
    assert StoresAt(t, d, p);
    NodeOn(t, ThingKeys(thing), Chars("present"));
  }

  lemma {:induction false} NodeOn(t: Tree, path: seq<Text>, k: Text)
    requires NodeAt(t, path).Some?
    ensures var node := NodeAt(t, path).value;
      NodeAt(t, path + [k]) == if node.Object? && k in node.kids then Some(node.kids[k]) else None
    decreases |path|
  {
    if path == [] {
      assert path + [k] == [k];
    } else {
      assert (path + [k])[1..] == path[1..] + [k];
      NodeOn(t.kids[path[0]], path[1..], k);
    }
  }
}
