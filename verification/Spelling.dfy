/** When the spelled paths the identity check compares tell two adds apart. */
module Spelling {
  import opened Bytes
  import opened Docs
  import opened PlaceNames

  /** The bytes `/` and NUL. */
  const SLASH: byte := 47
  const NUL: byte := 0

  /** The path `collect_adds` builds on the way down to a set. */
  function PathText(p: Place): Text
  {
    ThingText(p.thing) + SlotText(p.slot)
  }

  /** What `collect_adds` files an add under: the path of its set, NUL, the value. */
  function NamedText(p: Place, v: Text): Text
  {
    PathText(p) + [NUL] + v
  }

  // ---------------------------------------------------------------------------
  // Places that read alike
  // ---------------------------------------------------------------------------

  /** Paths are spelled with `/` and names may hold one: a rune and a mantle whose name spells
      that rune's path read alike. */
  lemma PathsCollide(x: Text, y: Text, slot: Slot, v: Text)
    ensures Mantle(x + Chars("/runes/") + y) != Rune(x, y)
    ensures NamedText(Place(Mantle(x + Chars("/runes/") + y), slot), v) == NamedText(Place(Rune(x, y), slot), v)
    ensures x != [] && y != [] ==>
      PlaceAllowed(Place(Mantle(x + Chars("/runes/") + y), Present)) && PlaceAllowed(Place(Rune(x, y), Present))
  {
    assert Chars("/mantles/") + (x + Chars("/runes/") + y) == Chars("/mantles/") + x + Chars("/runes/") + y;
  }

  /** So do a mantle whose name spells a tag of another mantle, and that tag when its key ends
      as a set's path does. */
  lemma KeysCollide(x: Text, key: Text, v: Text)
    requires x != [] && key != []
    ensures var p := Place(Mantle(x + Chars("/fields/tags.") + key), Present);
      var q := Place(Mantle(x), Register(MantleTag(key + Chars("/present"))));
      p != q && PlaceAllowed(p) && PlaceAllowed(q) && NamedText(p, v) == NamedText(q, v)
  {
    var name := x + Chars("/fields/tags.") + key;
    assert |name| > |x|;
    TagsText();
    assert Chars("/mantles/") + name + Chars("/present")
      == Chars("/mantles/") + x + (Chars("/fields/") + (Chars("tags.") + (key + Chars("/present"))));
  }

  lemma TagsText()
    ensures Chars("/fields/tags.") == Chars("/fields/") + Chars("tags.")
  {
    assert "/fields/tags." == "/fields/" + "tags.";
  }

  // ---------------------------------------------------------------------------
  // Places that are told apart
  // ---------------------------------------------------------------------------

  /** A name that can be told from the path around it. */
  predicate Plain(name: Text)
  {
    SLASH !in name && NUL !in name
  }

  /** Names hold neither `/` nor NUL, and keys no NUL. */
  predicate PlainPlace(p: Place)
  {
    && (match p.thing
        case Mantle(name) => Plain(name)
        case Rune(mantle, id) => Plain(mantle) && Plain(id)
        case Glyph(name) => Plain(name))
    && match p.slot
       case Register(MantleTag(key)) => NUL !in key
       case Register(Content(key)) => NUL !in key
       case _ => true
  }

  /** What stands before the first `c` and what stands after it. */
  lemma SplitAt(c: byte, x: Text, y: Text, u: Text, v: Text)
    requires c !in x && c !in y && x + [c] + u == y + [c] + v
    ensures x == y && u == v
  {
    var s := x + [c] + u;
    assert s[|x|] == c && s[|y|] == c;
    assert forall i :: 0 <= i < |x| ==> s[i] == x[i];
    assert forall i :: 0 <= i < |y| ==> s[i] == y[i];
    assert x == s[..|x|] && y == s[..|y|];
    assert u == s[|x| + 1..] && v == s[|y| + 1..];
  }

  lemma SamePrefix(a: Text, u: Text, v: Text)
    requires a + u == a + v
    ensures u == v
  {
    assert u == (a + u)[|a|..] && v == (a + v)[|a|..];
  }

  /** The first two letters and the length set a field's text apart. */
  lemma FieldsApart(f: Field, g: Field)
    requires FieldText(f) == FieldText(g)
    ensures f == g
  {
    var t := FieldText(f);
    assert |t| > 1 && t[0] == FieldText(g)[0] && t[1] == FieldText(g)[1] && |t| == |FieldText(g)|;
    if f.MantleTag? && g.MantleTag? { SamePrefix(Chars("tags."), f.key, g.key); }
    if f.Content? && g.Content? { SamePrefix(Chars("content."), f.key, g.key); }
    if f.Facet? && g.Facet? { FacetsApart(f.which, g.which); }
  }

  lemma FacetsApart(a: FacetName, b: FacetName)
    requires FieldText(Facet(a)) == FieldText(Facet(b))
    ensures a == b
  {
    var s, t := FieldText(Facet(a)), FieldText(Facet(b));
    assert |s| == |t| && s[|s| - 1] == t[|t| - 1] && s[|s| - 2] == t[|t| - 2];
  }

  /** A set's last key, without the `/` before it. */
  function SlotRest(slot: Slot): Text
  {
    SlotText(slot)[1..]
  }

  lemma SlotsApart(a: Slot, b: Slot)
    requires SlotText(a) == SlotText(b)
    ensures a == b
  {
    var s, t := SlotText(a), SlotText(b);
    assert |s| > 2 && s[1] == t[1] && s[2] == t[2];
    if a.Register? && b.Register? {
      SamePrefix(Chars("/fields/"), FieldText(a.field), FieldText(b.field));
      FieldsApart(a.field, b.field);
    }
  }

  lemma SlotStarts(slot: Slot)
    ensures SlotText(slot) == [SLASH] + SlotRest(slot) && |SlotRest(slot)| > 0 && SlotRest(slot)[0] != 'r' as int
  {
  }

  function Root(thing: Thing): Text
  {
    if thing.Glyph? then Chars("/glyphs/") else Chars("/mantles/")
  }

  function Name(thing: Thing): Text
  {
    match thing
    case Mantle(name) => name
    case Rune(mantle, _) => mantle
    case Glyph(name) => name
  }

  /** The path past the first name and the `/` after it. */
  function After(p: Place): Text
  {
    if p.thing.Rune? then Chars("runes/") + p.thing.id + [SLASH] + SlotRest(p.slot) else SlotRest(p.slot)
  }

  lemma PathSplits(p: Place)
    ensures PathText(p) == Root(p.thing) + (Name(p.thing) + [SLASH] + After(p))
  {
    SlotStarts(p.slot);
    if p.thing.Rune? {
      assert Chars("/runes/") == [SLASH] + Chars("runes/");
    }
  }

  /** Plain places are spelled apart. */
  lemma PathsApart(p: Place, q: Place)
    requires PlainPlace(p) && PlainPlace(q) && PathText(p) == PathText(q)
    ensures p == q
  {
    hide SlotRest, SlotText, Chars;
    PathSplits(p);
    PathSplits(q);
    RootsApart(p.thing, q.thing, Name(p.thing) + [SLASH] + After(p), Name(q.thing) + [SLASH] + After(q));
    SplitAt(SLASH, Name(p.thing), Name(q.thing), After(p), After(q));
    AftersApart(p, q);
  }

  lemma RootsApart(a: Thing, b: Thing, u: Text, v: Text)
    requires Root(a) + u == Root(b) + v
    ensures a.Glyph? == b.Glyph? && u == v
  {
    assert (Root(a) + u)[1] == (Root(b) + v)[1];
    SamePrefix(Root(a), u, v);
  }

  lemma AftersApart(p: Place, q: Place)
    requires PlainPlace(p) && PlainPlace(q) && After(p) == After(q)
    requires p.thing.Glyph? == q.thing.Glyph? && Name(p.thing) == Name(q.thing)
    ensures p == q
  {
    hide SlotRest, SlotText;
    SlotStarts(p.slot);
    SlotStarts(q.slot);
    assert Chars("runes/")[0] == 'r' as int;
    assert p.thing.Rune? == q.thing.Rune?;
    if p.thing.Rune? {
      var x, y := p.thing.id, q.thing.id;
      assert After(p) == Chars("runes/") + (x + [SLASH] + SlotRest(p.slot));
      assert After(q) == Chars("runes/") + (y + [SLASH] + SlotRest(q.slot));
      SamePrefix(Chars("runes/"), x + [SLASH] + SlotRest(p.slot), y + [SLASH] + SlotRest(q.slot));
      SplitAt(SLASH, x, y, SlotRest(p.slot), SlotRest(q.slot));
    }
    SlotsApart(p.slot, q.slot);
  }

  lemma NoNulIn(s: string)
    requires forall i :: 0 <= i < |s| ==> 32 <= s[i] as int < 128
    ensures NUL !in Chars(s)
  {
    assert forall i :: 0 <= i < |s| ==> Chars(s)[i] == s[i] as int;
  }

  lemma NoNul(p: Place)
    requires PlainPlace(p)
    ensures NUL !in PathText(p)
  {
    hide Chars, FieldText;
    NoNulIn("/mantles/");
    NoNulIn("/runes/");
    NoNulIn("/glyphs/");
    match p.slot {
      case Present => NoNulIn("/present");
      case Register(f) =>
        NoNulIn("/fields/");
        FieldNoNul(f);
      case TagSet => NoNulIn("/tags");
      case EdgeSet => NoNulIn("/edges");
    }
  }

  lemma FieldNoNul(f: Field)
    requires (f.MantleTag? || f.Content?) ==> NUL !in f.key
    ensures NUL !in FieldText(f)
  {
    hide Chars;
    match f {
      case Id => NoNulIn("id");
      case Domain => NoNulIn("domain");
      case Rules => NoNulIn("rules");
      case MantleTag(_) => NoNulIn("tags.");
      case SpiritName => NoNulIn("spirit.name");
      case GlyphOf => NoNulIn("glyph");
      case Facet(Who) => NoNulIn("facets.who");
      case Facet(What) => NoNulIn("facets.what");
      case Facet(When) => NoNulIn("facets.when");
      case Facet(Where) => NoNulIn("facets.where");
      case Facet(Why) => NoNulIn("facets.why");
      case Facet(How) => NoNulIn("facets.how");
      case Placement => NoNulIn("placement");
      case Relations => NoNulIn("relations");
      case Content(_) => NoNulIn("content.");
      case Descriptor => NoNulIn("descriptor");
    }
  }

  /** Among plain places the identity check compares exactly the place and the value. */
  lemma NamesTellApart(p: Place, v: Text, q: Place, w: Text)
    requires PlainPlace(p) && PlainPlace(q)
    ensures NamedText(p, v) == NamedText(q, w) <==> p == q && v == w
  {
    hide PathText, PlainPlace;
    NoNul(p);
    NoNul(q);
    if NamedText(p, v) == NamedText(q, w) {
      SplitAt(NUL, PathText(p), PathText(q), v, w);
      PathsApart(p, q);
    }
  }
}
