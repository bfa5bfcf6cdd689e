/** How places are spelled in a stored document. */
module PlaceNames {
  import opened Bytes
  import opened Docs

  function Chars(s: string): Text
  {
    seq(|s|, i requires 0 <= i < |s| => s[i] as int % 256)
  }

  function FieldText(f: Field): Text
  {
    match f
    case Id => Chars("id")
    case Domain => Chars("domain")
    case Rules => Chars("rules")
    case MantleTag(key) => Chars("tags.") + key
    case SpiritName => Chars("spirit.name")
    case GlyphOf => Chars("glyph")
    case Facet(Who) => Chars("facets.who")
    case Facet(What) => Chars("facets.what")
    case Facet(When) => Chars("facets.when")
    case Facet(Where) => Chars("facets.where")
    case Facet(Why) => Chars("facets.why")
    case Facet(How) => Chars("facets.how")
    case Placement => Chars("placement")
    case Relations => Chars("relations")
    case Content(key) => Chars("content.") + key
    case Descriptor => Chars("descriptor")
  }

  function ThingText(thing: Thing): Text
  {
    match thing
    case Mantle(name) => Chars("/mantles/") + name
    case Rune(mantle, id) => Chars("/mantles/") + mantle + Chars("/runes/") + id
    case Glyph(name) => Chars("/glyphs/") + name
  }

  function SlotText(slot: Slot): Text
  {
    match slot
    case Present => Chars("/present")
    case Register(f) => Chars("/fields/") + FieldText(f)
    case TagSet => Chars("/tags")
    case EdgeSet => Chars("/edges")
  }

  /** The keys from the root of the stored tree to a set. */
  function PathOf(p: Place): seq<Text>
  {
    ThingKeys(p.thing) + SlotKeys(p.slot)
  }

  function ThingKeys(thing: Thing): seq<Text>
  {
    match thing
    case Mantle(name) => [Chars("mantles"), name]
    case Rune(mantle, id) => [Chars("mantles"), mantle, Chars("runes"), id]
    case Glyph(name) => [Chars("glyphs"), name]
  }

  function SlotKeys(slot: Slot): seq<Text>
  {
    match slot
    case Present => [Chars("present")]
    case Register(f) => [Chars("fields"), FieldText(f)]
    case TagSet => [Chars("tags")]
    case EdgeSet => [Chars("edges")]
  }

  /** The members of a thing are told apart by their names. */
  lemma KeysDiffer()
    ensures Chars("present") != Chars("fields") && Chars("present") != Chars("runes")
    ensures Chars("present") != Chars("edges") && Chars("present") != Chars("tags")
    ensures Chars("fields") != Chars("runes") && Chars("fields") != Chars("edges") && Chars("fields") != Chars("tags")
    ensures Chars("runes") != Chars("edges")
    ensures Chars("palabra") != Chars("mantles") && Chars("palabra") != Chars("glyphs")
    ensures Chars("mantles") != Chars("glyphs")
  {
    assert Chars("runes")[0] == 'r' as int && Chars("edges")[0] == 'e' as int;
    assert Chars("present")[0] == 'p' as int && Chars("palabra")[0] == 'p' as int && Chars("mantles")[0] == 'm' as int;
    assert |Chars("present")| == 7 && |Chars("fields")| == 6 && |Chars("runes")| == 5 && |Chars("edges")| == 5;
    assert |Chars("tags")| == 4 && |Chars("palabra")| == 7 && |Chars("mantles")| == 7 && |Chars("glyphs")| == 6;
  }
}
