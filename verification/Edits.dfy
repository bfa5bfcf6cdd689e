/** What recording an application's state does to a document, place by place, and what a
    document shows. */
module Edits {
  import opened Bytes
  import opened Docs
  import opened Options
  import opened OrSets
  import PlaceNames
  import opened Policies
  import opened Tags

  /** Everything reading depends on besides the document: the declared join of each field,
      which values are numbers and how large, and a glyph declaration without its `source`. */
  datatype Reading = Reading(join: Field -> FieldJoin, number: Text -> Option<real>, strip: Text -> Text)

  /** One mantle, rune or glyph as the application holds it, every value in canonical bytes. */
  datatype Showing = Showing(fields: map<Field, Text>, tags: set<Text>, edges: set<Text>)

  type State = map<Thing, Showing>

  /** `null`. */
  const NOTHING: Text := [0]
  /** The empty list, which optional fields default to. */
  const EMPTY_LIST: Text := [7, 0]

  /** Fields every mantle, rune or glyph of a state has. */
  predicate Fixed(thing: Thing, f: Field)
  {
    match thing
    case Mantle(_) => f.Id? || f.Domain?
    case Rune(_, _) => f.SpiritName? || f.GlyphOf? || f.Facet? || f.Placement?
    case Glyph(_) => f.Descriptor?
  }

  /** Fields written only when they are not their default. */
  predicate Optional(thing: Thing, f: Field)
  {
    (thing.Mantle? && f.Rules?) || (thing.Rune? && f.Relations?)
  }

  /** One register a key: a mantle's tags and a rune's content. */
  predicate Keyed(thing: Thing, f: Field)
  {
    (thing.Mantle? && f.MantleTag? && f.key != []) || (thing.Rune? && f.Content? && f.key != [])
  }

  predicate Sparse(thing: Thing, f: Field)
  {
    Optional(thing, f) || Keyed(thing, f)
  }

  function FixedFields(thing: Thing): (fs: set<Field>)
    ensures forall f :: f in fs <==> Fixed(thing, f)
  {
    match thing
    case Mantle(_) => {Id, Domain}
    case Rune(_, _) => {SpiritName, GlyphOf, Placement} + set w: FacetName | true :: Facet(w)
    case Glyph(_) => {Descriptor}
  }

  predicate Named(thing: Thing)
  {
    match thing
    case Mantle(name) => name != []
    case Rune(mantle, id) => mantle != [] && id != []
    case Glyph(name) => name != []
  }

  /** A state `observe` does not refuse, as an application hydrates it: every fixed field
      there, no optional field at its default, every rune inside a mantle. */
  ghost predicate WellFormed(state: State)
  {
    forall thing :: thing in state ==>
      && Named(thing)
      && (thing.Rune? ==> Mantle(thing.mantle) in state)
      && (forall f :: Fixed(thing, f) ==> f in state[thing].fields)
      && (forall f :: f in state[thing].fields ==> Fixed(thing, f) || Sparse(thing, f))
      && (forall f :: f in state[thing].fields && Optional(thing, f) ==> state[thing].fields[f] != EMPTY_LIST)
      && (!thing.Rune? ==> state[thing].tags == {})
      && (!thing.Mantle? ==> state[thing].edges == {})
  }

  // ---------------------------------------------------------------------------
  // Flatten
  // ---------------------------------------------------------------------------

  function Alive(d: Doc, thing: Thing): bool
  {
    Values(At(d, Place(thing, Present))) != {}
  }

  function InParent(d: Doc, thing: Thing): bool
  {
    thing.Rune? ==> Alive(d, Mantle(thing.mantle))
  }

  ghost function FieldShown(d: Doc, r: Reading, thing: Thing, f: Field): Option<Text>
  {
    Shown(At(d, Place(thing, Register(f))), r.join(f), r.number)
  }

  /** What `flatten` shows of a field, or nothing. A glyph's declaration is read without the
      policy; a fixed field with no live value shows as `null`. */
  ghost function FieldFlat(d: Doc, r: Reading, thing: Thing, f: Field): Option<Text>
  {
    if thing.Glyph? && f.Descriptor? then
      var vs := Values(At(d, Place(thing, Register(f))));
      if vs == {} then None else Some(Least(vs))
    else if Fixed(thing, f) then
      if FieldShown(d, r, thing, f) == None then Some(NOTHING) else FieldShown(d, r, thing, f)
    else if Optional(thing, f) && FieldShown(d, r, thing, f) == Some(EMPTY_LIST) then None
    else if Sparse(thing, f) then FieldShown(d, r, thing, f)
    else None
  }

  function FieldsHeld(d: Doc, thing: Thing): set<Field>
  {
    set p | p in d && p.thing == thing && p.slot.Register? :: p.slot.field
  }

  ghost function Flat(d: Doc, r: Reading, thing: Thing): Showing
  {
    Showing(
      map f | f in FixedFields(thing) + FieldsHeld(d, thing) && FieldFlat(d, r, thing, f).Some?
        :: FieldFlat(d, r, thing, f).value,
      if thing.Rune? then Values(At(d, Place(thing, TagSet))) else {},
      if thing.Mantle? then Values(At(d, Place(thing, EdgeSet))) else {})
  }

  /** Mantles, runes and glyphs `flatten` emits. */
  ghost predicate Emitted(d: Doc, thing: Thing)
  {
    && Alive(d, thing) && InParent(d, thing)
    && (thing.Glyph? ==> Values(At(d, Place(thing, Register(Descriptor)))) != {})
  }

  ghost function Flatten(d: Doc, r: Reading): State
  {
    map thing | thing in (set p | p in d :: p.thing) && Emitted(d, thing) :: Flat(d, r, thing)
  }

  lemma FlattenAt(d: Doc, r: Reading, thing: Thing)
    ensures thing in Flatten(d, r) <==> Emitted(d, thing)
    ensures Emitted(d, thing) ==> Flatten(d, r)[thing] == Flat(d, r, thing)
  {
    if Emitted(d, thing) {
      assert Place(thing, Present) in d;
    }
  }

  lemma FlatFields(d: Doc, r: Reading, thing: Thing, f: Field)
    ensures f in Flat(d, r, thing).fields <==> FieldFlat(d, r, thing, f).Some?
    ensures f in Flat(d, r, thing).fields ==> Some(Flat(d, r, thing).fields[f]) == FieldFlat(d, r, thing, f)
  {
    ShownIsLive(At(d, Place(thing, Register(f))), r.join(f), r.number);
    if FieldFlat(d, r, thing, f).Some? && f !in FixedFields(thing) {
      assert Place(thing, Register(f)) in d;
    }
  }

  // ---------------------------------------------------------------------------
  // Observe
  // ---------------------------------------------------------------------------

  /** What an observation wants of one set. */
  datatype Want =
    | Keep
    | Write(value: Text)
    | Clear
    | Hold(values: set<Text>)
    | Appear(value: Text)
    | Vanish(seen: set<Text>)

  /** Is `p` one of the sets beneath `thing`, its own presence left out? */
  predicate Beneath(thing: Thing, p: Place)
  {
    && p != Place(thing, Present)
    && (p.thing == thing || (thing.Mantle? && p.thing.Rune? && p.thing.mantle == thing.name))
  }

  /** That is every set whose path in the stored document starts with the thing's own, its
      presence left out: the sets of a mantle's runes are beneath the mantle. */
  lemma BeneathIsPath(thing: Thing, p: Place)
    ensures Beneath(thing, p) <==>
      PlaceNames.ThingKeys(thing) <= PlaceNames.PathOf(p) && p != Place(thing, Present)
  {
    hide PlaceNames.Chars, PlaceNames.FieldText;
    PlaceNames.KeysDiffer();
    var above, path := PlaceNames.ThingKeys(thing), PlaceNames.PathOf(p);
    if above <= path {
      assert path[0] == above[0] && path[1] == above[1];
      if thing.Rune? { assert path[2] == above[2] && path[3] == above[3]; }
    }
  }

  /** `collect_live_tags`. */
  function LiveBeneath(d: Doc, thing: Thing): set<Text>
  {
    set p, t | p in d && Beneath(thing, p) && t in LiveTags(d[p]) :: t
  }

  lemma LiveAt(d: Doc, thing: Thing, t: Text)
    ensures t in LiveBeneath(d, thing) <==> exists p :: Beneath(thing, p) && t in LiveTags(At(d, p))
  {
    hide LiveTags;
    assert LiveTags(EMPTY_SET) == {} by { EmptyHasNone(); }
    if p :| Beneath(thing, p) && t in LiveTags(At(d, p)) {
      assert p in d;
    }
    if t in LiveBeneath(d, thing) {
      var p :| p in d && Beneath(thing, p) && t in LiveTags(d[p]);
      assert At(d, p) == d[p];
    }
  }

  /** A tag the removal of `thing` sees: live in a set below it in the stored document. */
  predicate SeenAt(d: Doc, thing: Thing, p: Place, t: Text)
  {
    && PlaceNames.ThingKeys(thing) <= PlaceNames.PathOf(p) && p != Place(thing, Present)
    && t in At(d, p).adds && t !in At(d, p).removes
  }

  lemma LiveIsSeen(d: Doc, thing: Thing, t: Text)
    ensures t in LiveBeneath(d, thing) <==> exists p :: SeenAt(d, thing, p, t)
  {
    hide LiveBeneath, Beneath, PlaceNames.PathOf, PlaceNames.ThingKeys;
    LiveAt(d, thing, t);
    if p :| Beneath(thing, p) && t in LiveTags(At(d, p)) {
      BeneathIsPath(thing, p);
      assert SeenAt(d, thing, p, t);
    }
    if p :| SeenAt(d, thing, p, t) {
      BeneathIsPath(thing, p);
      assert t in LiveTags(At(d, p));
    }
  }

  lemma EmptyHasNone()
    ensures LiveTags(EMPTY_SET) == {}
  {
  }

  /** Is a thing the state lacks looked for at all? The runes of a mantle that is gone are not. */
  predicate Missed(state: State, thing: Thing)
  {
    thing !in state && (thing.Rune? ==> Mantle(thing.mantle) in state)
  }

  const ONE: Text := [0x31]

  function PresentValue(thing: Thing): Text
  {
    if thing.Glyph? then [] else ONE
  }

  function FieldWanted(r: Reading, f: Field, v: Text): Text
  {
    if f.Descriptor? then r.strip(v) else v
  }

  /** What a thing the state shows wants of one of its sets. */
  function WantOf(shown: Showing, r: Reading, p: Place): Want
  {
    match p.slot
    case Present => Appear(PresentValue(p.thing))
    case Register(f) =>
      if !Fixed(p.thing, f) && !Sparse(p.thing, f) then Keep
      else if f in shown.fields then Write(FieldWanted(r, f, shown.fields[f]))
      else Clear
    case TagSet => if p.thing.Rune? then Hold(shown.tags) else Keep
    case EdgeSet => if p.thing.Mantle? then Hold(shown.edges) else Keep
  }

  function Target(state: State, d: Doc, r: Reading, p: Place): Want
  {
    if p.thing in state then WantOf(state[p.thing], r, p)
    else if p.slot.Present? && Missed(state, p.thing) then Vanish(LiveBeneath(d, p.thing))
    else Keep
  }

  function HowOf(r: Reading, p: Place): FieldJoin
  {
    if p.slot.Register? then r.join(p.slot.field) else Conflict
  }

  /** `write`: every tag the writer can see retired, one added. */
  function Written(s: OrSet<Text>, tag: Text, v: Text): OrSet<Text>
  {
    OrSet(s.adds[tag := v], s.removes + s.adds.Keys)
  }

  function Given(s: OrSet<Text>, tag: Text, v: Text): OrSet<Text>
  {
    OrSet(s.adds[tag := v], s.removes)
  }

  /** `remove_all`. */
  function Cleared(s: OrSet<Text>): OrSet<Text>
  {
    OrSet(s.adds, s.removes + s.adds.Keys)
  }

  /** `remove`: the presence retired, and every tag seen live beneath recorded with it. */
  function Deletion(d: Doc, thing: Thing): OrSet<Text>
  {
    var s := At(d, Place(thing, Present));
    OrSet(s.adds, Cleared(s).removes + LiveBeneath(d, thing))
  }

  /** A removal keeps every add of the presence, and records its tags, what was retired before,
      and each tag live below the thing: in its own sets, or in those of a rune in it. */
  lemma DeletionRecords(d: Doc, thing: Thing)
    ensures var s, s' := At(d, Place(thing, Present)), Deletion(d, thing);
      && s'.adds == s.adds
      && forall t :: t in s'.removes <==>
        t in s.adds || t in s.removes || exists p ::
          && PlaceNames.ThingKeys(thing) <= PlaceNames.PathOf(p) && p != Place(thing, Present)
          && t in At(d, p).adds && t !in At(d, p).removes
  {
    hide LiveBeneath, PlaceNames.PathOf, PlaceNames.ThingKeys;
    forall t
      ensures t in LiveBeneath(d, thing) <==> exists p ::
        && PlaceNames.ThingKeys(thing) <= PlaceNames.PathOf(p) && p != Place(thing, Present)
        && t in At(d, p).adds && t !in At(d, p).removes
    {
      LiveIsSeen(d, thing, t);
      if p :| SeenAt(d, thing, p, t) {}
      if p :|
        && PlaceNames.ThingKeys(thing) <= PlaceNames.PathOf(p) && p != Place(thing, Present)
        && t in At(d, p).adds && t !in At(d, p).removes
      {
        assert SeenAt(d, thing, p, t);
      }
    }
  }

  /** Tags added for a value of `vs`: what `remove_value` retires. */
  function TagsFor(s: OrSet<Text>, vs: set<Text>): set<Text>
  {
    set t | t in s.adds && s.adds[t] in vs
  }

  ghost predicate MintedIn(t: Text, id: Text, lo: nat, hi: nat)
  {
    exists n: nat :: lo < n <= hi && t == Mint(id, n)
  }

  /** Which adds of `t` are not adds of `s`. */
  predicate IsNew(s: OrSet<Text>, t: OrSet<Text>, tag: Text)
  {
    tag in t.adds && tag !in s.adds
  }

  /** `t` is `s` after `sync_set`: each missing value under one new tag of its own, each
      extra value retired. */
  ghost predicate Held(s: OrSet<Text>, t: OrSet<Text>, vs: set<Text>, id: Text, lo: nat, hi: nat)
  {
    && (forall tag :: tag in s.adds ==> tag in t.adds && t.adds[tag] == s.adds[tag])
    && t.removes == s.removes + TagsFor(s, Values(s) - vs)
    && (forall tag :: IsNew(s, t, tag) ==> MintedIn(tag, id, lo, hi) && t.adds[tag] in vs - Values(s))
    && (forall v :: v in vs - Values(s) ==> exists tag :: IsNew(s, t, tag) && t.adds[tag] == v)
    && (forall tag, tag' :: IsNew(s, t, tag) && IsNew(s, t, tag') && t.adds[tag] == t.adds[tag'] ==> tag == tag')
  }

  ghost predicate WrittenTo(s: OrSet<Text>, t: OrSet<Text>, v: Text, id: Text, lo: nat, hi: nat)
  {
    exists n: nat :: lo < n <= hi && t == Written(s, Mint(id, n), v)
  }

  ghost predicate GivenTo(s: OrSet<Text>, t: OrSet<Text>, v: Text, id: Text, lo: nat, hi: nat)
  {
    exists n: nat :: lo < n <= hi && t == Given(s, Mint(id, n), v)
  }

  /** `t` is what the want makes of `s`, with counters above `lo` and up to `hi`. A value
      already shown is not written again, even on a register holding more than one; what is
      already gone is not removed again. */
  ghost predicate Edited(want: Want, s: OrSet<Text>, t: OrSet<Text>, how: FieldJoin,
                         number: Text -> Option<real>, id: Text, lo: nat, hi: nat)
  {
    match want
    case Keep => t == s
    case Write(v) => if Shown(s, how, number) == Some(v) then t == s else WrittenTo(s, t, v, id, lo, hi)
    case Clear => t == if Values(s) == {} then s else Cleared(s)
    case Hold(vs) => Held(s, t, vs, id, lo, hi)
    case Appear(v) => if Values(s) != {} then t == s else GivenTo(s, t, v, id, lo, hi)
    case Vanish(seen) => t == if Values(s) == {} then s else OrSet(s.adds, Cleared(s).removes + seen)
  }

  lemma EditedWider(want: Want, s: OrSet<Text>, t: OrSet<Text>, how: FieldJoin, number: Text -> Option<real>,
                    id: Text, lo: nat, hi: nat, lo': nat, hi': nat)
    requires Edited(want, s, t, how, number, id, lo, hi) && lo' <= lo && hi <= hi'
    ensures Edited(want, s, t, how, number, id, lo', hi')
  {
    hide Shown, Values, TagsFor, Mint, Written, Given;
    assert forall tag :: MintedIn(tag, id, lo, hi) ==> MintedIn(tag, id, lo', hi');
  }

  ghost predicate NewIn(a: Doc, b: Doc, p: Place, t: Text, v: Text)
  {
    Added(b, p, t, v) && !Added(a, p, t, v)
  }

  /** One replica's own act on its document: nothing lost; each counter from `lo` to `hi`
      used for one new add, and no other add; only tags that name something retired. */
  ghost predicate EditOf(a: Doc, b: Doc, id: Text, lo: nat, hi: nat)
  {
    && lo <= hi && Below(a, b)
    && (forall p :: p in b && p !in a ==> b[p] != EMPTY_SET)
    && (forall p, t, v :: NewIn(a, b, p, t, v) ==> MintedIn(t, id, lo, hi))
    && (forall p, q, t, v, w :: NewIn(a, b, p, t, v) && NewIn(a, b, q, t, w) ==> p == q && v == w)
    && (forall n: nat :: lo < n <= hi ==> Uses(a, b, Mint(id, n)))
    && (forall p, t :: Removed(b, p, t) && !Removed(a, p, t) ==> Names(b, t))
  }

  ghost predicate Uses(a: Doc, b: Doc, t: Text)
  {
    exists p, v :: NewIn(a, b, p, t, v)
  }

  ghost predicate Names(d: Doc, t: Text)
  {
    exists p, v :: Added(d, p, t, v)
  }

  /** No tag of the document carries a counter of `id` past `n`. */
  ghost predicate FreshAbove(d: Doc, id: Text, n: nat)
  {
    forall k: nat :: k > n ==> !HasTag(d, Mint(id, k))
  }

  /** `observe`: every place edited as the state wants it. */
  ghost predicate Observation(d: Doc, e: Doc, state: State, r: Reading, id: Text, lo: nat, hi: nat)
  {
    && EditOf(d, e, id, lo, hi)
    && forall p :: PlaceEdited(d, e, state, r, id, lo, hi, p)
  }

  ghost predicate PlaceEdited(d: Doc, e: Doc, state: State, r: Reading, id: Text, lo: nat, hi: nat, p: Place)
  {
    Edited(Target(state, d, r, p), At(d, p), At(e, p), HowOf(r, p), r.number, id, lo, hi)
  }

  // ---------------------------------------------------------------------------
  // Acts compose
  // ---------------------------------------------------------------------------

  lemma NothingDone(d: Doc, id: Text, n: nat)
    ensures EditOf(d, d, id, n, n)
  {
  }

  lemma EditThen(a: Doc, b: Doc, c: Doc, id: Text, lo: nat, mid: nat, hi: nat)
    requires ValidId(id) && EditOf(a, b, id, lo, mid) && EditOf(b, c, id, mid, hi)
    ensures EditOf(a, c, id, lo, hi)
  {
    hide Mint, Added, Removed, ValidId;
    BelowTransitive(a, b, c);
    forall p | p in c && p !in a ensures c[p] != EMPTY_SET {
      if p in b { StillNotEmpty(b, c, p); }
    }
    NewEither(a, b, c);
    forall p, t, v | NewIn(a, c, p, t, v) ensures MintedIn(t, id, lo, hi) {
      if NewIn(a, b, p, t, v) { assert MintedIn(t, id, lo, mid); } else { assert MintedIn(t, id, mid, hi); }
    }
    forall p, q, t, v, w | NewIn(a, c, p, t, v) && NewIn(a, c, q, t, w) ensures p == q && v == w {
      NewOnce(a, b, c, id, lo, mid, hi, p, q, t, v, w);
    }
    forall n: nat | lo < n <= hi ensures Uses(a, c, Mint(id, n)) {
      if n <= mid {
        assert Uses(a, b, Mint(id, n));
        var p, v :| NewIn(a, b, p, Mint(id, n), v);
        assert NewIn(a, c, p, Mint(id, n), v);
      } else {
        assert Uses(b, c, Mint(id, n));
        var p, v :| NewIn(b, c, p, Mint(id, n), v);
        assert NewIn(a, c, p, Mint(id, n), v);
      }
    }
    forall p, t | Removed(c, p, t) && !Removed(a, p, t) ensures Names(c, t) {
      if Removed(b, p, t) {
        var q, v :| Added(b, q, t, v);
        assert Added(c, q, t, v);
      }
    }
  }

  lemma StillNotEmpty(b: Doc, c: Doc, p: Place)
    requires Below(b, c) && p in b && b[p] != EMPTY_SET
    ensures c[p] != EMPTY_SET
  {
    if t :| t in b[p].adds {
      assert Added(b, p, t, b[p].adds[t]);
      assert Added(c, p, t, b[p].adds[t]);
    } else {
      assert b[p].adds == map[];
      var t :| t in b[p].removes;
      assert Removed(b, p, t);
      assert Removed(c, p, t);
    }
  }

  lemma NewEither(a: Doc, b: Doc, c: Doc)
    requires Below(a, b) && Below(b, c)
    ensures forall p, t, v :: NewIn(a, c, p, t, v) <==> (NewIn(a, b, p, t, v) || NewIn(b, c, p, t, v))
  {
    hide Added, Removed;
  }

  lemma NewOnce(a: Doc, b: Doc, c: Doc, id: Text, lo: nat, mid: nat, hi: nat,
                p: Place, q: Place, t: Text, v: Text, w: Text)
    requires ValidId(id) && EditOf(a, b, id, lo, mid) && EditOf(b, c, id, mid, hi)
    requires NewIn(a, b, p, t, v) || NewIn(b, c, p, t, v)
    requires NewIn(a, b, q, t, w) || NewIn(b, c, q, t, w)
    ensures p == q && v == w
  {
    hide Mint, Added, Removed, NewIn, ValidId, Below, Uses, Names;
    MintedApart(t, id, lo, mid, hi);
  }

  lemma MintedApart(t: Text, id: Text, lo: nat, mid: nat, hi: nat)
    requires ValidId(id)
    ensures !(MintedIn(t, id, lo, mid) && MintedIn(t, id, mid, hi))
  {
    hide Mint, ValidId;
    if MintedIn(t, id, lo, mid) && MintedIn(t, id, mid, hi) {
      var m: nat :| lo < m <= mid && t == Mint(id, m);
      var n: nat :| mid < n <= hi && t == Mint(id, n);
      MintInjective(id, m, id, n);
    }
  }

  /** After an act no tag of one's own lies past one's counter, if none did before. */
  lemma StaysFresh(a: Doc, b: Doc, id: Text, lo: nat, hi: nat)
    requires ValidId(id) && EditOf(a, b, id, lo, hi) && FreshAbove(a, id, lo)
    ensures FreshAbove(b, id, hi)
  {
    hide Mint, Added, Removed, ValidId;
    forall k: nat | k > hi ensures !HasTag(b, Mint(id, k)) {
      var t := Mint(id, k);
      MintedApart(t, id, lo, hi, k);
      assert MintedIn(t, id, hi, k);
      assert !HasTag(a, t);
      forall p, v ensures !Added(b, p, t, v) {
        assert Added(b, p, t, v) ==> Added(a, p, t, v) || NewIn(a, b, p, t, v);
      }
      assert !Names(b, t);
    }
  }

}
