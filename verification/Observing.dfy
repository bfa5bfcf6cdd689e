/** What a document shows and what an observation does to each set, said of the sets themselves. */
module Observing {
  import opened Bytes
  import opened Codec
  import opened Docs
  import opened Edits
  import opened Lens
  import opened Options
  import opened OrSets
  import PlaceNames
  import Policies
  import opened Tags
  import Validity

  /** A field a document may hold for a thing is one that every state has, or one it may leave
      out, and never both. */
  lemma FieldsCovered(thing: Thing, f: Field)
    requires Named(thing)
    ensures PlaceAllowed(Place(thing, Register(f))) <==> Fixed(thing, f) || Sparse(thing, f)
    ensures !(Fixed(thing, f) && Sparse(thing, f))
  {
  }

  lemma Looked(d: Doc, e: Doc, state: State, r: Reading, id: Text, lo: nat, hi: nat, p: Place)
    requires Observation(d, e, state, r, id, lo, hi)
    ensures PlaceEdited(d, e, state, r, id, lo, hi, p)
  {
  }

  /** Of a thing the state lacks only the presence is ever edited; and with its mantle gone too,
      not even that of a rune. */
  lemma AbsentKeepsSets(d: Doc, e: Doc, state: State, r: Reading, id: Text, lo: nat, hi: nat, p: Place)
    requires Observation(d, e, state, r, id, lo, hi) && p.thing !in state
    requires p.slot != Present || !Alive(d, p.thing) || (p.thing.Rune? && Mantle(p.thing.mantle) !in state)
    ensures At(e, p) == At(d, p)
  {
    hide Observation, LiveBeneath, Values;
    Looked(d, e, state, r, id, lo, hi, p);
  }

  /** A thing the state lacks is removed: its presence retired, and with it every tag live below
      it before the observation recorded, its own sets' and its runes'. */
  lemma AbsentIsRemoved(d: Doc, e: Doc, state: State, r: Reading, id: Text, lo: nat, hi: nat, thing: Thing)
    requires Observation(d, e, state, r, id, lo, hi) && thing !in state && Alive(d, thing)
    requires thing.Rune? ==> Mantle(thing.mantle) in state
    ensures !Alive(e, thing)
    ensures var s, t := At(d, Place(thing, Present)), At(e, Place(thing, Present));
      && t.adds == s.adds
      && forall x :: x in t.removes <==>
        x in s.adds || x in s.removes || exists p ::
          && PlaceNames.ThingKeys(thing) <= PlaceNames.PathOf(p) && p != Place(thing, Present)
          && x in At(d, p).adds && x !in At(d, p).removes
  {
    hide Observation, LiveBeneath, Values, PlaceNames.PathOf, PlaceNames.ThingKeys;
    Looked(d, e, state, r, id, lo, hi, Place(thing, Present));
    ClearedShows(At(d, Place(thing, Present)), LiveBeneath(d, thing));
    DeletionRecords(d, thing);
  }

  /** A thing the state shows is present; only one that was not gets an add, one of its own. */
  lemma ShownIsPresent(d: Doc, e: Doc, state: State, r: Reading, id: Text, lo: nat, hi: nat, thing: Thing)
    requires Observation(d, e, state, r, id, lo, hi) && FreshAbove(d, id, lo) && thing in state
    ensures Alive(e, thing)
    ensures var s, t := At(d, Place(thing, Present)), At(e, Place(thing, Present));
      if Alive(d, thing) then t == s
      else exists n: nat ::
        lo < n <= hi && t == OrSet(s.adds[Mint(id, n) := if thing.Glyph? then [] else [0x31]], s.removes)
  {
    hide Observation, Values, FreshAbove, Mint;
    var p := Place(thing, Present);
    Looked(d, e, state, r, id, lo, hi, p);
    PresentAfter(d, e, state, r, id, lo, hi, thing);
    if !Alive(d, thing) {
      var n: nat :| lo < n <= hi && At(e, p) == Given(At(d, p), Mint(id, n), PresentValue(thing));
    }
  }

  /** A field of a thing the state shows: left alone when it reads as the state has it, a value
      under a tag of its own in place of all that were there when it does not, and retired when
      the state leaves it out. */
  lemma FieldEdited(d: Doc, e: Doc, state: State, r: Reading, id: Text, lo: nat, hi: nat, thing: Thing, f: Field)
    requires Observation(d, e, state, r, id, lo, hi) && thing in state && PlaceAllowed(Place(thing, Register(f)))
    ensures var s, t := At(d, Place(thing, Register(f))), At(e, Place(thing, Register(f)));
      if f in state[thing].fields then
        var v := if f == Descriptor then r.strip(state[thing].fields[f]) else state[thing].fields[f];
        if FieldShown(d, r, thing, f) == Some(v) then t == s
        else exists n: nat :: lo < n <= hi && t == OrSet(s.adds[Mint(id, n) := v], s.removes + s.adds.Keys)
      else t == if Values(s) == {} then s else OrSet(s.adds, s.removes + s.adds.Keys)
  {
    hide Observation, Values, Mint;
    Looked(d, e, state, r, id, lo, hi, Place(thing, Register(f)));
  }

  /** A rune's tags and a mantle's edges become those of the state: a tag of its own for each
      value that was missing, and what held an extra value retired. */
  lemma SetEdited(d: Doc, e: Doc, state: State, r: Reading, id: Text, lo: nat, hi: nat, p: Place)
    requires Observation(d, e, state, r, id, lo, hi) && FreshAbove(d, id, lo) && p.thing in state && PlaceAllowed(p)
    requires p.slot == TagSet || p.slot == EdgeSet
    ensures var s, t := At(d, p), At(e, p);
      var vs := if p.slot == TagSet then state[p.thing].tags else state[p.thing].edges;
      && Values(t) == vs
      && (forall x :: x in s.adds ==> x in t.adds && t.adds[x] == s.adds[x])
      && (forall x :: x in t.removes <==> x in s.removes || (x in s.adds && s.adds[x] in Values(s) && s.adds[x] !in vs))
      && |t.adds.Keys - s.adds.Keys| == |vs - Values(s)|
  {
    hide Observation, Values, Mint, FreshAbove;
    Looked(d, e, state, r, id, lo, hi, p);
    FreshAt(d, id, lo, p);
    var vs := if p.slot == TagSet then state[p.thing].tags else state[p.thing].edges;
    HeldShows(At(d, p), At(e, p), vs, id, lo, hi);
    OneTagEach(At(d, p), At(e, p), vs, id, lo, hi);
  }

  lemma OneTagEach(s: OrSet<Text>, t: OrSet<Text>, vs: set<Text>, id: Text, lo: nat, hi: nat)
    requires Held(s, t, vs, id, lo, hi)
    ensures |t.adds.Keys - s.adds.Keys| == |vs - Values(s)|
  {
    hide Values, Mint;
    var added, missing := t.adds.Keys - s.adds.Keys, vs - Values(s);
    forall x ensures x in added <==> IsNew(s, t, x) {}
    SameSize(added, missing, t.adds);
  }

  lemma {:induction false} SameSize(xs: set<Text>, ys: set<Text>, m: map<Text, Text>)
    requires xs <= m.Keys && forall x :: x in xs ==> m[x] in ys
    requires forall y :: y in ys ==> exists x :: x in xs && m[x] == y
    requires forall x, x' :: x in xs && x' in xs && m[x] == m[x'] ==> x == x'
    ensures |xs| == |ys|
  {
    if x :| x in xs {
      SameSize(xs - {x}, ys - {m[x]}, m);
    }
  }

  // ---------------------------------------------------------------------------
  // What a document shows
  // ---------------------------------------------------------------------------

  ghost predicate HasLive(d: Doc, p: Place)
  {
    exists t :: t in At(d, p).adds && t !in At(d, p).removes
  }

  lemma LiveShows(d: Doc, p: Place)
    ensures HasLive(d, p) <==> Values(At(d, p)) != {}
  {
    var s := At(d, p);
    if t :| t in s.adds && t !in s.removes { assert s.adds[t] in Values(s); }
    if v :| v in Values(s) {
      var t :| t in s.adds && t !in s.removes && s.adds[t] == v;
    }
  }

  /** A thing is shown when its presence has a live tag, its mantle's has if it is a rune, and its
      declaration has if it is a glyph. */
  lemma ShownIff(d: Doc, r: Reading, thing: Thing)
    ensures thing in Flatten(d, r) <==>
      && HasLive(d, Place(thing, Present))
      && (thing.Rune? ==> HasLive(d, Place(Mantle(thing.mantle), Present)))
      && (thing.Glyph? ==> HasLive(d, Place(thing, Register(Descriptor))))
  {
    hide Values, Flatten, HasLive;
    FlattenAt(d, r, thing);
    LiveShows(d, Place(thing, Present));
    LiveShows(d, Place(thing, Register(Descriptor)));
    if thing.Rune? { LiveShows(d, Place(Mantle(thing.mantle), Present)); }
  }

  /** What is shown of a field: nothing when the thing may not have it; of a glyph's declaration
      the least live value; of what every mantle and rune has the value read, or null; and of what
      may be left out the value read, unless it is an optional one and the empty list. */
  lemma FieldReads(d: Doc, r: Reading, thing: Thing, f: Field)
    requires thing in Flatten(d, r) && Named(thing)
    ensures var fields, x := Flatten(d, r)[thing].fields, FieldShown(d, r, thing, f);
      if !PlaceAllowed(Place(thing, Register(f))) then f !in fields
      else if f == Descriptor then
        f in fields && IsLeast(fields[f], Values(At(d, Place(thing, Register(f)))))
      else if Fixed(thing, f) then f in fields && fields[f] == if x.Some? then x.value else [0]
      else if f == Rules || f == Relations then
        (f in fields <==> x.Some? && x != Some([7, 0])) && (f in fields ==> x == Some(fields[f]))
      else (f in fields <==> x.Some?) && (f in fields ==> x == Some(fields[f]))
  {
    hide Values, Flatten, Edits.Flat, FieldShown;
    FlattenAt(d, r, thing);
    FlatFields(d, r, thing, f);
    FieldsCovered(thing, f);
  }

  /** What a document fit to merge shows, `observe` takes. */
  lemma ShownIsTaken(d: Doc, r: Reading)
    requires Validate(d)
    ensures WellFormed(Flatten(d, r))
  {
    hide Values, Flatten, Edits.Flat, FieldShown, SetAllowed;
    var state := Flatten(d, r);
    forall thing | thing in state
      ensures Named(thing) && (thing.Rune? ==> Mantle(thing.mantle) in state)
      ensures !thing.Rune? ==> state[thing].tags == {}
      ensures !thing.Mantle? ==> state[thing].edges == {}
    {
      ShownThing(d, r, thing);
    }
    forall thing, f | thing in state
      ensures Fixed(thing, f) ==> f in state[thing].fields
      ensures f in state[thing].fields ==> Fixed(thing, f) || Sparse(thing, f)
      ensures f in state[thing].fields && Optional(thing, f) ==> state[thing].fields[f] != EMPTY_LIST
    {
      FieldReads(d, r, thing, f);
      FieldsCovered(thing, f);
    }
  }

  lemma ShownThing(d: Doc, r: Reading, thing: Thing)
    requires Validate(d) && thing in Flatten(d, r)
    ensures Named(thing) && (thing.Rune? ==> Mantle(thing.mantle) in Flatten(d, r))
    ensures !thing.Rune? ==> Flatten(d, r)[thing].tags == {}
    ensures !thing.Mantle? ==> Flatten(d, r)[thing].edges == {}
  {
    hide Values, Flatten, SetAllowed, HasLive;
    FlattenAt(d, r, thing);
    assert Place(thing, Present) in d by { NothingLive(d, Place(thing, Present)); }
    ShownIff(d, r, thing);
    if thing.Rune? { ShownIff(d, r, Mantle(thing.mantle)); }
  }

  lemma NothingLive(d: Doc, p: Place)
    ensures p !in d ==> Values(At(d, p)) == {}
  {
  }

  /** And when declarations stay canonical maps without their `source`, what is then recorded
      leaves a document fit to merge. */
  lemma ShownIsCanonical(d: Doc, r: Reading)
    requires Validate(d)
    requires forall v :: Validity.FieldGood(Descriptor, v) ==> Validity.FieldGood(Descriptor, r.strip(v))
    ensures Validity.Canonical(Flatten(d, r), r)
  {
    hide Values, Flatten, Edits.Flat, IsCanonical, FieldShown, PlaceAllowed, SetAllowed, Fixed;
    var state := Flatten(d, r);
    forall thing, f | thing in state && f in state[thing].fields
      ensures Validity.FieldGood(f, FieldWanted(r, f, state[thing].fields[f]))
    {
      ShownThing(d, r, thing);
      ShownField(d, r, thing, f);
    }
    forall thing, v | thing in state && (v in state[thing].tags || v in state[thing].edges) ensures IsCanonical(v) {
      ShownValue(d, r, thing, v);
    }
  }

  lemma ValueIsCanonical(d: Doc, p: Place, v: Text)
    requires Validate(d) && p.slot != Present && v in Values(At(d, p))
    ensures IsCanonical(v) && (p.slot == Register(Descriptor) ==> v != [] && v[0] == MAP)
  {
    hide IsCanonical;
    NothingLive(d, p);
  }

  lemma ShownValue(d: Doc, r: Reading, thing: Thing, v: Text)
    requires Validate(d) && thing in Flatten(d, r)
    requires v in Flatten(d, r)[thing].tags || v in Flatten(d, r)[thing].edges
    ensures IsCanonical(v)
  {
    hide IsCanonical, Values, Flatten, Validate;
    FlattenAt(d, r, thing);
    ValueIsCanonical(d, if v in Flatten(d, r)[thing].tags then Place(thing, TagSet) else Place(thing, EdgeSet), v);
  }

  lemma ShownField(d: Doc, r: Reading, thing: Thing, f: Field)
    requires Validate(d) && thing in Flatten(d, r) && Named(thing) && f in Flatten(d, r)[thing].fields
    requires forall v :: Validity.FieldGood(Descriptor, v) ==> Validity.FieldGood(Descriptor, r.strip(v))
    ensures Validity.FieldGood(f, FieldWanted(r, f, Flatten(d, r)[thing].fields[f]))
  {
    hide IsCanonical, Values, Flatten, Validate;
    var v := Flatten(d, r)[thing].fields[f];
    var p := Place(thing, Register(f));
    FieldReads(d, r, thing, f);
    NullIsCanonical();
    FromRegister(d, r, p);
    if v in Values(At(d, p)) { ValueIsCanonical(d, p, v); }
  }

  lemma FromRegister(d: Doc, r: Reading, p: Place)
    requires p.slot.Register?
    ensures FieldShown(d, r, p.thing, p.slot.field).Some? ==>
      FieldShown(d, r, p.thing, p.slot.field).value in Values(At(d, p))
  {
    Policies.ShownIsLive(At(d, p), r.join(p.slot.field), r.number);
  }

  lemma NullIsCanonical()
    ensures IsCanonical([0])
  {
    var bytes: Text := [0];
    assert bytes[1..] == [];
    assert Decode(bytes) == Some(Null);
  }
}
