/** Observing and flattening: what observing one's own flattened document changes, and what
    flattening shows after an observation. */
module Lens {
  import opened Bytes
  import opened Docs
  import opened Edits
  import opened Options
  import opened OrSets
  import opened Policies
  import opened Tags

  // ---------------------------------------------------------------------------
  // One set, before and after
  // ---------------------------------------------------------------------------

  /** Counters past `lo` name nothing in this set. */
  ghost predicate FreshIn(s: OrSet<Text>, id: Text, lo: nat)
  {
    forall k: nat :: k > lo ==> Mint(id, k) !in s.adds && Mint(id, k) !in s.removes
  }

  lemma FreshAt(d: Doc, id: Text, lo: nat, p: Place)
    requires FreshAbove(d, id, lo)
    ensures FreshIn(At(d, p), id, lo)
  {
    hide Mint;
    if p in d {
      forall k: nat | k > lo ensures Mint(id, k) !in d[p].adds && Mint(id, k) !in d[p].removes {
        var t := Mint(id, k);
        assert !HasTag(d, t);
        assert t in d[p].adds ==> Added(d, p, t, d[p].adds[t]);
        assert t in d[p].removes ==> Removed(d, p, t);
      }
    }
  }

  lemma WrittenShows(s: OrSet<Text>, tag: Text, v: Text)
    requires tag !in s.adds && tag !in s.removes
    ensures Values(Written(s, tag, v)) == {v}
  {
    var t := Written(s, tag, v);
    assert tag in t.adds && tag !in t.removes && t.adds[tag] == v;
  }

  lemma GivenShows(s: OrSet<Text>, tag: Text, v: Text)
    requires tag !in s.removes
    ensures v in Values(Given(s, tag, v))
  {
    var t := Given(s, tag, v);
    assert tag in t.adds && tag !in t.removes && t.adds[tag] == v;
  }

  lemma ClearedShows(s: OrSet<Text>, seen: set<Text>)
    ensures Values(OrSet(s.adds, Cleared(s).removes + seen)) == {} && Values(Cleared(s)) == {}
    ensures Values(s) != {} ==> Cleared(s) != s && OrSet(s.adds, Cleared(s).removes + seen) != s
  {
    if v :| v in Values(s) {
      var t :| t in s.adds && t !in s.removes && s.adds[t] == v;
      assert t in Cleared(s).removes;
    }
  }

  lemma HeldShows(s: OrSet<Text>, t: OrSet<Text>, vs: set<Text>, id: Text, lo: nat, hi: nat)
    requires Held(s, t, vs, id, lo, hi) && FreshIn(s, id, lo)
    ensures Values(t) == vs
  {
    hide Mint;
    forall v ensures v in Values(t) <==> v in vs {
      if v in vs {
        if v in Values(s) {
          var tag :| tag in s.adds && tag !in s.removes && s.adds[tag] == v;
          assert tag in t.adds && tag !in t.removes && t.adds[tag] == v;
        } else {
          assert v in vs - Values(s);
          var tag :| IsNew(s, t, tag) && t.adds[tag] == v;
          assert MintedIn(tag, id, lo, hi);
          assert tag !in t.removes;
        }
      }
      if v in Values(t) {
        var tag :| tag in t.adds && tag !in t.removes && t.adds[tag] == v;
        if tag in s.adds {
          assert v in Values(s);
          assert tag !in TagsFor(s, Values(s) - vs);
        } else {
          assert IsNew(s, t, tag);
        }
      }
    }
  }

  /** A set that already holds exactly what is wanted is left alone. */
  lemma HeldSame(s: OrSet<Text>, t: OrSet<Text>, id: Text, lo: nat, hi: nat)
    requires Held(s, t, Values(s), id, lo, hi)
    ensures t == s
  {
    hide Values;
    assert Values(s) - Values(s) == {};
    assert TagsFor(s, {}) == {};
    assert forall tag :: tag in t.adds ==> !IsNew(s, t, tag);
    assert t.adds == s.adds;
  }

  lemma WriteMoves(s: OrSet<Text>, t: OrSet<Text>, v: Text, id: Text, lo: nat, hi: nat)
    requires WrittenTo(s, t, v, id, lo, hi) && FreshIn(s, id, lo)
    ensures t != s && Values(t) == {v}
  {
    hide Mint;
    var n: nat :| lo < n <= hi && t == Written(s, Mint(id, n), v);
    WrittenShows(s, Mint(id, n), v);
  }

  lemma GiveMoves(s: OrSet<Text>, t: OrSet<Text>, v: Text, id: Text, lo: nat, hi: nat)
    requires GivenTo(s, t, v, id, lo, hi) && FreshIn(s, id, lo)
    ensures v in Values(t)
  {
    hide Mint;
    var n: nat :| lo < n <= hi && t == Given(s, Mint(id, n), v);
    GivenShows(s, Mint(id, n), v);
  }

  // ---------------------------------------------------------------------------
  // GetPut
  // ---------------------------------------------------------------------------

  /** Everything shown is settled: fixed registers hold a live value, no optional one shows
      the default it stands for, and a glyph's declaration reads the same with the policy as
      without and carries no `source`. */
  ghost predicate Steady(d: Doc, r: Reading)
  {
    forall thing :: Alive(d, thing) && InParent(d, thing) ==> SteadyThing(d, r, thing)
  }

  ghost predicate SteadyThing(d: Doc, r: Reading, thing: Thing)
  {
    && (forall f :: Fixed(thing, f) ==> Values(At(d, Place(thing, Register(f)))) != {})
    && (forall f :: Optional(thing, f) ==> FieldShown(d, r, thing, f) != Some(EMPTY_LIST))
    && (thing.Glyph? ==> SteadyGlyph(d, r, thing))
  }

  ghost predicate SteadyGlyph(d: Doc, r: Reading, thing: Thing)
  {
    var vs := Values(At(d, Place(thing, Register(Descriptor))));
    vs != {} && FieldShown(d, r, thing, Descriptor) == Some(r.strip(Least(vs)))
  }

  lemma SteadyRegister(d: Doc, r: Reading, thing: Thing, f: Field)
    requires Emitted(d, thing) && SteadyThing(d, r, thing)
    ensures match Target(Flatten(d, r), d, r, Place(thing, Register(f)))
      case Keep => true
      case Write(v) => FieldShown(d, r, thing, f) == Some(v)
      case Clear => Values(At(d, Place(thing, Register(f)))) == {}
      case _ => false
  {
    hide Flatten, Shown, Values, Least, EMPTY_LIST;
    FlattenAt(d, r, thing);
    FlatFields(d, r, thing, f);
    ShownIsLive(At(d, Place(thing, Register(f))), r.join(f), r.number);
  }

  lemma SteadyPresent(d: Doc, r: Reading, thing: Thing)
    requires Steady(d, r)
    ensures match Target(Flatten(d, r), d, r, Place(thing, Present))
      case Keep => true
      case Appear(_) => Alive(d, thing)
      case Vanish(_) => !Alive(d, thing)
      case _ => false
  {
    hide Flatten, FieldShown, LiveBeneath;
    FlattenAt(d, r, thing);
    if thing.Rune? { FlattenAt(d, r, Mantle(thing.mantle)); }
  }

  lemma SteadyHolds(d: Doc, r: Reading, thing: Thing, slot: Slot)
    requires slot.TagSet? || slot.EdgeSet?
    ensures match Target(Flatten(d, r), d, r, Place(thing, slot))
      case Keep => true
      case Hold(vs) => vs == Values(At(d, Place(thing, slot)))
      case _ => false
  {
    hide Flatten, FieldFlat, Values;
    FlattenAt(d, r, thing);
  }

  lemma SteadyPlace(d: Doc, e: Doc, r: Reading, id: Text, lo: nat, hi: nat, p: Place)
    requires Steady(d, r) && PlaceEdited(d, e, Flatten(d, r), r, id, lo, hi, p)
    ensures At(e, p) == At(d, p)
  {
    hide Target, Flatten, Shown, Values, LiveBeneath, Held, SteadyThing;
    match p.slot {
      case Present => SteadyPresent(d, r, p.thing);
      case Register(f) =>
        if p.thing in Flatten(d, r) {
          FlattenAt(d, r, p.thing);
          SteadyRegister(d, r, p.thing, f);
        } else {
          NotEmittedKeeps(d, r, p);
        }
      case _ =>
        SteadyHolds(d, r, p.thing, p.slot);
        if Target(Flatten(d, r), d, r, p).Hold? { HeldSame(At(d, p), At(e, p), id, lo, hi); }
    }
  }

  lemma NotEmittedKeeps(d: Doc, r: Reading, p: Place)
    requires p.thing !in Flatten(d, r) && p.slot != Present
    ensures Target(Flatten(d, r), d, r, p) == Keep
  {
    hide Flatten;
  }

  /** An act that leaves every set as it was leaves the document as it was, and mints nothing. */
  lemma Unmoved(d: Doc, e: Doc, id: Text, lo: nat, hi: nat)
    requires EditOf(d, e, id, lo, hi) && forall p :: At(e, p) == At(d, p)
    ensures e == d && hi == lo
  {
    hide Mint;
    forall p | p in e ensures p in d {
      assert At(e, p) == At(d, p);
    }
    assert forall p | p in d :: p in e && At(e, p) == At(d, p);
    assert e == d;
    assert !Uses(d, e, Mint(id, hi));
  }

  lemma UnsteadyMoves(d: Doc, e: Doc, r: Reading, id: Text, lo: nat, hi: nat, thing: Thing)
    requires Observation(d, e, Flatten(d, r), r, id, lo, hi) && FreshAbove(d, id, lo)
    requires Alive(d, thing) && InParent(d, thing) && !SteadyThing(d, r, thing)
    ensures e != d
  {
    hide Flatten, EditOf, FreshAbove, SteadyThing, Shown, Values;
    FlattenAt(d, r, thing);
    if !Emitted(d, thing) {
      VanishMoves(d, e, r, id, lo, hi, thing);
    } else {
      var f := UnsteadyField(d, r, thing);
      var p := Place(thing, Register(f));
      FreshAt(d, id, lo, p);
      FieldMoves(d, e, r, id, lo, hi, thing, f);
    }
  }

  lemma VanishMoves(d: Doc, e: Doc, r: Reading, id: Text, lo: nat, hi: nat, thing: Thing)
    requires Observation(d, e, Flatten(d, r), r, id, lo, hi)
    requires Alive(d, thing) && InParent(d, thing) && !Emitted(d, thing)
    ensures e != d
  {
    hide Flatten, EditOf, LiveBeneath, Values;
    FlattenAt(d, r, thing);
    var p := Place(thing, Present);
    assert PlaceEdited(d, e, Flatten(d, r), r, id, lo, hi, p);
    ClearedShows(At(d, p), LiveBeneath(d, thing));
  }

  /** A field that will not read back as it stands. */
  ghost predicate Unsettled(d: Doc, r: Reading, thing: Thing, f: Field)
  {
    || (Fixed(thing, f) && !f.Descriptor? && Values(At(d, Place(thing, Register(f)))) == {})
    || (Optional(thing, f) && FieldShown(d, r, thing, f) == Some(EMPTY_LIST))
    || (thing.Glyph? && f.Descriptor? && !SteadyGlyph(d, r, thing))
  }

  lemma UnsteadyField(d: Doc, r: Reading, thing: Thing) returns (f: Field)
    requires Emitted(d, thing) && !SteadyThing(d, r, thing)
    ensures Unsettled(d, r, thing, f)
  {
    hide Values, Shown, FieldShown;
    if thing.Glyph? {
      f := Descriptor;
    } else if exists f :: Fixed(thing, f) && Values(At(d, Place(thing, Register(f)))) == {} {
      f :| Fixed(thing, f) && Values(At(d, Place(thing, Register(f)))) == {};
    } else {
      f :| Optional(thing, f) && FieldShown(d, r, thing, f) == Some(EMPTY_LIST);
    }
  }

  lemma FieldMoves(d: Doc, e: Doc, r: Reading, id: Text, lo: nat, hi: nat, thing: Thing, f: Field)
    requires Observation(d, e, Flatten(d, r), r, id, lo, hi) && Emitted(d, thing)
    requires FreshIn(At(d, Place(thing, Register(f))), id, lo) && Unsettled(d, r, thing, f)
    ensures e != d
  {
    hide Flatten, EditOf, Shown, Values, FreshIn, WrittenTo, Least;
    var p := Place(thing, Register(f));
    FlattenAt(d, r, thing);
    FlatFields(d, r, thing, f);
    ShownIsLive(At(d, p), r.join(f), r.number);
    assert PlaceEdited(d, e, Flatten(d, r), r, id, lo, hi, p);
    match Target(Flatten(d, r), d, r, p) {
      case Write(v) => WriteMoves(At(d, p), At(e, p), v, id, lo, hi);
      case _ => ClearedShows(At(d, p), {});
    }
  }

  /** GetPut: observing what one's own document shows changes nothing and mints no tag,
      unresolved conflicts included, exactly when the document is steady. */
  lemma GetPut(d: Doc, e: Doc, r: Reading, id: Text, lo: nat, hi: nat)
    requires Observation(d, e, Flatten(d, r), r, id, lo, hi) && FreshAbove(d, id, lo)
    ensures (e == d && hi == lo) <==> Steady(d, r)
  {
    hide Flatten, SteadyThing, EditOf, FreshAbove, PlaceEdited;
    if Steady(d, r) {
      forall p ensures At(e, p) == At(d, p) {
        assert PlaceEdited(d, e, Flatten(d, r), r, id, lo, hi, p);
        SteadyPlace(d, e, r, id, lo, hi, p);
      }
      Unmoved(d, e, id, lo, hi);
    } else {
      var thing :| Alive(d, thing) && InParent(d, thing) && !SteadyThing(d, r, thing);
      UnsteadyMoves(d, e, r, id, lo, hi, thing);
    }
  }

  /** Not every valid document is steady: a mantle that is only declared present has no id and
      no domain yet, and observing what it shows would write both. */
  lemma BareMantleMoves(d: Doc, r: Reading, tag: Text)
    requires tag != [] && d == map[Place(Mantle([109]), Present) := OrSet(map[tag := ONE], {})]
    ensures Validate(d) && !Steady(d, r)
  {
    var m := Mantle([109]);
    var present := At(d, Place(m, Present));
    assert tag in present.adds && ONE in Values(present);
    assert Fixed(m, Id) && Values(At(d, Place(m, Register(Id)))) == {};
    assert Alive(d, m) && InParent(d, m) && !SteadyThing(d, r, m);
  }

  // ---------------------------------------------------------------------------
  // PutGet
  // ---------------------------------------------------------------------------

  /** A state as it is recorded: glyph declarations without their `source`. */
  function Recorded(state: State, r: Reading): State
  {
    map thing | thing in state :: state[thing].(
      fields := map f | f in state[thing].fields :: FieldWanted(r, f, state[thing].fields[f]))
  }

  /** Every declaration the policy already shows as wanted is also the one read without it. */
  ghost predicate PlainlyRead(d: Doc, state: State, r: Reading)
  {
    forall thing :: thing in state && thing.Glyph? && Descriptor in state[thing].fields ==>
      GlyphPlain(d, r, thing, r.strip(state[thing].fields[Descriptor]))
  }

  ghost predicate GlyphPlain(d: Doc, r: Reading, thing: Thing, v: Text)
  {
    var vs := Values(At(d, Place(thing, Register(Descriptor))));
    FieldShown(d, r, thing, Descriptor) == Some(v) && vs != {} ==> Least(vs) == v
  }

  /** A register after an observation: what was wanted is shown; what was not wanted is gone. */
  lemma RegisterAfter(d: Doc, e: Doc, state: State, r: Reading, id: Text, lo: nat, hi: nat, thing: Thing, f: Field)
    requires PlaceEdited(d, e, state, r, id, lo, hi, Place(thing, Register(f))) && FreshAbove(d, id, lo)
    requires thing in state && (Fixed(thing, f) || Sparse(thing, f))
    ensures f in state[thing].fields ==>
      FieldShown(e, r, thing, f) == Some(FieldWanted(r, f, state[thing].fields[f]))
    ensures f !in state[thing].fields ==> FieldShown(e, r, thing, f) == None
  {
    hide FreshAbove, WrittenTo, Shown, Values, FreshIn, Fixed, Sparse;
    var p := Place(thing, Register(f));
    var s, t := At(d, p), At(e, p);
    FreshAt(d, id, lo, p);
    ShownIsLive(s, r.join(f), r.number);
    ShownIsLive(t, r.join(f), r.number);
    if f in state[thing].fields {
      var v := FieldWanted(r, f, state[thing].fields[f]);
      if Shown(s, r.join(f), r.number) != Some(v) { WriteMoves(s, t, v, id, lo, hi); }
    } else {
      ClearedShows(s, {});
    }
  }

  lemma PresentAfter(d: Doc, e: Doc, state: State, r: Reading, id: Text, lo: nat, hi: nat, thing: Thing)
    requires PlaceEdited(d, e, state, r, id, lo, hi, Place(thing, Present)) && FreshAbove(d, id, lo)
    ensures thing in state ==> Alive(e, thing)
    ensures Missed(state, thing) ==> !Alive(e, thing)
  {
    hide FreshAbove, GivenTo, Values, FreshIn, LiveBeneath;
    var p := Place(thing, Present);
    FreshAt(d, id, lo, p);
    if thing in state {
      if Values(At(d, p)) == {} { GiveMoves(At(d, p), At(e, p), PresentValue(thing), id, lo, hi); }
    } else if Missed(state, thing) {
      ClearedShows(At(d, p), LiveBeneath(d, thing));
    }
  }

  lemma DescriptorAfter(d: Doc, e: Doc, state: State, r: Reading, id: Text, lo: nat, hi: nat, thing: Thing)
    requires Observation(d, e, state, r, id, lo, hi) && FreshAbove(d, id, lo) && WellFormed(state)
    requires thing in state && thing.Glyph?
    ensures Values(At(e, Place(thing, Register(Descriptor)))) != {}
    ensures FieldFlat(e, r, thing, Descriptor) == Some(r.strip(state[thing].fields[Descriptor])) <==>
      GlyphPlain(d, r, thing, r.strip(state[thing].fields[Descriptor]))
  {
    hide FreshAbove, EditOf, WrittenTo, Shown, Values, FreshIn, Least;
    var p := Place(thing, Register(Descriptor));
    var s, t := At(d, p), At(e, p);
    assert Fixed(thing, Descriptor) && Descriptor in state[thing].fields;
    var v := r.strip(state[thing].fields[Descriptor]);
    FreshAt(d, id, lo, p);
    ShownIsLive(s, r.join(Descriptor), r.number);
    assert PlaceEdited(d, e, state, r, id, lo, hi, p);
    if Shown(s, r.join(Descriptor), r.number) != Some(v) {
      WriteMoves(s, t, v, id, lo, hi);
      LeastOfOne(v);
    }
  }

  lemma LeastOfOne(v: Text)
    ensures Least({v}) == v
  {
  }

  lemma EmittedAfter(d: Doc, e: Doc, state: State, r: Reading, id: Text, lo: nat, hi: nat, thing: Thing)
    requires Observation(d, e, state, r, id, lo, hi) && FreshAbove(d, id, lo) && WellFormed(state)
    ensures Emitted(e, thing) <==> thing in state
  {
    hide FreshAbove, EditOf, PlaceEdited, Values;
    assert PlaceEdited(d, e, state, r, id, lo, hi, Place(thing, Present));
    PresentAfter(d, e, state, r, id, lo, hi, thing);
    if thing.Rune? {
      var m := Mantle(thing.mantle);
      assert PlaceEdited(d, e, state, r, id, lo, hi, Place(m, Present));
      PresentAfter(d, e, state, r, id, lo, hi, m);
    }
    if thing in state && thing.Glyph? {
      DescriptorAfter(d, e, state, r, id, lo, hi, thing);
    }
  }

  lemma SetsAfter(d: Doc, e: Doc, state: State, r: Reading, id: Text, lo: nat, hi: nat, thing: Thing)
    requires Observation(d, e, state, r, id, lo, hi) && FreshAbove(d, id, lo) && WellFormed(state) && thing in state
    ensures Flat(e, r, thing).tags == state[thing].tags && Flat(e, r, thing).edges == state[thing].edges
  {
    hide FreshAbove, EditOf, Held, Values, FreshIn, FieldFlat, FieldsHeld, FixedFields, Sparse, Fixed;
    var p, q := Place(thing, TagSet), Place(thing, EdgeSet);
    FreshAt(d, id, lo, p);
    FreshAt(d, id, lo, q);
    assert PlaceEdited(d, e, state, r, id, lo, hi, p) && PlaceEdited(d, e, state, r, id, lo, hi, q);
    if thing.Rune? { HeldShows(At(d, p), At(e, p), state[thing].tags, id, lo, hi); }
    if thing.Mantle? { HeldShows(At(d, q), At(e, q), state[thing].edges, id, lo, hi); }
  }

  /** One field after an observation reads as the state has it, a glyph's declaration aside. */
  lemma FieldAfter(d: Doc, e: Doc, state: State, r: Reading, id: Text, lo: nat, hi: nat, thing: Thing, f: Field)
    requires Observation(d, e, state, r, id, lo, hi) && FreshAbove(d, id, lo) && WellFormed(state) && thing in state
    requires !f.Descriptor?
    ensures f in Flat(e, r, thing).fields <==> f in state[thing].fields
    ensures f in state[thing].fields ==> Flat(e, r, thing).fields[f] == FieldWanted(r, f, state[thing].fields[f])
  {
    hide FreshAbove, EditOf, PlaceEdited, Shown, Flat, EMPTY_LIST;
    FlatFields(e, r, thing, f);
    if Fixed(thing, f) || Sparse(thing, f) {
      assert PlaceEdited(d, e, state, r, id, lo, hi, Place(thing, Register(f)));
      RegisterAfter(d, e, state, r, id, lo, hi, thing, f);
    }
  }

  lemma DescriptorShownAfter(d: Doc, e: Doc, state: State, r: Reading, id: Text, lo: nat, hi: nat, thing: Thing)
    requires Observation(d, e, state, r, id, lo, hi) && FreshAbove(d, id, lo) && WellFormed(state) && thing in state
    ensures Descriptor in Flat(e, r, thing).fields <==> Descriptor in state[thing].fields
    ensures Descriptor in state[thing].fields ==>
      (Flat(e, r, thing).fields[Descriptor] == r.strip(state[thing].fields[Descriptor]) <==>
       GlyphPlain(d, r, thing, r.strip(state[thing].fields[Descriptor])))
  {
    hide FreshAbove, EditOf, PlaceEdited, Shown, Flat, Values, Least, GlyphPlain;
    FlatFields(e, r, thing, Descriptor);
    if thing.Glyph? {
      assert Fixed(thing, Descriptor);
      DescriptorAfter(d, e, state, r, id, lo, hi, thing);
    }
  }

  /** PutGet: after observing a state the document shows exactly that state, if and only if
      no glyph's declaration is left standing on what only the policy shows. */
  lemma PutGet(d: Doc, e: Doc, state: State, r: Reading, id: Text, lo: nat, hi: nat)
    requires Observation(d, e, state, r, id, lo, hi) && FreshAbove(d, id, lo) && WellFormed(state)
    ensures Flatten(e, r) == Recorded(state, r) <==> PlainlyRead(d, state, r)
  {
    hide *;
    RecordedKeys(state, r);
    forall thing ensures thing in Flatten(e, r) <==> thing in state {
      FlattenAt(e, r, thing);
      EmittedAfter(d, e, state, r, id, lo, hi, thing);
    }
    forall thing | thing in state
      ensures Flatten(e, r)[thing] == Recorded(state, r)[thing] <==> ThingPlain(d, state, r, thing)
    {
      FlattenAt(e, r, thing);
      ThingAfter(d, e, state, r, id, lo, hi, thing);
    }
    PlainByThing(d, state, r);
  }

  ghost predicate ThingPlain(d: Doc, state: State, r: Reading, thing: Thing)
    requires thing in state
  {
    thing.Glyph? && Descriptor in state[thing].fields ==>
      GlyphPlain(d, r, thing, r.strip(state[thing].fields[Descriptor]))
  }

  lemma PlainByThing(d: Doc, state: State, r: Reading)
    ensures PlainlyRead(d, state, r) <==> forall thing :: thing in state ==> ThingPlain(d, state, r, thing)
  {
    hide GlyphPlain;
    if forall thing :: thing in state ==> ThingPlain(d, state, r, thing) {
      forall thing | thing in state && thing.Glyph? && Descriptor in state[thing].fields
        ensures GlyphPlain(d, r, thing, r.strip(state[thing].fields[Descriptor]))
      {
        assert ThingPlain(d, state, r, thing);
      }
    }
  }

  lemma RecordedKeys(state: State, r: Reading)
    ensures Recorded(state, r).Keys == state.Keys
  {
  }

  lemma ThingAfter(d: Doc, e: Doc, state: State, r: Reading, id: Text, lo: nat, hi: nat, thing: Thing)
    requires Observation(d, e, state, r, id, lo, hi) && FreshAbove(d, id, lo) && WellFormed(state) && thing in state
    requires thing in Recorded(state, r)
    ensures Flat(e, r, thing) == Recorded(state, r)[thing] <==> ThingPlain(d, state, r, thing)
  {
    hide Observation, FreshAbove, Flat, GlyphPlain;
    SetsAfter(d, e, state, r, id, lo, hi, thing);
    var got, want := Flat(e, r, thing).fields, Recorded(state, r)[thing].fields;
    DescriptorShownAfter(d, e, state, r, id, lo, hi, thing);
    forall f: Field | !f.Descriptor? ensures f in got <==> f in want
      ensures f in got ==> got[f] == want[f]
    {
      FieldAfter(d, e, state, r, id, lo, hi, thing, f);
    }
    OnlyGlyphsDescribe(state, thing);
    assert got == want <==> (Descriptor in want ==> got[Descriptor] == want[Descriptor]);
  }

  lemma OnlyGlyphsDescribe(state: State, thing: Thing)
    requires WellFormed(state) && thing in state
    ensures Descriptor in state[thing].fields <==> thing.Glyph?
  {
    assert Fixed(thing, Descriptor) <==> thing.Glyph?;
  }

  /** Left at Conflict or Pick, the policy never shows a declaration the plain reading does not. */
  lemma PlainUnlessDeclared(d: Doc, state: State, r: Reading)
    requires r.join(Descriptor) == Conflict || r.join(Descriptor) == Pick
    ensures PlainlyRead(d, state, r)
  {
    hide Shown, Values, Least;
    forall thing | thing in state && thing.Glyph? && Descriptor in state[thing].fields
      ensures GlyphPlain(d, r, thing, r.strip(state[thing].fields[Descriptor]))
    {
      var s := At(d, Place(thing, Register(Descriptor)));
      if Values(s) != {} { ShownLeast(s, r.join(Descriptor), r.number); }
    }
  }

  /** Of two values the least is the first, and the latest the one under the greater stamp. */
  lemma TwoNames(s: OrSet<Text>, a: Text, b: Text, x: Text, y: Text, number: Text -> Option<real>)
    requires s == OrSet(map[a := x, b := y], {}) && a != b && Less(x, y) && StampLess(StampOf(a), StampOf(b))
    ensures Values(s) == {x, y} && Least(Values(s)) == x && Shown(s, Latest, number) == Some(y)
  {
    hide Less, Values, LiveTags, Sorted, StampOf;
    LessIrreflexive(x);
    TwoOf(s, a, b, x, y);
    LessAsymmetric(x, y);
    StampOrder(a, b);
    assert |Values(s)| == 2;
    assert LatestTag(LiveTags(s)) == b;
  }

  lemma TwoOf(s: OrSet<Text>, a: Text, b: Text, x: Text, y: Text)
    requires s == OrSet(map[a := x, b := y], {}) && a != b
    ensures LiveTags(s) == {a, b} && Values(s) == {x, y} && b in s.adds && s.adds[b] == y
  {
    assert a in s.adds && b in s.adds && s.adds[a] == x;
  }
}
