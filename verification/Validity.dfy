/** What a replica does to its own document keeps it fit to send.

    Observing a state or settling a conflict writes tags the editor minted and payloads of
    known shapes, so what validation accepted before it accepts after. */
module Validity {
  import opened Bytes
  import opened Codec
  import opened Conflicts
  import opened Docs
  import opened Edits
  import opened Lens
  import opened Options
  import opened OrSets
  import opened Policies
  import opened Tags

  /** Every value a state holds is canonical, and every declaration is a map. */
  ghost predicate Canonical(state: State, r: Reading)
  {
    forall thing :: thing in state ==>
      && (forall f :: f in state[thing].fields ==> FieldGood(f, FieldWanted(r, f, state[thing].fields[f])))
      && (forall v :: v in state[thing].tags || v in state[thing].edges ==> IsCanonical(v))
  }

  predicate FieldGood(f: Field, v: Text)
  {
    IsCanonical(v) && (f.Descriptor? ==> v != [] && v[0] == MAP)
  }

  predicate ValueGood(p: Place, v: Text)
  {
    match p.slot
    case Present => true
    case Register(f) => FieldGood(f, v)
    case _ => IsCanonical(v)
  }

  lemma MintNotEmpty(t: Text, id: Text, lo: nat, hi: nat)
    requires MintedIn(t, id, lo, hi)
    ensures t != []
  {
  }

  /** What the tags and values of a set must be, spelled out. */
  lemma AllowedIs(p: Place, s: OrSet<Text>)
    ensures SetAllowed(p, s) <==>
      [] !in s.adds && [] !in s.removes && forall t :: t in s.adds ==> ValueGood(p, s.adds[t])
  {
    hide IsCanonical;
  }

  /** A set edited from good values, with minted tags, stays allowed. */
  lemma EditedStaysAllowed(p: Place, s: OrSet<Text>, t: OrSet<Text>, id: Text, lo: nat, hi: nat)
    requires SetAllowed(p, s)
    requires forall tag :: tag in s.adds ==> tag in t.adds && t.adds[tag] == s.adds[tag]
    requires forall tag :: IsNew(s, t, tag) ==> MintedIn(tag, id, lo, hi) && ValueGood(p, t.adds[tag])
    requires [] !in t.removes
    ensures SetAllowed(p, t)
  {
    hide SetAllowed, ValueGood, MintedIn;
    AllowedIs(p, s);
    AllowedIs(p, t);
    forall tag | tag in t.adds ensures tag != [] && ValueGood(p, t.adds[tag]) {
      if IsNew(s, t, tag) { MintNotEmpty(tag, id, lo, hi); }
    }
  }

  /** The values a want may add are good. */
  ghost predicate WantGood(p: Place, want: Want)
  {
    match want
    case Write(v) => ValueGood(p, v)
    case Hold(vs) => forall v :: v in vs ==> ValueGood(p, v)
    case Appear(v) => ValueGood(p, v)
    case Vanish(seen) => [] !in seen
    case _ => true
  }

  lemma WantStaysAllowed(p: Place, want: Want, s: OrSet<Text>, t: OrSet<Text>, how: FieldJoin,
                         number: Text -> Option<real>, id: Text, lo: nat, hi: nat)
    requires SetAllowed(p, s) && WantGood(p, want) && Edited(want, s, t, how, number, id, lo, hi)
    requires FreshIn(s, id, lo)
    ensures SetAllowed(p, t)
  {
    hide SetAllowed, ValueGood, Shown, Values, Mint;
    AllowedIs(p, s);
    match want {
      case Write(v) =>
        if t != s {
          var n: nat :| lo < n <= hi && t == Written(s, Mint(id, n), v);
          assert MintedIn(Mint(id, n), id, lo, hi);
          EditedStaysAllowed(p, s, t, id, lo, hi);
        }
      case Appear(v) =>
        if t != s {
          var n: nat :| lo < n <= hi && t == Given(s, Mint(id, n), v);
          assert MintedIn(Mint(id, n), id, lo, hi);
          EditedStaysAllowed(p, s, t, id, lo, hi);
        }
      case _ => EditedStaysAllowed(p, s, t, id, lo, hi);
    }
  }

  lemma LiveNotEmpty(d: Doc, thing: Thing)
    requires Validate(d)
    ensures [] !in LiveBeneath(d, thing)
  {
    hide IsCanonical, PlaceAllowed;
    forall t | t in LiveBeneath(d, thing) ensures t != [] {
      var p :| p in d && Beneath(thing, p) && t in LiveTags(d[p]);
      assert SetAllowed(p, d[p]);
    }
  }

  lemma TargetIsGood(d: Doc, state: State, r: Reading, p: Place)
    requires Validate(d) && WellFormed(state) && Canonical(state, r)
    ensures WantGood(p, Target(state, d, r, p))
  {
    hide IsCanonical, Validate, LiveBeneath;
    LiveNotEmpty(d, p.thing);
  }

  /** Where an observation changes anything, a document may have a set. */
  lemma TouchedIsAllowed(d: Doc, e: Doc, state: State, r: Reading, id: Text, lo: nat, hi: nat, p: Place)
    requires WellFormed(state) && PlaceEdited(d, e, state, r, id, lo, hi, p)
    requires p !in d && At(e, p) != EMPTY_SET
    ensures PlaceAllowed(p)
  {
    hide Values, LiveBeneath, Shown, WrittenTo, GivenTo, Held;
    EmptyIsDead();
    HeldOnEmpty(At(e, p), id, lo, hi);
    assert p.thing in state;
  }

  lemma EmptyIsDead()
    ensures Values(EMPTY_SET) == {}
  {
  }

  lemma HeldOnEmpty(t: OrSet<Text>, id: Text, lo: nat, hi: nat)
    ensures Held(EMPTY_SET, t, {}, id, lo, hi) ==> t == EMPTY_SET
  {
    EmptyIsDead();
    if Held(EMPTY_SET, t, {}, id, lo, hi) { HeldSame(EMPTY_SET, t, id, lo, hi); }
  }

  /** Observing a state whose values are canonical keeps a document fit to merge. */
  lemma ObservedIsValid(d: Doc, e: Doc, state: State, r: Reading, id: Text, lo: nat, hi: nat)
    requires Validate(d) && WellFormed(state) && Canonical(state, r)
    requires Observation(d, e, state, r, id, lo, hi) && FreshAbove(d, id, lo)
    ensures Validate(e)
  {
    hide PlaceAllowed, SetAllowed, Canonical, WellFormed, PlaceEdited, Edited, Target, WantGood, FreshAbove, FreshIn;
    forall p | p in e ensures PlaceAllowed(p) && SetAllowed(p, At(e, p)) {
      assert PlaceEdited(d, e, state, r, id, lo, hi, p);
      if p !in d { TouchedIsAllowed(d, e, state, r, id, lo, hi, p); }
      TargetIsGood(d, state, r, p);
      EmptyAllowed(p);
      FreshAt(d, id, lo, p);
      PlaceStaysAllowed(d, e, state, r, id, lo, hi, p);
    }
  }

  lemma PlaceStaysAllowed(d: Doc, e: Doc, state: State, r: Reading, id: Text, lo: nat, hi: nat, p: Place)
    requires PlaceEdited(d, e, state, r, id, lo, hi, p) && SetAllowed(p, At(d, p))
    requires WantGood(p, Target(state, d, r, p)) && FreshIn(At(d, p), id, lo)
    ensures SetAllowed(p, At(e, p))
  {
    hide SetAllowed, Target, WantGood, Edited, FreshIn;
    WantStaysAllowed(p, Target(state, d, r, p), At(d, p), At(e, p), HowOf(r, p), r.number, id, lo, hi);
  }

  /** The sides of a conflict are values the register holds. */
  lemma SidesAreHeld(d: Doc, r: Reading, c: Conflict, side: nat)
    requires IsConflict(d, r, c) && c.TwoValues? && side < |c.sides|
    ensures c.sides[side] in Values(At(d, PlaceOf(c)))
  {
    hide Values;
    var s := At(d, PlaceOf(c));
    assert c.sides == Sorted(Values(s));
    assert c.sides[side] in Sorted(Values(s));
  }

  lemma HeldIsGood(p: Place, s: OrSet<Text>, v: Text)
    requires SetAllowed(p, s) && v in Values(s)
    ensures ValueGood(p, v)
  {
    hide SetAllowed, ValueGood;
    AllowedIs(p, s);
  }

  /** Settling a conflict keeps a document fit to merge. */
  lemma SettledIsValid(d: Doc, e: Doc, r: Reading, c: Conflict, choice: Choice, id: Text, lo: nat, hi: nat)
    requires Validate(d) && Fits(c, choice) && IsConflict(d, r, c) && Settles(d, e, c, choice, id, lo, hi)
    requires FreshAbove(d, id, lo)
    ensures Validate(e)
  {
    hide PlaceAllowed, SetAllowed, FreshAbove, FreshIn, WrittenTo, GivenTo, LiveBeneath, Raced;
    var p := PlaceOf(c);
    ConflictHasSet(d, r, c);
    FreshAt(d, id, lo, p);
    SettledSet(d, e, r, c, choice, id, lo, hi);
    forall q | q in e ensures PlaceAllowed(q) && SetAllowed(q, At(e, q)) {
      EmptyAllowed(q);
      if q != p { assert At(e, q) == At(d, q); }
    }
  }

  lemma SettledSet(d: Doc, e: Doc, r: Reading, c: Conflict, choice: Choice, id: Text, lo: nat, hi: nat)
    requires Validate(d) && Fits(c, choice) && IsConflict(d, r, c) && Settles(d, e, c, choice, id, lo, hi)
    requires PlaceOf(c) in d && FreshIn(At(d, PlaceOf(c)), id, lo)
    ensures SetAllowed(PlaceOf(c), At(e, PlaceOf(c)))
  {
    hide SetAllowed, IsConflict, EditOf, LiveBeneath, Mint, ValueGood, Values, PlaceAllowed;
    var p := PlaceOf(c);
    var s, t := At(d, p), At(e, p);
    AllowedIs(p, s);
    match choice {
      case Value(side) =>
        SidesAreHeld(d, r, c, side);
        HeldIsGood(p, s, c.sides[side]);
        var n: nat :| lo < n <= hi && t == Written(s, Mint(id, n), c.sides[side]);
        assert MintedIn(Mint(id, n), id, lo, hi);
        EditedStaysAllowed(p, s, t, id, lo, hi);
      case Kept =>
        PresenceIsGood(c.thing);
        var n: nat :| lo < n <= hi && t == Given(s, Mint(id, n), PresentValue(c.thing));
        assert MintedIn(Mint(id, n), id, lo, hi);
        EditedStaysAllowed(p, s, t, id, lo, hi);
      case Deleted =>
        LiveNotEmpty(d, c.thing);
        EditedStaysAllowed(p, s, t, id, lo, hi);
    }
  }

  lemma PresenceIsGood(thing: Thing)
    ensures ValueGood(Place(thing, Present), PresentValue(thing))
  {
  }
}
