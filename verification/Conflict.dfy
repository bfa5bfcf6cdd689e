/** Conflicts a document holds: a field with two answers, and a thing deleted while somebody
    else was editing it. */
module Conflicts {
  import opened Bytes
  import opened Docs
  import opened Edits
  import opened Lens
  import opened Options
  import opened OrSets
  import PlaceNames
  import opened Policies

  datatype Conflict =
    | TwoValues(thing: Thing, field: Field, sides: seq<Text>)
    | DeletedWhileEdited(thing: Thing)

  /** `raced_by_an_edit`: gone, once there, and something live beneath that no removal of it
      recorded. */
  predicate Raced(d: Doc, thing: Thing)
  {
    var present := At(d, Place(thing, Present));
    Values(present) == {} && present.removes != {} && !(LiveBeneath(d, thing) <= present.removes)
  }

  /** A deletion raced when the presence was retired and some tag live below the thing, in its
      own sets or in those of a rune in it, was not among what the removal recorded. */
  lemma RacedMeans(d: Doc, thing: Thing)
    ensures Raced(d, thing) <==>
      && !Alive(d, thing) && At(d, Place(thing, Present)).removes != {}
      && exists p, t ::
           && PlaceNames.ThingKeys(thing) <= PlaceNames.PathOf(p) && p != Place(thing, Present)
           && t in At(d, p).adds && t !in At(d, p).removes && t !in At(d, Place(thing, Present)).removes
  {
    hide LiveBeneath, Values, PlaceNames.PathOf, PlaceNames.ThingKeys;
    var gone := At(d, Place(thing, Present)).removes;
    if t :| t in LiveBeneath(d, thing) && t !in gone {
      LiveIsSeen(d, thing, t);
    }
    if p, t :|
      && PlaceNames.ThingKeys(thing) <= PlaceNames.PathOf(p) && p != Place(thing, Present)
      && t in At(d, p).adds && t !in At(d, p).removes && t !in gone
    {
      assert SeenAt(d, thing, p, t);
      LiveIsSeen(d, thing, t);
    }
  }

  /** An edit to a rune the remover never saw makes the removal of its mantle a conflict. */
  lemma RuneEditRaces(d: Doc, mantle: Text, rune: Text, slot: Slot, t: Text)
    requires !Alive(d, Mantle(mantle)) && At(d, Place(Mantle(mantle), Present)).removes != {}
    requires var s := At(d, Place(Rune(mantle, rune), slot)); t in s.adds && t !in s.removes
    requires t !in At(d, Place(Mantle(mantle), Present)).removes
    ensures Raced(d, Mantle(mantle))
  {
    hide Values, LiveBeneath;
    LiveAt(d, Mantle(mantle), t);
    assert Beneath(Mantle(mantle), Place(Rune(mantle, rune), slot));
  }

  /** Where a conflict is, and what settling it edits. */
  function PlaceOf(c: Conflict): Place
  {
    match c
    case TwoValues(thing, f, _) => Place(thing, Register(f))
    case DeletedWhileEdited(thing) => Place(thing, Present)
  }

  /** What `conflicts` reports. A deletion is reported once, at the outermost thing deleted. */
  ghost predicate IsConflict(d: Doc, r: Reading, c: Conflict)
  {
    match c
    case TwoValues(thing, f, sides) =>
      && Alive(d, thing) && InParent(d, thing)
      && FieldRead(d, r, thing, f).conflicted && sides == FieldRead(d, r, thing, f).values
    case DeletedWhileEdited(thing) => Raced(d, thing) && InParent(d, thing)
  }

  ghost function FieldRead(d: Doc, r: Reading, thing: Thing, f: Field): Live
  {
    Resolve(At(d, Place(thing, Register(f))), r.join(f), r.number)
  }

  /** A field stands in conflict when the thing is there, in a mantle that is there, and two values
      or more are live that no declared join settles: none is declared, or the largest is and some
      value is no number. All of them are its sides, in byte order. */
  lemma StandingMeans(d: Doc, r: Reading, thing: Thing, f: Field, sides: seq<Text>)
    ensures IsConflict(d, r, TwoValues(thing, f, sides)) <==>
      var vs := Values(At(d, Place(thing, Register(f))));
      && Alive(d, thing) && (thing.Rune? ==> Alive(d, Mantle(thing.mantle)))
      && |vs| > 1
      && (r.join(f) == Conflict || (r.join(f) == Max && exists v :: v in vs && r.number(v) == None))
      && Ascending(sides) && forall v :: v in sides <==> v in vs
  {
    hide Values, Resolve;
    var l := FieldRead(d, r, thing, f);
    ReadsAs(At(d, Place(thing, Register(f))), r.join(f), r.number);
    if Ascending(sides) && Ascending(l.values) && forall v :: v in sides <==> v in l.values {
      AscendingUnique(sides, l.values);
    }
  }

  lemma ConflictHasSet(d: Doc, r: Reading, c: Conflict)
    requires IsConflict(d, r, c)
    ensures match c
      case TwoValues(thing, f, _) => Place(thing, Register(f)) in d
      case DeletedWhileEdited(thing) => Place(thing, Present) in d
  {
    NothingLive();
    SortedFirst({});
  }

  lemma NothingLive()
    ensures Values(EMPTY_SET) == {}
  {
  }

  /** `conflicts`: every one the document holds, and no other. */
  method ConflictsOf(d: Doc, r: Reading) returns (found: set<Conflict>)
    ensures forall c :: c in found <==> IsConflict(d, r, c)
    ensures forall thing :: DeletedWhileEdited(thing) in found <==>
      && !Alive(d, thing) && At(d, Place(thing, Present)).removes != {}
      && (thing.Rune? ==> Alive(d, Mantle(thing.mantle)))
      && exists p, t ::
           && PlaceNames.ThingKeys(thing) <= PlaceNames.PathOf(p) && p != Place(thing, Present)
           && t in At(d, p).adds && t !in At(d, p).removes && t !in At(d, Place(thing, Present)).removes
  {
    hide Resolve, Values, LiveBeneath, PlaceNames.PathOf, PlaceNames.ThingKeys;
    found := {};
    var todo := d.Keys;
    while todo != {}
      invariant todo <= d.Keys
      invariant forall c :: c in found <==> IsConflict(d, r, c) && PlaceOf(c) in d && PlaceOf(c) !in todo
    {
      var p :| p in todo;
      todo := todo - {p};
      match p.slot {
        case Present =>
          if Raced(d, p.thing) && InParent(d, p.thing) { found := found + {DeletedWhileEdited(p.thing)}; }
        case Register(f) =>
          var l := ResolveRegister(d[p], r.join(f), r.number);
          if Alive(d, p.thing) && InParent(d, p.thing) && l.conflicted {
            found := found + {TwoValues(p.thing, f, l.values)};
          }
        case _ =>
      }
    }
    forall c | IsConflict(d, r, c) ensures PlaceOf(c) in d { ConflictHasSet(d, r, c); }
    forall thing { RacedMeans(d, thing); }
  }

  // ---------------------------------------------------------------------------
  // Removals and races
  // ---------------------------------------------------------------------------

  /** `e` is `d` after its replica removed `thing` and touched nothing beneath it. */
  ghost predicate Deletes(d: Doc, e: Doc, thing: Thing)
  {
    && At(e, Place(thing, Present)) == Deletion(d, thing)
    && forall p :: PlaceNames.ThingKeys(thing) <= PlaceNames.PathOf(p) && p != Place(thing, Present) ==>
         At(e, p) == At(d, p)
  }

  lemma DeletionSees(d: Doc, e: Doc, thing: Thing)
    requires Deletes(d, e, thing)
    ensures LiveBeneath(e, thing) == LiveBeneath(d, thing)
    ensures LiveBeneath(e, thing) <= At(e, Place(thing, Present)).removes
  {
    hide LiveBeneath, PlaceNames.PathOf, PlaceNames.ThingKeys;
    forall t ensures t in LiveBeneath(e, thing) <==> t in LiveBeneath(d, thing) {
      LiveIsSeen(e, thing, t);
      LiveIsSeen(d, thing, t);
      assert forall p :: SeenAt(e, thing, p, t) <==> SeenAt(d, thing, p, t);
    }
  }

  /** A clean delete is never reported. */
  lemma CleanDeleteIsQuiet(d: Doc, e: Doc, r: Reading, thing: Thing)
    requires Deletes(d, e, thing)
    ensures !IsConflict(e, r, DeletedWhileEdited(thing)) && !Alive(e, thing)
  {
    hide LiveBeneath;
    DeletionSees(d, e, thing);
    ClearedShows(At(d, Place(thing, Present)), LiveBeneath(d, thing));
  }

  /** An add the deleter never had, live beneath the thing on the other side, that neither
      side's removal of the thing recorded. */
  ghost predicate Unseen(e: Doc, x: Doc, thing: Thing, p: Place, t: Text)
  {
    && PlaceNames.ThingKeys(thing) <= PlaceNames.PathOf(p) && p != Place(thing, Present)
    && t in At(x, p).adds && t !in At(x, p).removes && t !in At(e, p).adds && t !in At(e, p).removes
    && t !in At(e, Place(thing, Present)).removes && t !in At(x, Place(thing, Present)).removes
  }

  lemma SeenAfterJoin(e: Doc, x: Doc, thing: Thing, p: Place, t: Text)
    ensures SeenAt(JoinDocs(e, x), thing, p, t) <==>
      && PlaceNames.ThingKeys(thing) <= PlaceNames.PathOf(p) && p != Place(thing, Present)
      && (t in At(e, p).adds || t in At(x, p).adds) && t !in At(e, p).removes && t !in At(x, p).removes
  {
    JoinedAt(e, x);
  }

  /** A removal, then any join: if the thing is still gone, the deletion is reported exactly
      when some add beneath it came from the other side alone and no removal recorded it. */
  lemma RacedIffUnseen(d: Doc, e: Doc, x: Doc, thing: Thing)
    requires Deletes(d, e, thing) && Alive(d, thing) && !Alive(JoinDocs(e, x), thing)
    ensures Raced(JoinDocs(e, x), thing) <==> exists p, t :: Unseen(e, x, thing, p, t)
  {
    hide LiveTags, LiveBeneath, JoinDocs, Values, PlaceNames.PathOf, PlaceNames.ThingKeys, SeenAt;
    var j := JoinDocs(e, x);
    var here := Place(thing, Present);
    JoinedAt(e, x);
    DeletionSees(d, e, thing);
    assert At(j, here).removes == At(e, here).removes + At(x, here).removes;
    WasPresent(At(d, here));
    if p, t :| Unseen(e, x, thing, p, t) {
      SeenAfterJoin(e, x, thing, p, t);
      LiveIsSeen(j, thing, t);
    }
    if Raced(j, thing) {
      var t :| t in LiveBeneath(j, thing) && t !in At(j, here).removes;
      LiveIsSeen(j, thing, t);
      var p :| SeenAt(j, thing, p, t);
      LiveIsUnseen(e, x, thing, p, t);
    }
  }

  lemma WasPresent(s: OrSet<Text>)
    requires Values(s) != {}
    ensures Cleared(s).removes != {}
  {
    var v :| v in Values(s);
    var t :| t in s.adds && t !in s.removes && s.adds[t] == v;
    assert t in Cleared(s).removes;
  }

  lemma LiveIsUnseen(e: Doc, x: Doc, thing: Thing, p: Place, t: Text)
    requires SeenAt(JoinDocs(e, x), thing, p, t)
    requires LiveBeneath(e, thing) <= At(e, Place(thing, Present)).removes
    requires t !in At(e, Place(thing, Present)).removes && t !in At(x, Place(thing, Present)).removes
    ensures Unseen(e, x, thing, p, t)
  {
    hide JoinDocs, LiveBeneath, PlaceNames.PathOf, PlaceNames.ThingKeys;
    SeenAfterJoin(e, x, thing, p, t);
    LiveIsSeen(e, thing, t);
    assert !SeenAt(e, thing, p, t);
  }

  // ---------------------------------------------------------------------------
  // Settling
  // ---------------------------------------------------------------------------

  datatype Choice = Value(side: nat) | Kept | Deleted

  predicate Fits(c: Conflict, choice: Choice)
  {
    match choice
    case Value(side) => c.TwoValues? && side < |c.sides|
    case _ => c.DeletedWhileEdited?
  }

  /** `resolve`: the chosen value written, the thing brought back, or removed again with the
      edit seen this time; nothing else. */
  ghost predicate Settles(d: Doc, e: Doc, c: Conflict, choice: Choice, id: Text, lo: nat, hi: nat)
    requires Fits(c, choice)
  {
    var p := PlaceOf(c);
    && EditOf(d, e, id, lo, hi)
    && (forall q :: q != p ==> At(e, q) == At(d, q))
    && match choice
       case Value(side) => WrittenTo(At(d, p), At(e, p), c.sides[side], id, lo, hi)
       case Kept => GivenTo(At(d, p), At(e, p), PresentValue(c.thing), id, lo, hi)
       case Deleted => At(e, p) == Deletion(d, c.thing)
  }

  lemma OneValueStands(s: OrSet<Text>, v: Text, how: FieldJoin, number: Text -> Option<real>)
    requires Values(s) == {v}
    ensures !Resolve(s, how, number).conflicted
  {
    hide Values;
  }

  /** Settling a conflict closes it: nothing is left to ask at that place. */
  lemma SettlingCloses(d: Doc, e: Doc, r: Reading, c: Conflict, choice: Choice, id: Text, lo: nat, hi: nat, c': Conflict)
    requires Fits(c, choice) && IsConflict(d, r, c) && Settles(d, e, c, choice, id, lo, hi)
    requires FreshAbove(d, id, lo) && PlaceOf(c') == PlaceOf(c)
    ensures !IsConflict(e, r, c')
    ensures c.DeletedWhileEdited? ==> (Alive(e, c.thing) <==> choice == Kept)
    ensures c.TwoValues? ==> Values(At(e, PlaceOf(c))) == {c.sides[choice.side]}
  {
    hide EditOf, WrittenTo, GivenTo, FreshAbove, Values, LiveBeneath, Resolve, PlaceNames.PathOf, PlaceNames.ThingKeys;
    var p := PlaceOf(c);
    FreshAt(d, id, lo, p);
    match choice {
      case Value(side) =>
        WriteMoves(At(d, p), At(e, p), c.sides[side], id, lo, hi);
        OneValueStands(At(e, p), c.sides[side], r.join(c.field), r.number);
      case Kept =>
        GiveMoves(At(d, p), At(e, p), PresentValue(c.thing), id, lo, hi);
      case Deleted =>
        CleanDeleteIsQuiet(d, e, r, c.thing);
    }
  }
}
