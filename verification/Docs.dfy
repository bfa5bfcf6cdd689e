/** Enriched documents: an OrSet at every place that has one, joined place by place. */
module Docs {
  import opened Bytes
  import opened Codec
  import opened OrSets
  import opened Tags

  datatype Thing = Mantle(name: Text) | Rune(mantle: Text, id: Text) | Glyph(name: Text)

  /** The registers a thing may carry. */
  datatype Field =
    | Id | Domain | Rules | MantleTag(key: Text)
    | SpiritName | GlyphOf | Facet(which: FacetName) | Placement | Relations | Content(key: Text)
    | Descriptor

  datatype FacetName = Who | What | When | Where | Why | How

  datatype Slot = Present | Register(field: Field) | TagSet | EdgeSet

  datatype Place = Place(thing: Thing, slot: Slot)

  type Doc = map<Place, OrSet<Text>>

  const EMPTY_DOC: Doc := map[]

  function At(d: Doc, p: Place): OrSet<Text>
  {
    if p in d then d[p] else EMPTY_SET
  }

  /** `join`: union of the places, join of the sets. */
  function JoinDocs(a: Doc, b: Doc): Doc
  {
    map p | p in a.Keys + b.Keys :: Join(At(a, p), At(b, p))
  }

  ghost predicate Added(d: Doc, p: Place, t: Text, v: Text)
  {
    p in d && t in d[p].adds && d[p].adds[t] == v
  }

  ghost predicate Removed(d: Doc, p: Place, t: Text)
  {
    p in d && t in d[p].removes
  }

  /** Some place of the document holds the tag, added or retired. */
  ghost predicate HasTag(d: Doc, t: Text)
  {
    (exists p, v :: Added(d, p, t, v)) || (exists p :: Removed(d, p, t))
  }

  function TagsOf(s: OrSet<Text>): set<Text>
  {
    s.adds.Keys + s.removes
  }

  /** `collect_all_tags`. */
  function AllTags(d: Doc): set<Text>
  {
    set p, t | p in d && t in TagsOf(d[p]) :: t
  }

  lemma AllTagsAre(d: Doc, t: Text)
    ensures t in AllTags(d) <==> HasTag(d, t)
  {
    if t in AllTags(d) {
      var p :| p in d && t in TagsOf(d[p]);
      if t in d[p].adds { assert Added(d, p, t, d[p].adds[t]); } else { assert Removed(d, p, t); }
    }
    if HasTag(d, t) {
      if p, v :| Added(d, p, t, v) {
        assert t in TagsOf(d[p]);
      } else {
        var p :| Removed(d, p, t);
        assert t in TagsOf(d[p]);
      }
    }
  }

  /** Two documents with the same places, the same adds and the same retired tags are one. */
  lemma SameDoc(a: Doc, b: Doc)
    requires a.Keys == b.Keys
    requires forall p, t, v :: Added(a, p, t, v) <==> Added(b, p, t, v)
    requires forall p, t :: Removed(a, p, t) <==> Removed(b, p, t)
    ensures a == b
  {
    forall p | p in a ensures a[p] == b[p] {
      forall t ensures t in a[p].adds <==> t in b[p].adds {
        if t in a[p].adds { assert Added(a, p, t, a[p].adds[t]); }
        if t in b[p].adds { assert Added(b, p, t, b[p].adds[t]); }
      }
      forall t | t in a[p].adds ensures a[p].adds[t] == b[p].adds[t] {
        assert Added(a, p, t, a[p].adds[t]);
      }
      forall t ensures t in a[p].removes <==> t in b[p].removes {
        assert Removed(a, p, t) <==> Removed(b, p, t);
      }
    }
  }

  lemma JoinHolds(a: Doc, b: Doc)
    ensures JoinDocs(a, b).Keys == a.Keys + b.Keys
    ensures forall p, t, v :: Added(JoinDocs(a, b), p, t, v) <==>
      (Added(b, p, t, v) || (Added(a, p, t, v) && !(p in b && t in b[p].adds)))
    ensures forall p, t :: Removed(JoinDocs(a, b), p, t) <==> (Removed(a, p, t) || Removed(b, p, t))
  {
  }

  // ---------------------------------------------------------------------------
  // The laws
  // ---------------------------------------------------------------------------

  /** Wherever both add one tag in one place, they add one value. */
  ghost predicate AgreeAt(a: Doc, b: Doc)
  {
    forall p, t, v, w :: Added(a, p, t, v) && Added(b, p, t, w) ==> v == w
  }

  /** One tag, one place and one value, across both. */
  ghost predicate OneName(a: Doc, b: Doc)
  {
    forall p, q, t, v, w :: Added(a, p, t, v) && Added(b, q, t, w) ==> p == q && v == w
  }

  lemma JoinHoldsBoth(a: Doc, b: Doc)
    requires AgreeAt(a, b)
    ensures forall p, t, v :: Added(JoinDocs(a, b), p, t, v) <==> (Added(a, p, t, v) || Added(b, p, t, v))
  {
    forall p, t, v ensures Added(JoinDocs(a, b), p, t, v) <==> (Added(a, p, t, v) || Added(b, p, t, v)) {
      if Added(a, p, t, v) && p in b && t in b[p].adds {
        assert Added(b, p, t, b[p].adds[t]);
      }
    }
  }

  /** Joining either way round gives one document exactly when shared tags agree: on a tag
      the two add with different values the right side wins. */
  lemma JoinCommutesIff(a: Doc, b: Doc)
    ensures JoinDocs(a, b) == JoinDocs(b, a) <==> AgreeAt(a, b)
  {
    if AgreeAt(a, b) {
      JoinHoldsBoth(a, b);
      JoinHoldsBoth(b, a);
      JoinHolds(a, b);
      JoinHolds(b, a);
      SameDoc(JoinDocs(a, b), JoinDocs(b, a));
    } else {
      var p, t, v, w :| Added(a, p, t, v) && Added(b, p, t, w) && v != w;
      assert JoinDocs(a, b)[p].adds[t] == w;
      assert JoinDocs(b, a)[p].adds[t] == v;
    }
  }

  lemma JoinAssociates(a: Doc, b: Doc, c: Doc)
    ensures JoinDocs(JoinDocs(a, b), c) == JoinDocs(a, JoinDocs(b, c))
  {
    var l, r := JoinDocs(JoinDocs(a, b), c), JoinDocs(a, JoinDocs(b, c));
    hide Join;
    JoinedAt(a, b);
    JoinedAt(b, c);
    JoinedAt(JoinDocs(a, b), c);
    JoinedAt(a, JoinDocs(b, c));
    forall p | p in l ensures l[p] == r[p] {
      SetsAssociate(At(a, p), At(b, p), At(c, p));
    }
  }

  lemma JoinedAt(a: Doc, b: Doc)
    ensures forall p :: At(JoinDocs(a, b), p) == Join(At(a, p), At(b, p))
  {
    assert Join(EMPTY_SET, EMPTY_SET) == EMPTY_SET by { SetsIdempotent(EMPTY_SET); }
  }

  lemma JoinIdempotent(a: Doc)
    ensures JoinDocs(a, a) == a
  {
    forall p | p in a ensures Join(a[p], a[p]) == a[p] { SetsIdempotent(a[p]); }
  }

  /** Everything `a` holds, `b` holds. */
  ghost predicate Below(a: Doc, b: Doc)
  {
    && a.Keys <= b.Keys
    && (forall p, t, v :: Added(a, p, t, v) ==> Added(b, p, t, v))
    && (forall p, t :: Removed(a, p, t) ==> Removed(b, p, t))
  }

  lemma BelowTransitive(a: Doc, b: Doc, c: Doc)
    requires Below(a, b) && Below(b, c)
    ensures Below(a, c)
  {
  }

  lemma BelowAntisymmetric(a: Doc, b: Doc)
    requires Below(a, b) && Below(b, a)
    ensures a == b
  {
    SameDoc(a, b);
  }

  /** Where shared tags agree, the join is the least document above both. */
  lemma JoinIsLeast(a: Doc, b: Doc, c: Doc)
    requires AgreeAt(a, b)
    ensures Below(a, JoinDocs(a, b)) && Below(b, JoinDocs(a, b))
    ensures Below(a, c) && Below(b, c) ==> Below(JoinDocs(a, b), c)
  {
    JoinHoldsBoth(a, b);
    JoinHolds(a, b);
  }

  /** Joining in what is already held changes nothing, from either side. */
  lemma JoinAbsorbs(a: Doc, b: Doc)
    requires Below(a, b)
    ensures JoinDocs(a, b) == b && JoinDocs(b, a) == b
  {
    AgreeBelow(a, b);
    JoinHoldsBoth(a, b);
    JoinHolds(a, b);
    SameDoc(JoinDocs(a, b), b);
    JoinCommutesIff(a, b);
  }

  lemma AgreeBelow(a: Doc, b: Doc)
    requires Below(a, b)
    ensures AgreeAt(a, b)
  {
  }

  function JoinAll(base: Doc, ds: seq<Doc>): Doc
  {
    if ds == [] then base else JoinDocs(JoinAll(base, ds[..|ds| - 1]), ds[|ds| - 1])
  }

  ghost predicate AllAgree(base: Doc, ds: seq<Doc>)
  {
    && (forall i :: 0 <= i < |ds| ==> AgreeAt(base, ds[i]))
    && (forall i, j :: 0 <= i < |ds| && 0 <= j < |ds| ==> AgreeAt(ds[i], ds[j]))
  }

  ghost predicate AddedIn(base: Doc, ds: seq<Doc>, p: Place, t: Text, v: Text)
  {
    Added(base, p, t, v) || exists i :: 0 <= i < |ds| && Added(ds[i], p, t, v)
  }

  ghost predicate RemovedIn(base: Doc, ds: seq<Doc>, p: Place, t: Text)
  {
    Removed(base, p, t) || exists i :: 0 <= i < |ds| && Removed(ds[i], p, t)
  }

  ghost predicate HeldIn(base: Doc, ds: seq<Doc>, p: Place)
  {
    p in base || exists i :: 0 <= i < |ds| && p in ds[i]
  }

  lemma {:induction false} JoinAllHolds(base: Doc, ds: seq<Doc>)
    requires AllAgree(base, ds)
    ensures forall p :: p in JoinAll(base, ds) <==> HeldIn(base, ds, p)
    ensures forall p, t, v :: Added(JoinAll(base, ds), p, t, v) <==> AddedIn(base, ds, p, t, v)
    ensures forall p, t :: Removed(JoinAll(base, ds), p, t) <==> RemovedIn(base, ds, p, t)
  {
    hide Added, Removed;
    if ds != [] {
      var n := |ds| - 1;
      var init, last := ds[..n], ds[n];
      JoinAllHolds(base, init);
      LastAgrees(base, ds);
      JoinHolds(JoinAll(base, init), last);
      JoinHoldsBoth(JoinAll(base, init), last);
      SnocHolds(base, ds);
    }
  }

  lemma SnocHolds(base: Doc, ds: seq<Doc>)
    requires ds != []
    ensures var init, last := ds[..|ds| - 1], ds[|ds| - 1];
      && (forall p :: HeldIn(base, ds, p) <==> HeldIn(base, init, p) || p in last)
      && (forall p, t, v :: AddedIn(base, ds, p, t, v) <==> AddedIn(base, init, p, t, v) || Added(last, p, t, v))
      && (forall p, t :: RemovedIn(base, ds, p, t) <==> RemovedIn(base, init, p, t) || Removed(last, p, t))
  {
    hide Added, Removed;
    var n := |ds| - 1;
    assert forall i :: 0 <= i < n ==> ds[..n][i] == ds[i];
  }

  lemma LastAgrees(base: Doc, ds: seq<Doc>)
    requires ds != [] && AllAgree(base, ds)
    requires var init := ds[..|ds| - 1];
      forall p, t, v :: Added(JoinAll(base, init), p, t, v) <==> AddedIn(base, init, p, t, v)
    ensures AgreeAt(JoinAll(base, ds[..|ds| - 1]), ds[|ds| - 1])
  {
    hide Added, JoinAll;
    var n := |ds| - 1;
    var init, last := ds[..n], ds[n];
    forall p, t, v, w | Added(JoinAll(base, init), p, t, v) && Added(last, p, t, w) ensures v == w {
      assert AddedIn(base, init, p, t, v);
      if Added(base, p, t, v) {
        assert AgreeAt(base, ds[n]);
      } else {
        var i :| 0 <= i < |init| && Added(init[i], p, t, v);
        assert AgreeAt(ds[i], ds[n]);
      }
    }
  }

  /** Deltas reach one document in any order and however often each arrives. */
  lemma AnyOrder(base: Doc, ds: seq<Doc>, es: seq<Doc>)
    requires AllAgree(base, ds) && AllAgree(base, es)
    requires forall d :: d in ds <==> d in es
    ensures JoinAll(base, ds) == JoinAll(base, es)
  {
    hide Added, Removed, JoinAll;
    JoinAllHolds(base, ds);
    JoinAllHolds(base, es);
    SameHeld(base, ds, es);
    SameHeld(base, es, ds);
    SameDoc(JoinAll(base, ds), JoinAll(base, es));
  }

  lemma SameHeld(base: Doc, ds: seq<Doc>, es: seq<Doc>)
    requires forall d :: d in ds ==> d in es
    ensures forall p :: HeldIn(base, ds, p) ==> HeldIn(base, es, p)
    ensures forall p, t, v :: AddedIn(base, ds, p, t, v) ==> AddedIn(base, es, p, t, v)
    ensures forall p, t :: RemovedIn(base, ds, p, t) ==> RemovedIn(base, es, p, t)
  {
    hide Added, Removed;
    assert forall i :: 0 <= i < |ds| ==> ds[i] in es;
  }

  // ---------------------------------------------------------------------------
  // What may be merged
  // ---------------------------------------------------------------------------

  /** Which slots a thing has, and that its names are not empty. */
  predicate PlaceAllowed(p: Place)
  {
    match p.thing
    case Mantle(name) =>
      name != [] && (p.slot.Present? || p.slot.EdgeSet? || (p.slot.Register? && OfMantle(p.slot.field)))
    case Rune(mantle, id) =>
      mantle != [] && id != []
      && (p.slot.Present? || p.slot.TagSet? || (p.slot.Register? && OfRune(p.slot.field)))
    case Glyph(name) =>
      name != [] && (p.slot.Present? || p.slot == Register(Descriptor))
  }

  predicate OfMantle(f: Field)
  {
    f.Id? || f.Domain? || f.Rules? || (f.MantleTag? && f.key != [])
  }

  predicate OfRune(f: Field)
  {
    f.SpiritName? || f.GlyphOf? || f.Facet? || f.Placement? || f.Relations? || (f.Content? && f.key != [])
  }

  predicate SetAllowed(p: Place, s: OrSet<Text>)
  {
    && [] !in s.adds && [] !in s.removes
    && (p.slot != Present ==> forall t :: t in s.adds ==> IsCanonical(s.adds[t]))
    && (p.slot == Register(Descriptor) ==> forall t :: t in s.adds ==> s.adds[t] != [] && s.adds[t][0] == MAP)
  }

  /** `validate`. */
  predicate Validate(d: Doc)
  {
    forall p :: p in d ==> PlaceAllowed(p) && SetAllowed(p, d[p])
  }

  /** A join of documents fit to merge is fit to merge. */
  lemma JoinStaysValid(a: Doc, b: Doc)
    requires Validate(a) && Validate(b)
    ensures Validate(JoinDocs(a, b))
  {
    hide IsCanonical, PlaceAllowed, SetAllowed, Join;
    forall p | p in JoinDocs(a, b) ensures PlaceAllowed(p) && SetAllowed(p, Join(At(a, p), At(b, p))) {
      EmptyAllowed(p);
      SetStaysAllowed(p, At(a, p), At(b, p));
    }
  }

  lemma EmptyAllowed(p: Place)
    ensures SetAllowed(p, EMPTY_SET)
  {
  }

  lemma SetStaysAllowed(p: Place, s: OrSet<Text>, t: OrSet<Text>)
    requires SetAllowed(p, s) && SetAllowed(p, t)
    ensures SetAllowed(p, Join(s, t))
  {
    hide IsCanonical;
  }

  lemma BelowIsValid(a: Doc, b: Doc)
    requires Below(a, b) && Validate(b)
    ensures Validate(a)
  {
    hide IsCanonical, PlaceAllowed;
    forall p | p in a ensures SetAllowed(p, a[p]) {
      assert SetAllowed(p, b[p]);
      assert forall t :: t in a[p].adds ==> Added(a, p, t, a[p].adds[t]);
      assert forall t :: t in a[p].removes ==> Removed(a, p, t);
    }
  }

  // ---------------------------------------------------------------------------
  // Counters
  // ---------------------------------------------------------------------------

  /** How far a Lamport counter follows what it sees. */
  const LAMPORT_CEILING := 0x100_0000_0000

  ghost predicate IsHighest(n: nat, tags: set<Text>)
  {
    && (forall t :: t in tags && StampOf(t).n <= LAMPORT_CEILING ==> StampOf(t).n <= n)
    && (n == 0 || exists t :: t in tags && StampOf(t).n == n <= LAMPORT_CEILING)
  }

  lemma {:induction false} HighestExists(tags: set<Text>)
    ensures exists n: nat :: IsHighest(n, tags)
  {
    hide StampOf;
    if tags == {} {
      assert IsHighest(0, tags);
    } else {
      var t :| t in tags;
      HighestExists(tags - {t});
      var n: nat :| IsHighest(n, tags - {t});
      var c := StampOf(t).n;
      if c <= LAMPORT_CEILING && c > n {
        assert IsHighest(c, tags);
      } else {
        if u :| u in tags - {t} && StampOf(u).n == n <= LAMPORT_CEILING { assert u in tags; }
        assert IsHighest(n, tags);
      }
    }
  }

  lemma HighestUnique(tags: set<Text>, m: nat, n: nat)
    requires IsHighest(m, tags) && IsHighest(n, tags)
    ensures m == n
  {
    hide StampOf;
  }

  /** `highest_counter`. */
  ghost function HighestCounter(d: Doc): (n: nat)
    ensures IsHighest(n, AllTags(d))
  {
    HighestExists(AllTags(d));
    var n: nat :| IsHighest(n, AllTags(d));
    n
  }
}
