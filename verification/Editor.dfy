/** The one editor every local change goes through.

    It loads a set, changes it and stores it back; what a store adds is also kept as a delta.
    At every point the working tree is the tree it began with joined with the delta, the change
    count is zero exactly while the two trees are one, and everything stored is one act of the
    editing replica: nothing is lost, and what is new carries tags of its own that no tree held
    before. Progress is told by the places already brought to where the observed state wants
    them. */
module Editors {
  import opened Bytes
  import opened Docs
  import opened Edits
  import opened Lens
  import opened Options
  import opened OrSets
  import PlaceNames
  import opened Policies
  import opened Tags

  // ---------------------------------------------------------------------------
  // One store
  // ---------------------------------------------------------------------------

  /** `t` is `s` grown by one act: every counter used for one add here, and only tags that
      name something retired. */
  ghost predicate SetStep(work: Doc, s: OrSet<Text>, t: OrSet<Text>, id: Text, lo: nat, hi: nat)
  {
    && lo <= hi
    && (forall tag :: tag in s.adds ==> tag in t.adds && t.adds[tag] == s.adds[tag])
    && s.removes <= t.removes
    && (forall tag :: IsNew(s, t, tag) ==> MintedIn(tag, id, lo, hi))
    && (forall n: nat :: lo < n <= hi ==> IsNew(s, t, Mint(id, n)))
    && (forall tag :: tag in t.removes && tag !in s.removes ==> tag in t.adds || Names(work, tag))
  }

  lemma StoredAdds(work: Doc, p: Place, t: OrSet<Text>, after: Doc)
    requires after == work[p := t]
    ensures forall tag, v :: Added(after, p, tag, v) <==> tag in t.adds && t.adds[tag] == v
    ensures forall q, tag, v :: q != p ==> (Added(after, q, tag, v) <==> Added(work, q, tag, v))
    ensures forall tag :: Removed(after, p, tag) <==> tag in t.removes
    ensures forall q, tag :: q != p ==> (Removed(after, q, tag) <==> Removed(work, q, tag))
  {
  }

  lemma AtAdds(work: Doc, p: Place)
    ensures forall tag, v :: Added(work, p, tag, v) <==> tag in At(work, p).adds && At(work, p).adds[tag] == v
    ensures forall tag :: Removed(work, p, tag) <==> tag in At(work, p).removes
  {
  }

  lemma StoreIsEdit(work: Doc, p: Place, t: OrSet<Text>, id: Text, lo: nat, hi: nat)
    requires SetStep(work, At(work, p), t, id, lo, hi) && t != At(work, p)
    ensures EditOf(work, work[p := t], id, lo, hi)
  {
    hide Mint, Added, Removed, At;
    var after := work[p := t];
    var s := At(work, p);
    AtAdds(work, p);
    StoredAdds(work, p, t, after);
    StoreNotEmpty(work, p, t, id, lo, hi);
    forall q, tag, v ensures NewIn(work, after, q, tag, v) <==> q == p && IsNew(s, t, tag) && t.adds[tag] == v {
    }
    forall n: nat | lo < n <= hi ensures Uses(work, after, Mint(id, n)) {
      assert IsNew(s, t, Mint(id, n));
      assert NewIn(work, after, p, Mint(id, n), t.adds[Mint(id, n)]);
    }
    forall q, tag | Removed(after, q, tag) && !Removed(work, q, tag) ensures Names(after, tag) {
      if tag in t.adds {
        assert Added(after, p, tag, t.adds[tag]);
      } else {
        var x, v :| Added(work, x, tag, v);
        assert Added(after, x, tag, v);
      }
    }
  }

  lemma StoreNotEmpty(work: Doc, p: Place, t: OrSet<Text>, id: Text, lo: nat, hi: nat)
    requires SetStep(work, At(work, p), t, id, lo, hi) && t != At(work, p)
    ensures p !in work ==> t != EMPTY_SET
  {
  }

  /** A set nobody changed used no counter. */
  lemma NoStore(work: Doc, s: OrSet<Text>, id: Text, lo: nat, hi: nat)
    requires SetStep(work, s, s, id, lo, hi)
    ensures lo == hi
  {
    hide Mint;
    assert !IsNew(s, s, Mint(id, hi));
  }

  // ---------------------------------------------------------------------------
  // Deltas
  // ---------------------------------------------------------------------------

  function Difference(s: OrSet<Text>, t: OrSet<Text>): OrSet<Text>
  {
    OrSet(map tag | tag in t.adds && tag !in s.adds :: t.adds[tag], t.removes - s.removes)
  }

  lemma DifferenceJoins(s: OrSet<Text>, t: OrSet<Text>)
    requires forall tag :: tag in s.adds ==> tag in t.adds && t.adds[tag] == s.adds[tag]
    requires s.removes <= t.removes
    ensures Join(s, Difference(s, t)) == t
  {
    assert s.adds + Difference(s, t).adds == t.adds;
    assert s.removes + (t.removes - s.removes) == t.removes;
  }

  /** Recording what a store changed keeps the delta exact: joined into the base it gives the
      working document. */
  lemma DeltaStays(base: Doc, delta: Doc, work: Doc, p: Place, t: OrSet<Text>)
    requires JoinDocs(base, delta) == work && Below(delta, work)
    requires forall tag :: tag in At(work, p).adds ==> tag in t.adds && t.adds[tag] == At(work, p).adds[tag]
    requires At(work, p).removes <= t.removes
    ensures var delta' := delta[p := Join(At(delta, p), Difference(At(work, p), t))];
      JoinDocs(base, delta') == work[p := t] && Below(delta', work[p := t])
  {
    var s := At(work, p);
    var diff := Difference(s, t);
    var delta' := delta[p := Join(At(delta, p), diff)];
    DifferenceJoins(s, t);
    SetsAssociate(At(base, p), At(delta, p), diff);
    JoinedAt(base, delta);
    JoinedAt(base, delta');
    DeltaAt(base, delta, work, p, t, delta');
    DeltaBelow(delta, work, p, t, delta');
  }

  lemma DeltaAt(base: Doc, delta: Doc, work: Doc, p: Place, t: OrSet<Text>, delta': Doc)
    requires JoinDocs(base, delta) == work && delta'.Keys == delta.Keys + {p}
    requires forall q :: q != p && q in delta ==> delta'[q] == delta[q]
    requires forall q :: At(JoinDocs(base, delta'), q) == Join(At(base, q), At(delta', q))
    requires Join(At(base, p), At(delta', p)) == t
    ensures JoinDocs(base, delta') == work[p := t]
  {
    hide Join;
    var l := JoinDocs(base, delta');
    assert l.Keys == work.Keys + {p};
    forall q | q in l ensures l[q] == work[p := t][q] {
      assert l[q] == Join(At(base, q), At(delta', q));
    }
  }

  lemma DeltaBelow(delta: Doc, work: Doc, p: Place, t: OrSet<Text>, delta': Doc)
    requires Below(delta, work) && delta' == delta[p := Join(At(delta, p), Difference(At(work, p), t))]
    requires forall tag :: tag in At(work, p).adds ==> tag in t.adds && t.adds[tag] == At(work, p).adds[tag]
    requires At(work, p).removes <= t.removes
    ensures Below(delta', work[p := t])
  {
    hide Added, Removed, At, Join, Difference;
    var after := work[p := t];
    AtAdds(delta, p);
    AtAdds(work, p);
    StoredAdds(delta, p, delta'[p], delta');
    StoredAdds(work, p, t, after);
    DeltaSet(At(delta, p), At(work, p), t);
    forall q, tag, v | Added(delta', q, tag, v) ensures Added(after, q, tag, v) {
      if q == p && tag in At(delta, p).adds && delta'[p].adds[tag] == At(delta, p).adds[tag] {
        assert Added(delta, p, tag, v);
      }
    }
    forall q, tag | Removed(delta', q, tag) ensures Removed(after, q, tag) {
      if q == p && tag in At(delta, p).removes { assert Removed(delta, p, tag); }
    }
  }

  lemma DeltaSet(d: OrSet<Text>, s: OrSet<Text>, t: OrSet<Text>)
    ensures var j := Join(d, Difference(s, t));
      && (forall tag :: tag in j.adds ==>
            (tag in d.adds && j.adds[tag] == d.adds[tag]) || (tag in t.adds && j.adds[tag] == t.adds[tag]))
      && (forall tag :: tag in j.removes ==> tag in d.removes || tag in t.removes)
  {
  }

  /** Nothing in the delta was there before, and no set of it is empty. */
  ghost predicate OnlyNew(base: Doc, delta: Doc)
  {
    forall p :: p in delta ==> NewTo(At(base, p), delta[p])
  }

  ghost predicate NewTo(s: OrSet<Text>, d: OrSet<Text>)
  {
    d != EMPTY_SET && d.adds.Keys !! s.adds.Keys && d.removes !! s.removes
  }

  lemma OnlyNewStays(base: Doc, delta: Doc, work: Doc, p: Place, t: OrSet<Text>)
    requires OnlyNew(base, delta) && Below(base, work) && t != At(work, p)
    requires forall tag :: tag in At(work, p).adds ==> tag in t.adds && t.adds[tag] == At(work, p).adds[tag]
    requires At(work, p).removes <= t.removes
    ensures OnlyNew(base, delta[p := Join(At(delta, p), Difference(At(work, p), t))])
  {
    hide Below, At, Join, Difference, EMPTY_SET;
    BelowAt(base, work, p);
    NewPart(At(base, p), At(delta, p), At(work, p), t);
    assert At(delta, p) == if p in delta then delta[p] else EMPTY_SET by { AtIs(delta, p); }
  }

  lemma AtIs(d: Doc, p: Place)
    ensures At(d, p) == if p in d then d[p] else EMPTY_SET
  {
  }

  lemma BelowAt(base: Doc, work: Doc, p: Place)
    requires Below(base, work)
    ensures At(base, p).adds.Keys <= At(work, p).adds.Keys && At(base, p).removes <= At(work, p).removes
  {
    if p in base {
      forall t | t in base[p].adds ensures t in At(work, p).adds { assert Added(base, p, t, base[p].adds[t]); }
      forall t | t in base[p].removes ensures t in At(work, p).removes { assert Removed(base, p, t); }
    }
  }

  lemma NewPart(s: OrSet<Text>, d: OrSet<Text>, w: OrSet<Text>, t: OrSet<Text>)
    requires s.adds.Keys <= w.adds.Keys && s.removes <= w.removes && t != w
    requires forall tag :: tag in w.adds ==> tag in t.adds && t.adds[tag] == w.adds[tag]
    requires w.removes <= t.removes
    ensures d == EMPTY_SET || NewTo(s, d) ==> NewTo(s, Join(d, Difference(w, t)))
  {
    var diff := Difference(w, t);
    forall tag | diff == EMPTY_SET && tag in t.adds ensures tag in w.adds {
      assert tag !in w.adds ==> tag in diff.adds;
    }
    forall tag | diff == EMPTY_SET && tag in t.removes ensures tag in w.removes {
      assert tag !in w.removes ==> tag in diff.removes;
    }
    assert diff == EMPTY_SET ==> t.adds == w.adds && t.removes == w.removes;
    var j := Join(d, diff);
    assert j == EMPTY_SET ==> diff == EMPTY_SET by { EmptyJoin(d, diff); }
  }

  lemma EmptyJoin(d: OrSet<Text>, e: OrSet<Text>)
    ensures Join(d, e) == EMPTY_SET ==> e == EMPTY_SET
  {
    if Join(d, e) == EMPTY_SET {
      assert forall tag :: tag in e.adds ==> tag in Join(d, e).adds;
      assert forall tag :: tag in e.removes ==> tag in Join(d, e).removes;
      assert e.adds == map[] && e.removes == {};
    }
  }

  /** So the delta is the difference and nothing else: each add and each retirement the document
      gained, no other, and no set without one. */
  ghost predicate IsDelta(base: Doc, delta: Doc, after: Doc)
  {
    && (forall p, t, v :: Added(delta, p, t, v) <==> Added(after, p, t, v) && !Added(base, p, t, v))
    && (forall p, t :: Removed(delta, p, t) <==> Removed(after, p, t) && !Removed(base, p, t))
    && (forall p :: p in delta ==> delta[p] != EMPTY_SET)
  }

  lemma DeltaIsExact(base: Doc, delta: Doc, after: Doc)
    requires JoinDocs(base, delta) == after && Below(base, after) && OnlyNew(base, delta)
    ensures IsDelta(base, delta, after)
  {
    hide Below;
    forall p, t, v ensures Added(delta, p, t, v) <==> Added(after, p, t, v) && !Added(base, p, t, v) {
      AddGained(base, delta, p, t, v);
    }
    forall p, t ensures Removed(delta, p, t) <==> Removed(after, p, t) && !Removed(base, p, t) {
      RemoveGained(base, delta, p, t);
    }
  }

  lemma AddGained(base: Doc, delta: Doc, p: Place, t: Text, v: Text)
    requires OnlyNew(base, delta)
    ensures Added(delta, p, t, v) <==> Added(JoinDocs(base, delta), p, t, v) && !Added(base, p, t, v)
  {
    if p in delta { assert NewTo(At(base, p), delta[p]); }
  }

  lemma RemoveGained(base: Doc, delta: Doc, p: Place, t: Text)
    requires OnlyNew(base, delta)
    ensures Removed(delta, p, t) <==> Removed(JoinDocs(base, delta), p, t) && !Removed(base, p, t)
  {
    if p in delta { assert NewTo(At(base, p), delta[p]); }
  }

  // ---------------------------------------------------------------------------
  // Progress of an observation
  // ---------------------------------------------------------------------------

  /** The sets in `done` are edited as wanted; every other is as it was. */
  ghost predicate Progress(base: Doc, w: Doc, state: State, r: Reading, id: Text, lo: nat, hi: nat, done: set<Place>)
  {
    && (forall p :: p in done ==> PlaceEdited(base, w, state, r, id, lo, hi, p))
    && (forall p :: p !in done ==> At(w, p) == At(base, p))
  }

  /** One set edited as wanted, and no other touched. */
  ghost predicate Did(w: Doc, w': Doc, r: Reading, id: Text, p: Place, want: Want, lo: nat, hi: nat)
  {
    && (forall q :: q != p ==> At(w', q) == At(w, q))
    && Edited(want, At(w, p), At(w', p), HowOf(r, p), r.number, id, lo, hi)
  }

  lemma ProgressStep(base: Doc, w: Doc, w': Doc, state: State, r: Reading, id: Text,
                     lo: nat, mid: nat, hi: nat, done: set<Place>, p: Place)
    requires Progress(base, w, state, r, id, lo, mid, done) && p !in done && lo <= mid <= hi
    requires Did(w, w', r, id, p, Target(state, base, r, p), mid, hi)
    ensures Progress(base, w', state, r, id, lo, hi, done + {p})
  {
    hide Edited, Target, At;
    forall q | q in done + {p} ensures PlaceEdited(base, w', state, r, id, lo, hi, q) {
      if q == p {
        EditedWider(Target(state, base, r, p), At(base, p), At(w', p), HowOf(r, p), r.number, id, mid, hi, lo, hi);
      } else {
        assert PlaceEdited(base, w, state, r, id, lo, mid, q);
        EditedWider(Target(state, base, r, q), At(base, q), At(w, q), HowOf(r, q), r.number, id, lo, mid, lo, hi);
      }
    }
  }

  /** A set that already is what is wanted of it. */
  ghost predicate Idle(base: Doc, state: State, r: Reading, p: Place)
  {
    forall id: Text, n: nat :: PlaceEdited(base, base, state, r, id, n, n, p)
  }

  /** Every set is done or was idle all along. */
  lemma ProgressEnds(base: Doc, w: Doc, state: State, r: Reading, id: Text, lo: nat, hi: nat, done: set<Place>)
    requires Progress(base, w, state, r, id, lo, hi, done) && lo <= hi
    requires forall p :: p !in done ==> Idle(base, state, r, p)
    ensures forall p :: PlaceEdited(base, w, state, r, id, lo, hi, p)
  {
    hide Edited, Target, At;
    forall p ensures PlaceEdited(base, w, state, r, id, lo, hi, p) {
      if p !in done {
        assert PlaceEdited(base, base, state, r, id, lo, lo, p);
        EditedWider(Target(state, base, r, p), At(base, p), At(w, p), HowOf(r, p), r.number, id, lo, lo, lo, hi);
      }
    }
  }

  /** A field neither shown nor held is idle; so is a set the state asks nothing of. */
  lemma IdleRegister(base: Doc, state: State, r: Reading, thing: Thing, f: Field)
    requires thing in state && f !in state[thing].fields
    requires !Sparse(thing, f) || Values(At(base, Place(thing, Register(f)))) == {}
    requires Fixed(thing, f) ==> f in state[thing].fields
    ensures Idle(base, state, r, Place(thing, Register(f)))
  {
  }

  lemma IdleElsewhere(base: Doc, state: State, r: Reading, p: Place)
    requires Target(state, base, r, p) == Keep ||
      (p.slot.Present? && p.thing !in state && Values(At(base, p)) == {})
    ensures Idle(base, state, r, p)
  {
    hide Values, LiveBeneath;
  }

  // ---------------------------------------------------------------------------
  // What each call stores
  // ---------------------------------------------------------------------------

  lemma WriteStep(work: Doc, s: OrSet<Text>, v: Text, id: Text, lo: nat)
    requires FreshIn(s, id, lo)
    ensures SetStep(work, s, Written(s, Mint(id, lo + 1), v), id, lo, lo + 1)
  {
    hide Mint;
    assert MintedIn(Mint(id, lo + 1), id, lo, lo + 1);
  }

  lemma GiveStep(work: Doc, s: OrSet<Text>, v: Text, id: Text, lo: nat)
    requires FreshIn(s, id, lo)
    ensures SetStep(work, s, Given(s, Mint(id, lo + 1), v), id, lo, lo + 1)
  {
    hide Mint;
    assert MintedIn(Mint(id, lo + 1), id, lo, lo + 1);
  }

  lemma ClearStep(work: Doc, s: OrSet<Text>, seen: set<Text>, id: Text, n: nat)
    requires forall t :: t in seen ==> Names(work, t)
    ensures SetStep(work, s, OrSet(s.adds, Cleared(s).removes + seen), id, n, n)
  {
  }

  lemma LiveIsNamed(work: Doc, thing: Thing)
    ensures forall t :: t in LiveBeneath(work, thing) ==> Names(work, t)
  {
    forall t | t in LiveBeneath(work, thing) ensures Names(work, t) {
      var p :| p in work && Beneath(thing, p) && t in LiveTags(work[p]);
      assert Added(work, p, t, work[p].adds[t]);
    }
  }

  /** `t` is `s` with the first `k` missing values added, one counter each from `lo` on. */
  ghost predicate Filled(s: OrSet<Text>, t: OrSet<Text>, missing: seq<Text>, k: nat, id: Text, lo: nat)
    requires k <= |missing|
  {
    && t.removes == s.removes
    && (forall tag :: tag in s.adds ==> tag in t.adds && t.adds[tag] == s.adds[tag])
    && (forall n: nat :: lo < n <= lo + k ==>
          IsNew(s, t, Mint(id, n)) && t.adds[Mint(id, n)] == missing[n - lo - 1])
    && (forall tag :: IsNew(s, t, tag) ==> MintedIn(tag, id, lo, lo + k))
  }

  lemma FillMore(s: OrSet<Text>, t: OrSet<Text>, missing: seq<Text>, k: nat, id: Text, lo: nat)
    requires ValidId(id) && k < |missing| && Filled(s, t, missing, k, id, lo) && FreshIn(s, id, lo)
    ensures Filled(s, Given(t, Mint(id, lo + k + 1), missing[k]), missing, k + 1, id, lo)
  {
    hide Mint, ValidId;
    var tag := Mint(id, lo + k + 1);
    var u := Given(t, tag, missing[k]);
    forall n: nat | lo < n <= lo + k ensures Mint(id, n) != tag {
      if Mint(id, n) == tag { MintInjective(id, n, id, lo + k + 1); }
    }
    forall x | IsNew(s, u, x) ensures MintedIn(x, id, lo, lo + k + 1) {
      if x != tag {
        assert IsNew(s, t, x);
        var n: nat :| lo < n <= lo + k && x == Mint(id, n);
      }
    }
  }

  /** Every missing value added, then every extra one retired. */
  lemma FilledHeld(work: Doc, s: OrSet<Text>, t: OrSet<Text>, vs: set<Text>, missing: seq<Text>, id: Text, lo: nat)
    requires ValidId(id) && missing == Sorted(vs - Values(s)) && Filled(s, t, missing, |missing|, id, lo)
    ensures var u := OrSet(t.adds, t.removes + TagsFor(s, Values(s) - vs));
      Held(s, u, vs, id, lo, lo + |missing|) && SetStep(work, s, u, id, lo, lo + |missing|)
  {
    hide Mint, Values, ValidId, Sorted, Less;
    var u := OrSet(t.adds, t.removes + TagsFor(s, Values(s) - vs));
    SortedHolds(vs - Values(s));
    forall v | v in vs - Values(s) ensures exists tag :: IsNew(s, u, tag) && u.adds[tag] == v {
      assert v in missing;
      var i :| 0 <= i < |missing| && missing[i] == v;
      assert IsNew(s, u, Mint(id, lo + 1 + i));
    }
    forall tag | IsNew(s, u, tag) ensures MintedIn(tag, id, lo, lo + |missing|) && u.adds[tag] in vs - Values(s) {
      var n := FilledAt(s, t, missing, id, lo, tag);
    }
    forall tag, tag' | IsNew(s, u, tag) && IsNew(s, u, tag') && u.adds[tag] == u.adds[tag'] ensures tag == tag' {
      OneTagEach(s, t, missing, id, lo, vs, tag, tag');
    }
  }

  lemma OneTagEach(s: OrSet<Text>, t: OrSet<Text>, missing: seq<Text>, id: Text, lo: nat, vs: set<Text>,
                   a: Text, b: Text)
    requires missing == Sorted(vs - Values(s)) && Filled(s, t, missing, |missing|, id, lo)
    requires IsNew(s, t, a) && IsNew(s, t, b) && t.adds[a] == t.adds[b]
    ensures a == b
  {
    hide Mint, Values, Sorted, Filled;
    SortedAscending(vs - Values(s));
    var m := FilledAt(s, t, missing, id, lo, a);
    var n := FilledAt(s, t, missing, id, lo, b);
    LessIrreflexive(t.adds[a]);
  }

  lemma FilledAt(s: OrSet<Text>, t: OrSet<Text>, missing: seq<Text>, id: Text, lo: nat, tag: Text) returns (n: nat)
    requires Filled(s, t, missing, |missing|, id, lo) && IsNew(s, t, tag)
    ensures lo < n <= lo + |missing| && tag == Mint(id, n) && t.adds[tag] == missing[n - lo - 1]
    ensures t.adds[tag] in missing
  {
    hide Mint;
    n :| lo < n <= lo + |missing| && tag == Mint(id, n);
  }

  // ---------------------------------------------------------------------------
  // The editor
  // ---------------------------------------------------------------------------

  class Editor {
    const id: Text
    const reading: Reading
    ghost const base: Doc
    ghost const start: nat
    var work: Doc
    var delta: Doc
    var issued: nat
    var changes: nat

    /** Everything stored so far is one act of this replica's, with counters up to `n`. */
    ghost predicate ValidAt(n: nat)
      reads this
    {
      && ValidId(id) && FreshAbove(base, id, start)
      && EditOf(base, work, id, start, n) && n <= issued
      && JoinDocs(base, delta) == work && Below(delta, work) && OnlyNew(base, delta)
      && (changes == 0 <==> work == base)
    }

    ghost predicate Valid()
      reads this
    {
      ValidAt(issued)
    }

    constructor (doc: Doc, id: Text, issued: nat, reading: Reading)
      requires ValidId(id) && FreshAbove(doc, id, issued)
      ensures Valid() && fresh(this)
      ensures this.id == id && this.reading == reading && base == doc && start == issued
      ensures work == doc && this.issued == issued && changes == 0
    {
      this.id := id;
      this.reading := reading;
      base := doc;
      start := issued;
      work := doc;
      delta := EMPTY_DOC;
      this.issued := issued;
      changes := 0;
      NothingDone(doc, id, issued);
      JoinNothing(doc);
    }

    /** `mint`. */
    method NextTag() returns (tag: Text)
      modifies this`issued
      ensures issued == old(issued) + 1 && tag == Mint(id, issued)
    {
      issued := issued + 1;
      tag := Mint(id, issued);
    }

    /** `store`. */
    method Store(p: Place, before: OrSet<Text>, after: OrSet<Text>, ghost from: nat)
      requires ValidAt(from) && before == At(work, p)
      requires SetStep(work, before, after, id, from, issued)
      modifies this`work, this`delta, this`changes
      ensures Valid() && At(work, p) == after
      ensures forall q :: q != p ==> At(work, q) == At(old(work), q)
    {
      hide EditOf, FreshAbove, SetStep, JoinDocs, Below, ValidId, OnlyNew;
      if before == after {
        NoStore(work, before, id, from, issued);
        return;
      }
      StoreKeeps(base, delta, work, p, after, id, start, from, issued);
      StoreMoves(base, work, p, after, id, start, from, issued);
      delta := delta[p := Join(At(delta, p), Difference(before, after))];
      work := work[p := after];
      changes := changes + 1;
    }

    lemma FreshHere(n: nat, p: Place)
      requires ValidAt(n)
      ensures FreshIn(At(work, p), id, n)
    {
      hide EditOf, FreshAbove, FreshIn, JoinDocs, Below, ValidId;
      StaysFresh(base, work, id, start, n);
      FreshAt(work, id, n, p);
    }

    /** `sync_register`: a value equal to what is shown is not an edit. */
    method SyncRegister(p: Place, value: Option<Text>)
      requires Valid()
      modifies this
      ensures Valid() && old(issued) <= issued
      ensures Did(old(work), work, reading, id, p, if value.Some? then Write(value.value) else Clear,
                  old(issued), issued)
    {
      hide ValidAt, Values, SetStep, Resolve, FreshIn, Mint;
      var l := ResolveRegister(At(work, p), HowOf(reading, p), reading.number);
      ShownIsLive(At(work, p), HowOf(reading, p), reading.number);
      ghost var from := issued;
      var before := At(work, p);
      FreshHere(from, p);
      if value.Some? {
        if l.values != [] && l.values[0] == value.value { return; }
        WriteStep(work, before, value.value, id, from);
        var tag := NextTag();
        MintKeeps(from);
        Store(p, before, Written(before, tag, value.value), from);
        assert WrittenTo(before, At(work, p), value.value, id, from, issued);
      } else {
        if l.values == [] { return; }
        ClearStep(work, before, {}, id, from);
        assert Cleared(before).removes + {} == Cleared(before).removes;
        Store(p, before, Cleared(before), from);
      }
    }

    /** `write`, whatever is shown. */
    method Overwrite(p: Place, value: Text)
      requires Valid()
      modifies this
      ensures Valid() && old(issued) <= issued
      ensures forall q :: q != p ==> At(work, q) == At(old(work), q)
      ensures WrittenTo(At(old(work), p), At(work, p), value, id, old(issued), issued)
    {
      hide ValidAt, SetStep, FreshIn, Mint;
      ghost var from := issued;
      var before := At(work, p);
      FreshHere(from, p);
      WriteStep(work, before, value, id, from);
      var tag := NextTag();
      MintKeeps(from);
      Store(p, before, Written(before, tag, value), from);
    }

    /** `sync_set`. */
    method SyncSet(p: Place, want: set<Text>)
      requires Valid()
      modifies this
      ensures Valid() && old(issued) <= issued
      ensures Did(old(work), work, reading, id, p, Hold(want), old(issued), issued)
    {
      hide *;
      ghost var from := issued;
      var before := At(work, p);
      ValidNow();
      FreshHere(from, p);
      HasId(from);
      var after := before;
      var have := Values(before);
      var missing := Sorted(want - have);
      FillNone(before, missing, id, from);
      for k := 0 to |missing|
        invariant ValidAt(from) && issued == from + k
        invariant work == old(work)
        invariant Filled(before, after, missing, k, id, from)
      {
        FillMore(before, after, missing, k, id, from);
        label L:
        var tag := NextTag();
        MintKeeps@L(from);
        after := Given(after, tag, missing[k]);
      }
      FilledHeld(work, before, after, want, missing, id, from);
      after := OrSet(after.adds, after.removes + TagsFor(before, have - want));
      Store(p, before, after, from);
      DidHold(old(work), work, reading, id, p, want, from, issued);
    }

    lemma ValidNow()
      requires Valid()
      ensures ValidAt(issued)
    {
    }

    lemma HasId(n: nat)
      requires ValidAt(n)
      ensures ValidId(id)
    {
    }

    /** `make_present`. */
    method MakePresent(thing: Thing)
      requires Valid()
      modifies this
      ensures Valid() && old(issued) <= issued
      ensures Did(old(work), work, reading, id, Place(thing, Present), Appear(PresentValue(thing)),
                  old(issued), issued)
    {
      hide ValidAt, Values, SetStep, Resolve, FreshIn, Mint;
      var p := Place(thing, Present);
      ghost var from := issued;
      var before := At(work, p);
      if Values(before) != {} { return; }
      FreshHere(from, p);
      GiveStep(work, before, PresentValue(thing), id, from);
      var tag := NextTag();
      MintKeeps(from);
      Store(p, before, Given(before, tag, PresentValue(thing)), from);
      assert GivenTo(before, At(work, p), PresentValue(thing), id, from, issued);
    }

    /** `remove`: with every live tag the removal sees beneath. Observing that something gone is
        gone is not an act, unless it is asked for. */
    method Remove(thing: Thing, evenIfDead: bool)
      requires Valid()
      modifies this
      ensures Valid() && old(issued) == issued
      ensures !evenIfDead ==> Did(old(work), work, reading, id, Place(thing, Present),
        Vanish(LiveBeneath(old(work), thing)), old(issued), issued)
      ensures evenIfDead ==> At(work, Place(thing, Present)) == Deletion(old(work), thing)
      ensures var s, s' := At(old(work), Place(thing, Present)), At(work, Place(thing, Present));
        if Values(s) == {} && !evenIfDead then s' == s
        else s'.adds == s.adds && forall t :: t in s'.removes <==>
          t in s.adds || t in s.removes || exists p ::
            && PlaceNames.ThingKeys(thing) <= PlaceNames.PathOf(p) && p != Place(thing, Present)
            && t in At(old(work), p).adds && t !in At(old(work), p).removes
      ensures forall q :: q != Place(thing, Present) ==> At(work, q) == At(old(work), q)
    {
      hide ValidAt, Values, SetStep, LiveBeneath, PlaceNames.PathOf, PlaceNames.ThingKeys;
      var p := Place(thing, Present);
      DeletionRecords(work, thing);
      var before := At(work, p);
      if Values(before) == {} && !evenIfDead { return; }
      var seen := LiveBeneath(work, thing);
      LiveIsNamed(work, thing);
      ClearStep(work, before, seen, id, issued);
      Store(p, before, OrSet(before.adds, Cleared(before).removes + seen), issued);
    }

    /** One step of an observation: a set edited as the state wants it. */
    lemma Advance(w: Doc, n: nat, state: State, done: set<Place>, p: Place, want: Want)
      requires Progress(base, w, state, reading, id, start, n, done) && p !in done
      requires start <= n <= issued
      requires Did(w, work, reading, id, p, want, n, issued)
      requires want == Target(state, base, reading, p)
      ensures Progress(base, work, state, reading, id, start, issued, done + {p})
    {
      hide *;
      ProgressStep(base, w, work, state, reading, id, start, n, issued, done, p);
    }

    /** `observe_mantle`, `observe_rune` and the glyph loop: one thing the state shows. */
    method ObserveThing(state: State, thing: Thing, ghost done: set<Place>) returns (ghost all: set<Place>)
      requires Valid() && start <= issued && WellFormed(state) && thing in state
      requires Progress(base, work, state, reading, id, start, issued, done)
      requires forall p :: p in done ==> p.thing != thing
      modifies this
      ensures Valid() && start <= old(issued) <= issued && done <= all
      ensures Progress(base, work, state, reading, id, start, issued, all)
      ensures forall p :: p in all - done ==> p.thing == thing
      ensures forall p: Place :: p.thing == thing && p !in all ==> Idle(base, state, reading, p)
    {
      hide *;
      var shown := state[thing];
      ghost var w, n;
      all := done;
      var p := Place(thing, Present);
      w, n := work, issued;
      MakePresent(thing);
      WantsPresent(state, base, reading, thing);
      Advance(w, n, state, all, p, Appear(PresentValue(thing)));
      all := all + {p};
      var names := shown.fields.Keys + FieldsHeld(work, thing);
      NotHeld(work, base, state, reading, id, start, issued, thing, all);
      all := ObserveFields(state, thing, names, done, all);
      if thing.Rune? {
        w, n := work, issued;
        SyncSet(Place(thing, TagSet), shown.tags);
        WantsSet(state, base, reading, thing);
        Advance(w, n, state, all, Place(thing, TagSet), Hold(shown.tags));
        all := all + {Place(thing, TagSet)};
      }
      if thing.Mantle? {
        w, n := work, issued;
        SyncSet(Place(thing, EdgeSet), shown.edges);
        WantsSet(state, base, reading, thing);
        Advance(w, n, state, all, Place(thing, EdgeSet), Hold(shown.edges));
        all := all + {Place(thing, EdgeSet)};
      }
      WantsSet(state, base, reading, thing);
      EverySlot();
    }

    method ObserveFields(state: State, thing: Thing, names: set<Field>, ghost done: set<Place>, ghost before: set<Place>)
        returns (ghost all: set<Place>)
      requires Valid() && start <= issued && WellFormed(state) && thing in state
      requires Progress(base, work, state, reading, id, start, issued, before)
      requires before == done + {Place(thing, Present)} && forall p :: p in done ==> p.thing != thing
      requires state[thing].fields.Keys <= names
      modifies this
      ensures Valid() && start <= old(issued) <= issued && before <= all
      ensures Progress(base, work, state, reading, id, start, issued, all)
      ensures forall p :: p in all - before ==> p.thing == thing && p.slot.Register?
      ensures forall f :: f in names && Place(thing, Register(f)) !in all ==>
        Idle(base, state, reading, Place(thing, Register(f)))
    {
      hide *;
      ghost var w, n;
      all := before;
      var todo := names;
      while todo != {}
        invariant Valid() && start <= old(issued) <= issued && todo <= names && before <= all
        invariant Progress(base, work, state, reading, id, start, issued, all)
        invariant forall p :: p in all - before ==> p.thing == thing && p.slot.Register?
        invariant forall f :: f in todo ==> Place(thing, Register(f)) !in all
        invariant forall f :: f in names - todo && Place(thing, Register(f)) !in all ==>
          Idle(base, state, reading, Place(thing, Register(f)))
      {
        var f :| f in todo;
        todo := todo - {f};
        var p := Place(thing, Register(f));
        var shown := state[thing];
        WantsField(state, base, reading, thing, f);
        if f in shown.fields {
          w, n := work, issued;
          var v := FieldWanted(reading, f, shown.fields[f]);
          SyncRegister(p, Some(v));
          Advance(w, n, state, all, p, Write(v));
          all := all + {p};
        } else if Sparse(thing, f) {
          w, n := work, issued;
          SyncRegister(p, None);
          Advance(w, n, state, all, p, Clear);
          all := all + {p};
        }
      }
    }

    /** `observe_into`: everything the state shows, then everything it no longer has. */
    method ObserveInto(state: State)
      requires Valid() && WellFormed(state) && work == base && issued == start
      modifies this
      ensures Valid() && old(issued) <= issued
      ensures Observation(base, work, state, reading, id, start, issued)
    {
      hide *;
      ghost var done: set<Place> := {};
      ProgressNone(base, state, reading, id, start);
      var todo := state.Keys;
      while todo != {}
        invariant Valid() && start <= old(issued) <= issued && todo <= state.Keys
        invariant Progress(base, work, state, reading, id, start, issued, done)
        invariant forall p :: p in done ==> p.thing in state.Keys - todo
        invariant forall p: Place :: p.thing in state.Keys - todo && p !in done ==> Idle(base, state, reading, p)
      {
        var thing :| thing in todo;
        todo := todo - {thing};
        done := ObserveThing(state, thing, done);
      }
      var gone := GoneFrom(work, state);
      GoneAre(base, work, state, reading, id, start, issued, done, gone);
      ghost var w, n;
      ghost var shown := done;
      ghost var removed: set<Thing> := {};
      var left := gone;
      NoPresences(shown);
      while left != {}
        invariant Valid() && start <= old(issued) <= issued && left == gone - removed && removed <= gone
        invariant Progress(base, work, state, reading, id, start, issued, done)
        invariant done == shown + Presences(removed)
      {
        var thing :| thing in left;
        left := left - {thing};
        w, n := work, issued;
        SeesBase(base, work, state, reading, id, start, issued, shown, gone, removed, thing);
        Remove(thing, false);
        Advance(w, n, state, done, Place(thing, Present), Vanish(LiveBeneath(base, thing)));
        removed := removed + {thing};
        PresenceMore(shown, removed, thing, done);
        done := done + {Place(thing, Present)};
      }
      assert removed == gone;
      EverythingSettled(base, state, reading, gone, shown, done);
      ProgressEnds(base, work, state, reading, id, start, issued, done);
      Observed(state);
    }

    lemma Observed(state: State)
      requires Valid() && forall p :: PlaceEdited(base, work, state, reading, id, start, issued, p)
      ensures Observation(base, work, state, reading, id, start, issued)
    {
      hide PlaceEdited;
    }

    twostate lemma MintKeeps(n: nat)
      requires old(ValidAt(n)) && old(issued) <= issued
      requires work == old(work) && delta == old(delta) && changes == old(changes)
      ensures ValidAt(n)
    {
    }
  }

  lemma WantsPresent(state: State, base: Doc, r: Reading, thing: Thing)
    requires thing in state
    ensures Target(state, base, r, Place(thing, Present)) == Appear(PresentValue(thing))
  {
  }

  lemma WantsSet(state: State, base: Doc, r: Reading, thing: Thing)
    requires thing in state
    ensures thing.Rune? ==> Target(state, base, r, Place(thing, TagSet)) == Hold(state[thing].tags)
    ensures !thing.Rune? ==> Idle(base, state, r, Place(thing, TagSet))
    ensures thing.Mantle? ==> Target(state, base, r, Place(thing, EdgeSet)) == Hold(state[thing].edges)
    ensures !thing.Mantle? ==> Idle(base, state, r, Place(thing, EdgeSet))
  {
    if !thing.Rune? { IdleElsewhere(base, state, r, Place(thing, TagSet)); }
    if !thing.Mantle? { IdleElsewhere(base, state, r, Place(thing, EdgeSet)); }
  }

  lemma WantsField(state: State, base: Doc, r: Reading, thing: Thing, f: Field)
    requires WellFormed(state) && thing in state
    ensures f in state[thing].fields ==>
      Target(state, base, r, Place(thing, Register(f))) == Write(FieldWanted(r, f, state[thing].fields[f]))
    ensures f !in state[thing].fields && Sparse(thing, f) ==> Target(state, base, r, Place(thing, Register(f))) == Clear
    ensures f !in state[thing].fields && !Sparse(thing, f) ==> Idle(base, state, r, Place(thing, Register(f)))
  {
    if f !in state[thing].fields && !Sparse(thing, f) { IdleRegister(base, state, r, thing, f); }
  }

  lemma EverySlot()
    ensures forall p: Place :: p.slot.Present? || p.slot.TagSet? || p.slot.EdgeSet? || p.slot.Register?
  {
  }

  /** A register the document does not hold and the state does not show is idle. */
  lemma NotHeld(w: Doc, base: Doc, state: State, r: Reading, id: Text, lo: nat, hi: nat, thing: Thing, done: set<Place>)
    requires WellFormed(state) && thing in state && Progress(base, w, state, r, id, lo, hi, done)
    requires forall p :: p in done && p.thing == thing ==> p.slot.Present?
    ensures forall f :: f !in state[thing].fields && f !in FieldsHeld(w, thing) ==>
      Idle(base, state, r, Place(thing, Register(f)))
  {
    hide PlaceEdited, Values, Idle;
    forall f | f !in state[thing].fields && f !in FieldsHeld(w, thing)
      ensures Idle(base, state, r, Place(thing, Register(f)))
    {
      var p := Place(thing, Register(f));
      assert p !in w;
      assert At(base, p) == EMPTY_SET;
      NothingLive();
      IdleRegister(base, state, r, thing, f);
    }
  }

  lemma NothingLive()
    ensures Values(EMPTY_SET) == {}
  {
  }

  lemma ProgressNone(base: Doc, state: State, r: Reading, id: Text, n: nat)
    ensures Progress(base, base, state, r, id, n, n, {})
  {
  }

  /** Things shown before and missing from the state. */
  function GoneFrom(w: Doc, state: State): set<Thing>
  {
    set p | p in w && p.slot.Present? && Missed(state, p.thing) && Values(w[p]) != {} :: p.thing
  }

  lemma GoneAre(base: Doc, w: Doc, state: State, r: Reading, id: Text, lo: nat, hi: nat, done: set<Place>, gone: set<Thing>)
    requires Progress(base, w, state, r, id, lo, hi, done) && gone == GoneFrom(w, state)
    requires forall p :: p in done ==> p.thing in state
    ensures forall thing :: thing in gone <==> Missed(state, thing) && Alive(base, thing)
  {
    hide PlaceEdited, Values;
    NothingLive();
    forall thing ensures thing in gone <==> Missed(state, thing) && Alive(base, thing) {
      var p := Place(thing, Present);
      if thing in gone {
        assert p in w && At(w, p) == w[p];
      }
      if Missed(state, thing) && Alive(base, thing) {
        assert At(w, p) == At(base, p);
        assert p in w;
      }
    }
  }

  /** Nothing beneath a thing the state lacks has been touched when it is removed. */
  lemma SeesBase(base: Doc, w: Doc, state: State, r: Reading, id: Text, lo: nat, hi: nat,
                 shown: set<Place>, gone: set<Thing>, removed: set<Thing>, thing: Thing)
    requires Progress(base, w, state, r, id, lo, hi, shown + Presences(removed)) && WellFormed(state)
    requires forall p :: p in shown ==> p.thing in state
    requires forall g :: g in gone <==> Missed(state, g) && Alive(base, g)
    requires removed <= gone && thing in gone && thing !in removed
    ensures LiveBeneath(w, thing) == LiveBeneath(base, thing)
    ensures Place(thing, Present) !in shown + Presences(removed)
    ensures Target(state, base, r, Place(thing, Present)) == Vanish(LiveBeneath(base, thing))
  {
    hide PlaceEdited, LiveTags, LiveBeneath, Alive, At;
    forall p | Beneath(thing, p) ensures p !in shown + Presences(removed) {
      assert Missed(state, thing);
      assert p.thing !in state;
    }
    forall t ensures t in LiveBeneath(w, thing) <==> t in LiveBeneath(base, thing) {
      LiveAt(w, thing, t);
      LiveAt(base, thing, t);
    }
  }

  ghost function Presences(things: set<Thing>): set<Place>
  {
    set g | g in things :: Place(g, Present)
  }

  lemma NoPresences(shown: set<Place>)
    ensures shown == shown + Presences({})
  {
  }

  lemma PresenceMore(shown: set<Place>, removed: set<Thing>, thing: Thing, done: set<Place>)
    requires thing in removed && done == shown + Presences(removed - {thing})
    ensures done + {Place(thing, Present)} == shown + Presences(removed)
  {
    assert removed == (removed - {thing}) + {thing};
  }

  lemma EverythingSettled(base: Doc, state: State, r: Reading, gone: set<Thing>, shown: set<Place>, done: set<Place>)
    requires forall p: Place :: p.thing in state && p !in shown ==> Idle(base, state, r, p)
    requires forall g :: g in gone <==> Missed(state, g) && Alive(base, g)
    requires done == shown + Presences(gone)
    ensures forall p :: p !in done ==> Idle(base, state, r, p)
  {
    hide Idle, Values;
    forall p | p !in done ensures Idle(base, state, r, p) {
      if p.thing !in state {
        assert p.slot.Present? && p.thing in gone ==> p in Presences(gone);
        IdleElsewhere(base, state, r, p);
      }
    }
  }

  lemma FillNone(s: OrSet<Text>, missing: seq<Text>, id: Text, lo: nat)
    ensures Filled(s, s, missing, 0, id, lo)
  {
  }

  lemma DidHold(w: Doc, w': Doc, r: Reading, id: Text, p: Place, want: set<Text>, lo: nat, hi: nat)
    requires forall q :: q != p ==> At(w', q) == At(w, q)
    requires Held(At(w, p), At(w', p), want, id, lo, hi)
    ensures Did(w, w', r, id, p, Hold(want), lo, hi)
  {
  }

  lemma JoinNothing(d: Doc)
    ensures JoinDocs(d, EMPTY_DOC) == d && Below(EMPTY_DOC, d)
  {
    JoinAbsorbs(EMPTY_DOC, d);
  }

  lemma EditIsAbove(a: Doc, b: Doc, id: Text, lo: nat, hi: nat)
    requires EditOf(a, b, id, lo, hi)
    ensures Below(a, b)
  {
  }

  lemma StoreKeeps(base: Doc, delta: Doc, work: Doc, p: Place, t: OrSet<Text>, id: Text, lo: nat, mid: nat, hi: nat)
    requires ValidId(id) && EditOf(base, work, id, lo, mid) && JoinDocs(base, delta) == work && Below(delta, work)
    requires SetStep(work, At(work, p), t, id, mid, hi) && t != At(work, p) && OnlyNew(base, delta)
    ensures EditOf(base, work[p := t], id, lo, hi)
    ensures OnlyNew(base, delta[p := Join(At(delta, p), Difference(At(work, p), t))])
    ensures var delta' := delta[p := Join(At(delta, p), Difference(At(work, p), t))];
      JoinDocs(base, delta') == work[p := t] && Below(delta', work[p := t])
  {
    hide EditOf, Join, JoinDocs, Below, At, Difference, MintedIn, Mint, Names, ValidId, OnlyNew;
    EditIsAbove(base, work, id, lo, mid);
    OnlyNewStays(base, delta, work, p, t);
    StoreIsEdit(work, p, t, id, mid, hi);
    EditThen(base, work, work[p := t], id, lo, mid, hi);
    DeltaStays(base, delta, work, p, t);
  }

  lemma StoreMoves(base: Doc, work: Doc, p: Place, t: OrSet<Text>, id: Text, lo: nat, mid: nat, hi: nat)
    requires EditOf(base, work, id, lo, mid) && SetStep(work, At(work, p), t, id, mid, hi) && t != At(work, p)
    ensures work[p := t] != base
  {
    hide Mint, Added, Removed, At;
    var after := work[p := t];
    StoreIsEdit(work, p, t, id, mid, hi);
    StoredIs(work, p, t);
    if after == base {
      BelowAntisymmetric(work, after);
    }
  }

  lemma StoredIs(work: Doc, p: Place, t: OrSet<Text>)
    ensures At(work[p := t], p) == t
  {
  }
}
