/** The history graph of src/utterance/history.cpp: adding, delivery in any order, heads,
    and the one timeline. */
module Histories {
  import opened Bytes

  /** `body` stands for everything an utterance says apart from its parents. */
  datatype Utterance = Utterance(hash: Text, parents: seq<Text>, body: Text)

  /** `Utterance::name()`: a digest of the parents as a set and of the body; [] where the
      content has no canonical form. */
  type Naming = (set<Text>, Text) -> Text

  function ParentSet(u: Utterance): set<Text>
  {
    set p | p in u.parents
  }

  predicate Sealed(name: Naming, u: Utterance)
  {
    u.hash != [] && name(ParentSet(u), u.body) == u.hash
  }

  /** No two contents share a name. */
  ghost predicate Injective(name: Naming)
  {
    forall p, b, q, c :: name(p, b) == name(q, c) && name(p, b) != [] ==> p == q && b == c
  }

  datatype Added = Ok | Duplicate | MissingParent | Malformed

  type Graph = map<Text, set<Text>>

  function Hashes(t: seq<Text>): set<Text>
  {
    set h | h in t
  }

  // ---------------------------------------------------------------------------
  // Timelines
  // ---------------------------------------------------------------------------

  /** At its place in `t` an utterance comes after its parents. */
  ghost predicate InPlace(g: Graph, done: set<Text>, t: seq<Text>, i: int)
    requires 0 <= i < |t|
  {
    t[i] in g && t[i] !in done && g[t[i]] <= done + Hashes(t[..i])
  }

  ghost predicate Distinct(t: seq<Text>)
  {
    forall i, j :: 0 <= i < j < |t| ==> t[i] != t[j]
  }

  /** `t` lists everything of `g` not in `done` once, parents first. */
  ghost predicate IsTimeline(g: Graph, done: set<Text>, t: seq<Text>)
  {
    && (forall i :: 0 <= i < |t| ==> InPlace(g, done, t, i))
    && Distinct(t)
    && (forall h :: h in g && h !in done ==> h in t)
  }

  function Ready(g: Graph, done: set<Text>): set<Text>
  {
    set h | h in g && h !in done && g[h] <= done
  }

  /** Smallest ready hash first, for as long as anything is ready. */
  ghost function Lin(g: Graph, done: set<Text>): seq<Text>
    decreases |g.Keys - done|
  {
    if Ready(g, done) == {} then [] else
      var m := Least(Ready(g, done));
      assert g.Keys - (done + {m}) < g.Keys - done;
      SubsetSmaller(g.Keys - (done + {m}), g.Keys - done);
      [m] + Lin(g, done + {m})
  }

  /** Taking a ready hash out of a timeline leaves a timeline of the rest. */
  lemma TimelineWithout(g: Graph, done: set<Text>, t: seq<Text>, k: nat)
    requires IsTimeline(g, done, t) && k < |t| && t[k] in g && g[t[k]] <= done
    ensures IsTimeline(g, done + {t[k]}, t[..k] + t[k + 1..])
  {
    hide Distinct, InPlace;
    var r := t[..k] + t[k + 1..];
    forall i | 0 <= i < |r| ensures InPlace(g, done + {t[k]}, r, i) {
      PlaceWithout(g, done, t, k, i);
    }
    DistinctWithout(t, k);
    forall h | h in g && h !in done + {t[k]} ensures h in r {
      assert h in t && t == t[..k] + [t[k]] + t[k + 1..];
    }
  }

  lemma PlaceWithout(g: Graph, done: set<Text>, t: seq<Text>, k: nat, i: nat)
    requires Distinct(t) && k < |t| && i < |t| - 1
    requires InPlace(g, done, t, if i < k then i else i + 1)
    ensures InPlace(g, done + {t[k]}, t[..k] + t[k + 1..], i)
  {
    var r := t[..k] + t[k + 1..];
    if i < k {
      assert r[..i] == t[..i];
    } else {
      assert r[i] == t[i + 1];
      assert t[..i + 1] == t[..k] + [t[k]] + t[k + 1..i + 1];
      assert r[..i] == t[..k] + t[k + 1..i + 1];
      assert Hashes(t[..i + 1]) == Hashes(r[..i]) + {t[k]};
    }
  }

  lemma DistinctWithout(t: seq<Text>, k: nat)
    requires Distinct(t) && k < |t|
    ensures Distinct(t[..k] + t[k + 1..])
  {
  }

  lemma FirstReady(g: Graph, done: set<Text>, t: seq<Text>)
    requires IsTimeline(g, done, t) && t != []
    ensures t[0] in Ready(g, done) && g[t[0]] <= done
    ensures forall h :: h in Ready(g, done) ==> h in t && h in g && h !in done && g[h] <= done
  {
    assert InPlace(g, done, t, 0);
    assert t[..0] == [];
  }

  lemma NothingReady(g: Graph, done: set<Text>)
    requires IsTimeline(g, done, [])
    ensures Ready(g, done) == {}
  {
  }

  /** If anything can be listed parents first, Kahn's choice lists all of it. */
  lemma {:induction false} LinIsTimeline(g: Graph, done: set<Text>, t: seq<Text>)
    requires IsTimeline(g, done, t)
    ensures IsTimeline(g, done, Lin(g, done))
    decreases |t|
  {
    hide IsTimeline, Ready;
    if t == [] {
      NothingReady(g, done);
    } else {
      FirstReady(g, done, t);
      var m := Least(Ready(g, done));
      var k :| 0 <= k < |t| && t[k] == m;
      TimelineWithout(g, done, t, k);
      LinIsTimeline(g, done + {m}, t[..k] + t[k + 1..]);
      TimelineFirst(g, done, m, Lin(g, done + {m}));
    }
  }

  lemma TimelineFirst(g: Graph, done: set<Text>, m: Text, r: seq<Text>)
    requires m in g && m !in done && g[m] <= done && IsTimeline(g, done + {m}, r)
    ensures IsTimeline(g, done, [m] + r)
  {
    var t := [m] + r;
    forall i | 0 <= i < |t| ensures InPlace(g, done, t, i) {
      if i > 0 {
        assert InPlace(g, done + {m}, r, i - 1);
        assert t[..i] == [m] + r[..i - 1];
      }
    }
    forall j | 0 <= j < |r| ensures r[j] != m {
      assert InPlace(g, done + {m}, r, j);
    }
  }

  predicate ListLess(a: seq<Text>, b: seq<Text>)
  {
    a != [] && b != [] && (Less(a[0], b[0]) || (a[0] == b[0] && ListLess(a[1..], b[1..])))
  }

  ghost predicate DiffersAt(a: seq<Text>, b: seq<Text>, k: nat)
  {
    k < |a| && k < |b| && a[..k] == b[..k] && Less(a[k], b[k])
  }

  /** One list is less than another when it has the lesser text where they first differ. */
  lemma {:induction false} ListLessMeans(a: seq<Text>, b: seq<Text>)
    ensures ListLess(a, b) <==> exists k: nat :: DiffersAt(a, b, k)
  {
    hide Less;
    if a == [] || b == [] || a[0] != b[0] {
      assert ListLess(a, b) ==> DiffersAt(a, b, 0);
      if k: nat :| DiffersAt(a, b, k) { DiffersLater(a, b, k); }
    } else {
      ListLessMeans(a[1..], b[1..]);
      LessIrreflexive(a[0]);
      if k: nat :| DiffersAt(a[1..], b[1..], k) {
        assert a[..k + 1] == [a[0]] + a[1..][..k] && b[..k + 1] == [b[0]] + b[1..][..k];
        assert DiffersAt(a, b, k + 1);
      }
      if k: nat :| DiffersAt(a, b, k) {
        DiffersLater(a, b, k);
        assert a[..k][1..] == a[1..][..k - 1] && b[..k][1..] == b[1..][..k - 1];
        assert DiffersAt(a[1..], b[1..], k - 1);
      }
    }
  }

  lemma DiffersLater(a: seq<Text>, b: seq<Text>, k: nat)
    requires DiffersAt(a, b, k)
    ensures a != [] && b != [] && (if k > 0 then a[0] == b[0] else Less(a[0], b[0]))
  {
    assert k > 0 ==> a[..k][0] == b[..k][0];
  }

  /** It is the least of all timelines, word by word. */
  lemma {:induction false} LinLeast(g: Graph, done: set<Text>, t: seq<Text>)
    requires IsTimeline(g, done, t)
    ensures t == Lin(g, done) || ListLess(Lin(g, done), t)
    decreases |t|
  {
    hide IsTimeline, Ready;
    if t == [] {
      NothingReady(g, done);
    } else {
      FirstReady(g, done, t);
      var m := Least(Ready(g, done));
      if t[0] == m {
        TimelineWithout(g, done, t, 0);
        assert t[..0] + t[1..] == t[1..];
        LinLeast(g, done + {m}, t[1..]);
        assert t == [m] + t[1..];
      }
    }
  }

  // ---------------------------------------------------------------------------
  // Counting parents not yet listed
  // ---------------------------------------------------------------------------

  function Outside(parents: seq<Text>, done: set<Text>): nat
  {
    if parents == [] then 0
    else (if parents[0] in done then 0 else 1) + Outside(parents[1..], done)
  }

  lemma {:induction false} OutsideZero(parents: seq<Text>, done: set<Text>)
    ensures Outside(parents, done) == 0 <==> (set p | p in parents) <= done
  {
    if parents != [] {
      OutsideZero(parents[1..], done);
      assert parents == [parents[0]] + parents[1..];
      assert (set p | p in parents) == {parents[0]} + (set p | p in parents[1..]);
    }
  }

  lemma {:induction false} OutsideDrops(parents: seq<Text>, done: set<Text>, h: Text)
    requires h !in done
    ensures Outside(parents, done + {h}) == Outside(parents, done) - multiset(parents)[h]
  {
    if parents != [] {
      OutsideDrops(parents[1..], done, h);
      assert parents == [parents[0]] + parents[1..];
    }
  }

  lemma {:induction false} OutsideAll(parents: seq<Text>)
    ensures Outside(parents, {}) == |parents|
  {
    if parents != [] { OutsideAll(parents[1..]); }
  }

  // ---------------------------------------------------------------------------
  // Delivery
  // ---------------------------------------------------------------------------

  ghost function NewHashes(t: seq<Utterance>): set<Text>
  {
    set u | u in t :: u.hash
  }

  /** `t` can be added one after the other to a history holding `held`. */
  ghost predicate Deliverable(name: Naming, held: set<Text>, t: seq<Utterance>)
  {
    forall i :: 0 <= i < |t| ==>
      Sealed(name, t[i]) && ParentSet(t[i]) <= held + NewHashes(t[..i])
  }

  /** Nothing well sealed that was offered is left out with all its parents in. */
  ghost predicate Saturated(name: Naming, offers: set<Utterance>, result: set<Text>)
  {
    forall u :: u in offers && Sealed(name, u) && ParentSet(u) <= result ==> u.hash in result
  }

  /** `result` is what delivering `offers` must end with: what was held, plus offered
      utterances added parents first, until nothing more fits. */
  ghost predicate IsDelivery(name: Naming, held: set<Text>, offers: set<Utterance>, result: set<Text>)
  {
    && Saturated(name, offers, result)
    && exists t :: Deliverable(name, held, t) && (forall u :: u in t ==> u in offers)
                && result == held + NewHashes(t)
  }

  /** A saturated result holds everything any order of delivery could have added. */
  lemma {:induction false} SaturatedHoldsAll(name: Naming, held: set<Text>, offers: set<Utterance>,
                                             result: set<Text>, t: seq<Utterance>)
    requires Saturated(name, offers, result) && held <= result
    requires Deliverable(name, held, t) && forall u :: u in t ==> u in offers
    ensures NewHashes(t) <= result
    decreases |t|
  {
    if t != [] {
      var n := |t| - 1;
      var r := t[..n];
      forall i | 0 <= i < n ensures Sealed(name, r[i]) && ParentSet(r[i]) <= held + NewHashes(r[..i]) {
        assert r[..i] == t[..i];
      }
      SaturatedHoldsAll(name, held, offers, result, r);
      assert t[n] in t;
      assert t == r + [t[n]];
    }
  }

  /** Delivery has one result: the largest set that can be reached. Order does not matter. */
  lemma DeliveryUnique(name: Naming, held: set<Text>, offers: set<Utterance>, r1: set<Text>, r2: set<Text>)
    requires IsDelivery(name, held, offers, r1) && IsDelivery(name, held, offers, r2)
    ensures r1 == r2
  {
    hide Deliverable, Saturated;
    var t1 :| Deliverable(name, held, t1) && (forall u :: u in t1 ==> u in offers) && r1 == held + NewHashes(t1);
    var t2 :| Deliverable(name, held, t2) && (forall u :: u in t2 ==> u in offers) && r2 == held + NewHashes(t2);
    SaturatedHoldsAll(name, held, offers, r1, t2);
    SaturatedHoldsAll(name, held, offers, r2, t1);
  }

  lemma DeliverableConcat(name: Naming, held: set<Text>, a: seq<Utterance>, b: seq<Utterance>)
    requires Deliverable(name, held, a) && Deliverable(name, held + NewHashes(a), b)
    ensures Deliverable(name, held, a + b)
    ensures NewHashes(a + b) == NewHashes(a) + NewHashes(b)
  {
    var t := a + b;
    forall i | 0 <= i < |t| ensures Sealed(name, t[i]) && ParentSet(t[i]) <= held + NewHashes(t[..i]) {
      if i < |a| {
        assert t[..i] == a[..i];
        assert t[i] == a[i];
      } else {
        assert t[..i] == a + b[..i - |a|];
        assert NewHashes(t[..i]) == NewHashes(a) + NewHashes(b[..i - |a|]);
        assert t[i] == b[i - |a|];
      }
    }
  }

  /** Nor does batching: offering what a first batch left over together with a second one
      ends where offering both at once ends. */
  lemma BatchesAgree(name: Naming, held: set<Text>, a: set<Utterance>, b: set<Utterance>,
                     rest: set<Utterance>, r1: set<Text>, r2: set<Text>)
    requires IsDelivery(name, held, a, r1) && IsDelivery(name, r1, rest + b, r2)
    requires rest <= a && forall u :: u in a && u !in rest ==> u.hash in r1
    ensures IsDelivery(name, held, a + b, r2)
  {
    hide Deliverable;
    var t1 :| Deliverable(name, held, t1) && (forall u :: u in t1 ==> u in a) && r1 == held + NewHashes(t1);
    var t2 :| Deliverable(name, r1, t2) && (forall u :: u in t2 ==> u in rest + b) && r2 == r1 + NewHashes(t2);
    DeliverableConcat(name, held, t1, t2);
    assert forall u :: u in t1 + t2 ==> u in a + b;
  }

  // ---------------------------------------------------------------------------
  // The graph
  // ---------------------------------------------------------------------------

  function Count(kids: map<Text, seq<Text>>, p: Text, c: Text): nat
  {
    if p in kids then multiset(kids[p])[c] else 0
  }

  /** The maximal elements: what nothing else names as a parent. */
  ghost predicate IsHead(g: Graph, h: Text)
  {
    h in g && forall c :: c in g ==> h !in g[c]
  }

  ghost function GraphOf(byHash: map<Text, Utterance>): Graph
  {
    map h | h in byHash :: ParentSet(byHash[h])
  }

  method AllHeld(byHash: map<Text, Utterance>, parents: seq<Text>) returns (held: bool)
    ensures held <==> (set p | p in parents) <= byHash.Keys
  {
    for i := 0 to |parents|
      invariant forall j :: 0 <= j < i ==> parents[j] in byHash
    {
      if parents[i] !in byHash { return false; }
    }
    return true;
  }

  /** `children_[p].push_back(h)` for every parent entry `p`. */
  method WithChild(children: map<Text, seq<Text>>, parents: seq<Text>, h: Text) returns (kids: map<Text, seq<Text>>)
    ensures forall p, c ::
      Count(kids, p, c) == Count(children, p, c) + if c == h then multiset(parents)[p] else 0
  {
    kids := children;
    for i := 0 to |parents|
      invariant forall p, c ::
        Count(kids, p, c) == Count(children, p, c) + if c == h then multiset(parents[..i])[p] else 0
    {
      var p := parents[i];
      assert parents[..i + 1] == parents[..i] + [p];
      kids := kids[p := (if p in kids then kids[p] else []) + [h]];
    }
    assert parents[..|parents|] == parents;
  }

  class History {
    const name: Naming
    var byHash: map<Text, Utterance>
    var children: map<Text, seq<Text>>
    /** The order things were added in. */
    ghost var arrivals: seq<Text>

    ghost predicate Valid()
      reads this
    {
      && (forall h :: h in byHash ==> byHash[h].hash == h && Sealed(name, byHash[h]))
      && (forall p, c :: Count(children, p, c)
            == if c in byHash then multiset(byHash[c].parents)[p] else 0)
      && IsTimeline(GraphOf(byHash), {}, arrivals)
    }

    constructor (name: Naming)
      ensures Valid() && this.name == name && byHash == map[]
    {
      this.name := name;
      byHash, children, arrivals := map[], map[], [];
    }

    /** `add`: refuses what is mis-sealed, held already, or early, changing nothing. */
    method Add(u: Utterance) returns (r: Added)
      requires Valid()
      modifies this
      ensures Valid()
      ensures r == Malformed <==> !Sealed(name, u)
      ensures r == Duplicate <==> Sealed(name, u) && u.hash in old(byHash)
      ensures r == MissingParent <==>
        Sealed(name, u) && u.hash !in old(byHash) && !(ParentSet(u) <= old(byHash).Keys)
      ensures byHash == if r == Ok then old(byHash)[u.hash := u] else old(byHash)
      ensures arrivals == if r == Ok then old(arrivals) + [u.hash] else old(arrivals)
    {
      if u.hash == [] { return Malformed; }
      var recomputed := name(ParentSet(u), u.body);
      if recomputed != u.hash { return Malformed; }
      if u.hash in byHash { return Duplicate; }
      var held := AllHeld(byHash, u.parents);
      if !held { return MissingParent; }
      Place(u);
      return Ok;
    }

    /** The utterance, its edges and its turn recorded. */
    method Place(u: Utterance)
      requires Valid() && Sealed(name, u) && u.hash !in byHash && ParentSet(u) <= byHash.Keys
      modifies this
      ensures Valid() && byHash == old(byHash)[u.hash := u] && arrivals == old(arrivals) + [u.hash]
    {
      hide Sealed, IsTimeline, GraphOf, ParentSet;
      PlaceInGraph(byHash, u);
      TimelineGrows(GraphOf(byHash), arrivals, u.hash, ParentSet(u));
      byHash := byHash[u.hash := u];
      children := WithChild(children, u.parents, u.hash);
      arrivals := arrivals + [u.hash];
    }

    /** `heads`: the maximal elements, sorted. */
    method Heads() returns (out: seq<Text>)
      requires Valid()
      ensures Ascending(out)
      ensures forall h :: h in out <==> IsHead(GraphOf(byHash), h)
    {
      var heads := set h | h in byHash && (h !in children || children[h] == []);
      SortedAscending(heads);
      out := Sorted(heads);
      forall h ensures h in heads <==> IsHead(GraphOf(byHash), h) {
        ChildrenTell(byHash, children, h);
      }
    }

    /** `linear_extension`: Kahn's algorithm with the smallest ready hash first. */
    method LinearExtension() returns (order: seq<Text>)
      requires Valid()
      ensures order == Lin(GraphOf(byHash), {})
    {
      hide Kahn, Lin, GraphOf, Ready;
      ghost var g := GraphOf(byHash);
      var remaining: map<Text, nat> := map h | h in byHash :: |byHash[h].parents|;
      var ready := set h | h in byHash && byHash[h].parents == [];
      ghost var done: set<Text> := {};
      KahnStart(byHash);
      order := [];
      while ready != {}
        invariant Kahn(byHash, remaining, ready, done)
        invariant order + Lin(g, done) == Lin(g, {})
        decreases |byHash.Keys - done|
      {
        KahnReady(byHash, remaining, ready, done);
        LinStep(g, done, order);
        var h := Least(ready);
        order := order + [h];
        KahnShrinks(byHash, remaining, ready, done, h);
        remaining, ready := Release(byHash, children, remaining, ready - {h}, done, h);
        done := done + {h};
      }
      KahnReady(byHash, remaining, ready, done);
      LinStep(g, done, order);
    }

    /** One pass over `pending`, adding what has become placeable. */
    method Pass(pending: seq<Utterance>)
        returns (progress: bool, added: nat, still: seq<Utterance>, ghost placed: seq<Utterance>)
      requires Valid()
      modifies this
      ensures Valid() && Kept(old(byHash), byHash, pending)
      ensures Deliverable(name, old(byHash).Keys, placed) && forall u :: u in placed ==> u in pending
      ensures byHash.Keys == old(byHash).Keys + NewHashes(placed)
      ensures added == |placed| && |arrivals| == |old(arrivals)| + added
      ensures forall u :: u in still ==> u in pending
      ensures forall u :: u in pending && u !in still ==> u.hash in byHash
      ensures progress ==> |still| < |pending|
      ensures !progress ==> still == pending && placed == [] && Stuck(name, byHash.Keys, pending)
    {
      hide Deliverable, Stuck;
      progress, added, still, placed := false, 0, [], [];
      PassStart(name, byHash, pending);
      for i := 0 to |pending|
        invariant Valid() && added == |placed| && |arrivals| == |old(arrivals)| + added
        invariant Passed(name, old(byHash), byHash, pending, i, progress, placed, still)
      {
        ghost var mid := byHash;
        var u := pending[i];
        var r := Add(u);
        if r == Ok {
          PassOk(name, old(byHash), mid, pending, i, progress, placed, still);
          added, progress, placed := added + 1, true, placed + [u];
        } else if r == Duplicate {
          PassDuplicate(name, old(byHash), mid, pending, i, progress, placed, still);
          progress := true;
        } else {
          StuckOne(name, byHash.Keys, u);
          PassStill(name, old(byHash), mid, pending, i, progress, placed, still);
          still := still + [u];
        }
      }
      assert pending[..|pending|] == pending;
    }

    /** `receive`: passes over what is pending until a pass places nothing. */
    method Receive(inbox: seq<Utterance>) returns (added: nat, unplaceable: seq<Utterance>)
      requires Valid()
      modifies this
      ensures Valid() && Kept(old(byHash), byHash, inbox)
      ensures IsDelivery(name, old(byHash).Keys, (set u | u in inbox), byHash.Keys)
      ensures added == |arrivals| - |old(arrivals)|
      ensures forall u :: u in unplaceable ==> u in inbox
      ensures Stuck(name, byHash.Keys, unplaceable)
      ensures forall u :: u in inbox && u !in unplaceable ==> u.hash in byHash
    {
      hide Deliverable;
      var pending := inbox;
      added := 0;
      var progress := true;
      ghost var t: seq<Utterance> := [];
      StartDelivery(name, byHash, inbox);
      while progress && pending != []
        invariant Valid() && Kept(old(byHash), byHash, inbox)
        invariant Deliverable(name, old(byHash).Keys, t) && (forall u :: u in t ==> u in inbox)
        invariant byHash.Keys == old(byHash).Keys + NewHashes(t)
        invariant added == |arrivals| - |old(arrivals)|
        invariant forall u :: u in pending ==> u in inbox
        invariant forall u :: u in inbox && u !in pending ==> u.hash in byHash
        invariant !progress ==> Stuck(name, byHash.Keys, pending)
        decreases |pending|, progress
      {
        ghost var mid := byHash;
        var more, n, still, placed := Pass(pending);
        DeliverableConcat(name, old(byHash).Keys, t, placed);
        KeptChain(old(byHash), mid, byHash, inbox, pending);
        t := t + placed;
        added, progress, pending := added + n, more, still;
      }
      unplaceable := pending;
      DeliveryEnds(name, old(byHash).Keys, inbox, byHash.Keys, t, unplaceable);
    }

    /** `absorb`: takes all of another history. */
    method Absorb(other: History) returns (added: nat)
      requires Valid() && other.Valid() && other != this && other.name == name
      modifies this
      ensures Valid()
      ensures byHash.Keys == old(byHash).Keys + other.byHash.Keys
      ensures forall h :: h in old(byHash) ==> h in byHash && byHash[h] == old(byHash)[h]
    {
      hide IsDelivery, IsTimeline, Count, Kept, Stuck;
      ghost var before, theirs, order := byHash, other.byHash, other.arrivals;
      var inbox := Listing(other.byHash);
      var left;
      added, left := Receive(inbox);
      KeptAll(before, byHash, inbox);
      AllAbsorbed(name, before.Keys, theirs, order, inbox, byHash.Keys);
    }
  }

  /** The utterances of a history, by hash. */
  method Listing(byHash: map<Text, Utterance>) returns (out: seq<Utterance>)
    ensures forall h :: h in byHash ==> byHash[h] in out
    ensures forall u :: u in out ==> exists h :: h in byHash && byHash[h] == u
  {
    var hashes := Sorted(byHash.Keys);
    out := [];
    for i := 0 to |hashes|
      invariant |out| == i && forall k :: 0 <= k < i ==> hashes[k] in byHash && out[k] == byHash[hashes[k]]
    {
      assert hashes[i] in hashes;
      out := out + [byHash[hashes[i]]];
    }
    forall h | h in byHash ensures byHash[h] in out {
      var k :| 0 <= k < |hashes| && hashes[k] == h;
      assert out[k] == byHash[h];
    }
  }

  lemma KeptAll(before: map<Text, Utterance>, now: map<Text, Utterance>, inbox: seq<Utterance>)
    requires Kept(before, now, inbox)
    ensures forall h :: h in before ==> h in now && now[h] == before[h]
  {
  }

  /** Every stored utterance stayed as it was; the new ones come from the inbox. */
  ghost predicate Kept(before: map<Text, Utterance>, now: map<Text, Utterance>, inbox: seq<Utterance>)
  {
    && (forall h :: h in before ==> h in now && now[h] == before[h])
    && (forall h :: h in now && h !in before ==> now[h] in inbox)
  }

  lemma KeptChain(a: map<Text, Utterance>, b: map<Text, Utterance>, c: map<Text, Utterance>,
                  inbox: seq<Utterance>, pending: seq<Utterance>)
    requires Kept(a, b, inbox) && Kept(b, c, pending) && forall u :: u in pending ==> u in inbox
    ensures Kept(a, c, inbox)
  {
  }

  /** What a pass over the first `i` pending utterances has done. */
  ghost predicate Passed(name: Naming, before: map<Text, Utterance>, now: map<Text, Utterance>,
                         pending: seq<Utterance>, i: int, progress: bool,
                         placed: seq<Utterance>, still: seq<Utterance>)
    requires 0 <= i <= |pending|
  {
    && Kept(before, now, pending)
    && Deliverable(name, before.Keys, placed) && (forall u :: u in placed ==> u in pending)
    && now.Keys == before.Keys + NewHashes(placed)
    && (forall u :: u in still ==> u in pending)
    && (forall u :: u in pending[..i] && u !in still ==> u.hash in now)
    && |still| <= i && (progress ==> |still| < i)
    && (!progress ==> still == pending[..i] && placed == [] && Stuck(name, now.Keys, still))
  }

  lemma PassStart(name: Naming, byHash: map<Text, Utterance>, pending: seq<Utterance>)
    ensures Passed(name, byHash, byHash, pending, 0, false, [], [])
  {
  }

  lemma PassOk(name: Naming, before: map<Text, Utterance>, now: map<Text, Utterance>, pending: seq<Utterance>,
               i: nat, progress: bool, placed: seq<Utterance>, still: seq<Utterance>)
    requires i < |pending| && Passed(name, before, now, pending, i, progress, placed, still)
    requires Sealed(name, pending[i]) && pending[i].hash !in now && ParentSet(pending[i]) <= now.Keys
    ensures Passed(name, before, now[pending[i].hash := pending[i]], pending, i + 1, true,
                   placed + [pending[i]], still)
  {
    hide Deliverable, Stuck, Sealed, Kept, NewHashes;
    var u := pending[i];
    DeliverableOne(name, before.Keys, placed, u);
    KeptOne(before, now, pending, i);
    PassHashes(now, pending, i, still);
    NewHashesOne(before, now, placed, u);
  }

  lemma NewHashesOne(before: map<Text, Utterance>, now: map<Text, Utterance>, placed: seq<Utterance>, u: Utterance)
    requires now.Keys == before.Keys + NewHashes(placed)
    ensures now[u.hash := u].Keys == before.Keys + NewHashes(placed + [u])
  {
    assert NewHashes(placed + [u]) == NewHashes(placed) + {u.hash};
  }

  lemma PassHashes(now: map<Text, Utterance>, pending: seq<Utterance>, i: nat, still: seq<Utterance>)
    requires i < |pending| && forall u :: u in pending[..i] && u !in still ==> u.hash in now
    ensures forall w :: w in pending[..i + 1] && w !in still ==> w.hash in now[pending[i].hash := pending[i]]
    ensures pending[i] in pending
  {
    assert pending[..i + 1] == pending[..i] + [pending[i]];
  }

  lemma KeptOne(before: map<Text, Utterance>, now: map<Text, Utterance>, pending: seq<Utterance>, i: nat)
    requires i < |pending| && Kept(before, now, pending) && pending[i].hash !in now
    ensures Kept(before, now[pending[i].hash := pending[i]], pending)
  {
  }

  lemma PassDuplicate(name: Naming, before: map<Text, Utterance>, now: map<Text, Utterance>, pending: seq<Utterance>,
                      i: nat, progress: bool, placed: seq<Utterance>, still: seq<Utterance>)
    requires i < |pending| && Passed(name, before, now, pending, i, progress, placed, still)
    requires pending[i].hash in now
    ensures Passed(name, before, now, pending, i + 1, true, placed, still)
  {
    hide Deliverable, Stuck, Kept;
    assert pending[..i + 1] == pending[..i] + [pending[i]];
  }

  lemma PassStill(name: Naming, before: map<Text, Utterance>, now: map<Text, Utterance>, pending: seq<Utterance>,
                  i: nat, progress: bool, placed: seq<Utterance>, still: seq<Utterance>)
    requires i < |pending| && Passed(name, before, now, pending, i, progress, placed, still)
    requires Stuck(name, now.Keys, [pending[i]])
    ensures Passed(name, before, now, pending, i + 1, progress, placed, still + [pending[i]])
  {
    hide Deliverable, Kept, Sealed;
    var u := pending[i];
    assert pending[..i + 1] == pending[..i] + [u];
    assert u in [u];
  }

  lemma StuckOne(name: Naming, held: set<Text>, u: Utterance)
    requires !Sealed(name, u) || (u.hash !in held && !(ParentSet(u) <= held))
    ensures Stuck(name, held, [u])
  {
  }

  /** Each is mis-sealed, or early: not held, with a parent missing. */
  ghost predicate Stuck(name: Naming, held: set<Text>, pending: seq<Utterance>)
  {
    forall u :: u in pending ==> !Sealed(name, u) || (u.hash !in held && !(ParentSet(u) <= held))
  }

  lemma DeliverableOne(name: Naming, held: set<Text>, t: seq<Utterance>, u: Utterance)
    requires Deliverable(name, held, t) && Sealed(name, u) && ParentSet(u) <= held + NewHashes(t)
    ensures Deliverable(name, held, t + [u]) && NewHashes(t + [u]) == NewHashes(t) + {u.hash}
  {
    assert [u][..0] == [];
    DeliverableConcat(name, held, t, [u]);
  }

  lemma StartDelivery(name: Naming, byHash: map<Text, Utterance>, inbox: seq<Utterance>)
    ensures Deliverable(name, byHash.Keys, []) && NewHashes([]) == {} && Kept(byHash, byHash, inbox)
  {
  }

  lemma DeliveryEnds(name: Naming, held: set<Text>, inbox: seq<Utterance>, result: set<Text>,
                     t: seq<Utterance>, left: seq<Utterance>)
    requires Deliverable(name, held, t) && (forall u :: u in t ==> u in inbox) && result == held + NewHashes(t)
    requires Stuck(name, result, left) && forall u :: u in inbox && u !in left ==> u.hash in result
    ensures IsDelivery(name, held, (set u | u in inbox), result)
  {
    hide Deliverable;
    assert forall u :: u in t ==> u in (set u | u in inbox);
  }

  lemma AllAbsorbed(name: Naming, held: set<Text>, theirs: map<Text, Utterance>, order: seq<Text>,
                    inbox: seq<Utterance>, result: set<Text>)
    requires IsDelivery(name, held, (set u | u in inbox), result)
    requires IsTimeline(GraphOf(theirs), {}, order)
    requires forall h :: h in theirs ==> theirs[h].hash == h && Sealed(name, theirs[h]) && theirs[h] in inbox
    requires forall u :: u in inbox ==> u.hash in theirs
    ensures result == held + theirs.Keys
  {
    InOrderAbsorbed(name, theirs, order, (set u | u in inbox), result, |order|);
    assert order[..|order|] == order;
    var t :| Deliverable(name, held, t) && (forall u :: u in t ==> u in (set u | u in inbox)) && result == held + NewHashes(t);
  }

  lemma {:induction false} InOrderAbsorbed(name: Naming, theirs: map<Text, Utterance>, order: seq<Text>,
                                           offers: set<Utterance>, result: set<Text>, n: nat)
    requires Saturated(name, offers, result) && IsTimeline(GraphOf(theirs), {}, order) && n <= |order|
    requires forall h :: h in theirs ==> theirs[h].hash == h && Sealed(name, theirs[h]) && theirs[h] in offers
    ensures Hashes(order[..n]) <= result
  {
    if n > 0 {
      InOrderAbsorbed(name, theirs, order, offers, result, n - 1);
      assert InPlace(GraphOf(theirs), {}, order, n - 1);
      assert order[..n] == order[..n - 1] + [order[n - 1]];
      assert theirs[order[n - 1]] in offers;
    }
  }

  // ---------------------------------------------------------------------------
  // Heads name a history
  // ---------------------------------------------------------------------------

  /** Walking the timeline backwards: everything is a head or has a later child. */
  lemma {:induction false} HeadsCover(name: Naming, a: map<Text, Utterance>, t: seq<Text>, b: map<Text, Utterance>, n: nat)
    requires Injective(name) && IsTimeline(GraphOf(a), {}, t) && n <= |t|
    requires forall h :: h in a ==> a[h].hash == h && Sealed(name, a[h])
    requires forall h :: h in b ==> b[h].hash == h && Sealed(name, b[h]) && ParentSet(b[h]) <= b.Keys
    requires forall h :: IsHead(GraphOf(a), h) ==> h in b
    ensures forall i :: |t| - n <= i < |t| ==> t[i] in b
  {
    if n > 0 {
      HeadsCover(name, a, t, b, n - 1);
      CoverOne(name, a, t, b, |t| - n);
    }
  }

  /** What is no head has a child, which comes later and is already covered. */
  lemma CoverOne(name: Naming, a: map<Text, Utterance>, t: seq<Text>, b: map<Text, Utterance>, k: nat)
    requires Injective(name) && IsTimeline(GraphOf(a), {}, t) && k < |t|
    requires forall h :: h in a ==> a[h].hash == h && Sealed(name, a[h])
    requires forall h :: h in b ==> b[h].hash == h && Sealed(name, b[h]) && ParentSet(b[h]) <= b.Keys
    requires forall h :: IsHead(GraphOf(a), h) ==> h in b
    requires forall i :: k < i < |t| ==> t[i] in b
    ensures t[k] in b
  {
    var h := t[k];
    assert InPlace(GraphOf(a), {}, t, k);
    if !IsHead(GraphOf(a), h) {
      var c :| c in a && h in ParentSet(a[c]);
      assert c in GraphOf(a) && c in t;
      var i :| 0 <= i < |t| && t[i] == c;
      LaterChild(GraphOf(a), t, k, i);
      SameSeal(name, a[c], b[c]);
    }
  }

  lemma SameSeal(name: Naming, u: Utterance, v: Utterance)
    requires Injective(name) && Sealed(name, u) && Sealed(name, v) && u.hash == v.hash
    ensures ParentSet(u) == ParentSet(v)
  {
  }

  lemma LaterChild(g: Graph, t: seq<Text>, i: nat, j: nat)
    requires IsTimeline(g, {}, t) && i < |t| && j < |t| && t[j] in g && t[i] in g[t[j]]
    ensures i < j
  {
    assert InPlace(g, {}, t, j);
    assert t[i] in Hashes(t[..j]);
    var k :| 0 <= k < j && t[..j][k] == t[i];
    assert t[k] == t[i];
  }

  /** Two histories with the same heads hold the same utterances, and so tell one timeline. */
  lemma SameHeadsSameHistory(name: Naming, a: map<Text, Utterance>, ta: seq<Text>,
                             b: map<Text, Utterance>, tb: seq<Text>)
    requires Injective(name)
    requires IsTimeline(GraphOf(a), {}, ta) && IsTimeline(GraphOf(b), {}, tb)
    requires forall h :: h in a ==> a[h].hash == h && Sealed(name, a[h])
    requires forall h :: h in b ==> b[h].hash == h && Sealed(name, b[h])
    requires forall h :: IsHead(GraphOf(a), h) <==> IsHead(GraphOf(b), h)
    ensures a.Keys == b.Keys && GraphOf(a) == GraphOf(b)
    ensures Lin(GraphOf(a), {}) == Lin(GraphOf(b), {})
  {
    ParentsInside(a, ta);
    ParentsInside(b, tb);
    HeadsCover(name, a, ta, b, |ta|);
    HeadsCover(name, b, tb, a, |tb|);
    assert forall h :: h in a ==> h in GraphOf(a) && h in ta;
    assert forall h :: h in b ==> h in GraphOf(b) && h in tb;
    assert a.Keys == b.Keys;
    assert forall h :: h in a ==> ParentSet(a[h]) == ParentSet(b[h]);
  }

  lemma ParentsInside(a: map<Text, Utterance>, t: seq<Text>)
    requires IsTimeline(GraphOf(a), {}, t)
    ensures forall h :: h in a ==> ParentSet(a[h]) <= a.Keys
  {
    forall h | h in a ensures ParentSet(a[h]) <= a.Keys {
      assert h in GraphOf(a) && h in t;
      var i :| 0 <= i < |t| && t[i] == h;
      assert InPlace(GraphOf(a), {}, t, i);
      forall p | p in ParentSet(a[h]) ensures p in a {
        var k :| 0 <= k < i && t[..i][k] == p;
        assert InPlace(GraphOf(a), {}, t, k);
      }
    }
  }

  /** What a valid history shows: all of it once, parents first, and the least such list. */
  lemma TimelineOfHistory(byHash: map<Text, Utterance>, arrivals: seq<Text>)
    requires IsTimeline(GraphOf(byHash), {}, arrivals)
    ensures IsTimeline(GraphOf(byHash), {}, Lin(GraphOf(byHash), {}))
    ensures forall t :: IsTimeline(GraphOf(byHash), {}, t) ==>
      t == Lin(GraphOf(byHash), {}) || ListLess(Lin(GraphOf(byHash), {}), t)
  {
    hide IsTimeline;
    LinIsTimeline(GraphOf(byHash), {}, arrivals);
    forall t | IsTimeline(GraphOf(byHash), {}, t)
      ensures t == Lin(GraphOf(byHash), {}) || ListLess(Lin(GraphOf(byHash), {}), t)
    {
      LinLeast(GraphOf(byHash), {}, t);
    }
  }

  /** A hash with no filed child is nobody's parent. */
  lemma ChildrenTell(byHash: map<Text, Utterance>, children: map<Text, seq<Text>>, h: Text)
    requires forall p, c :: Count(children, p, c) == if c in byHash then multiset(byHash[c].parents)[p] else 0
    ensures (h !in children || children[h] == []) <==> forall c :: c in byHash ==> h !in GraphOf(byHash)[c]
  {
    forall c | c in byHash ensures h in GraphOf(byHash)[c] <==> Count(children, h, c) > 0 {
      assert h in byHash[c].parents <==> multiset(byHash[c].parents)[h] > 0;
    }
    if h in children && children[h] != [] {
      var c := children[h][0];
      assert c in children[h] && multiset(children[h])[c] > 0;
      assert Count(children, h, c) > 0;
    }
  }

  // ---------------------------------------------------------------------------
  // Kahn's loop
  // ---------------------------------------------------------------------------

  ghost predicate Kahn(byHash: map<Text, Utterance>, remaining: map<Text, nat>, ready: set<Text>, done: set<Text>)
  {
    && remaining.Keys == byHash.Keys
    && (forall h :: h in byHash ==> remaining[h] == Outside(byHash[h].parents, done))
    && (forall h :: h in ready <==> h in byHash && h !in done && remaining[h] == 0)
    && (forall h :: h in done ==> h in byHash && remaining[h] == 0)
  }

  lemma KahnStart(byHash: map<Text, Utterance>)
    ensures Kahn(byHash, map h | h in byHash :: |byHash[h].parents|,
                 set h | h in byHash && byHash[h].parents == [], {})
  {
    forall h | h in byHash ensures Outside(byHash[h].parents, {}) == |byHash[h].parents| {
      OutsideAll(byHash[h].parents);
    }
  }

  lemma LinStep(g: Graph, done: set<Text>, order: seq<Text>)
    ensures Ready(g, done) == {} ==> order + Lin(g, done) == order
    ensures Ready(g, done) != {} ==>
      var m := Least(Ready(g, done)); order + Lin(g, done) == order + [m] + Lin(g, done + {m})
  {
    if Ready(g, done) != {} {
      var m := Least(Ready(g, done));
      assert order + ([m] + Lin(g, done + {m})) == order + [m] + Lin(g, done + {m});
    }
  }

  lemma KahnShrinks(byHash: map<Text, Utterance>, remaining: map<Text, nat>, ready: set<Text>, done: set<Text>, h: Text)
    requires Kahn(byHash, remaining, ready, done) && h in ready
    ensures |byHash.Keys - (done + {h})| < |byHash.Keys - done|
    ensures ready - {h} + {h} == ready
  {
    SubsetSmaller(byHash.Keys - (done + {h}), byHash.Keys - done);
  }

  lemma KahnReady(byHash: map<Text, Utterance>, remaining: map<Text, nat>, ready: set<Text>, done: set<Text>)
    requires Kahn(byHash, remaining, ready, done)
    ensures ready == Ready(GraphOf(byHash), done)
  {
    forall h | h in byHash ensures remaining[h] == 0 <==> ParentSet(byHash[h]) <= done {
      OutsideZero(byHash[h].parents, done);
    }
  }

  /** Listing `h` counts it off for each of its children. */
  method Release(byHash: map<Text, Utterance>, children: map<Text, seq<Text>>, remaining0: map<Text, nat>,
                 ready0: set<Text>, ghost done: set<Text>, h: Text)
      returns (remaining: map<Text, nat>, ready: set<Text>)
    requires forall p, c :: Count(children, p, c) == if c in byHash then multiset(byHash[c].parents)[p] else 0
    requires h !in ready0 && Kahn(byHash, remaining0, ready0 + {h}, done)
    ensures Kahn(byHash, remaining, ready, done + {h})
  {
    var kids := if h in children then children[h] else [];
    forall c | c in byHash ensures multiset(kids)[c] == multiset(byHash[c].parents)[h] <= remaining0[c] {
      assert Count(children, h, c) == multiset(kids)[c];
      OutsideDrops(byHash[c].parents, done, h);
    }
    remaining, ready := CountOff(remaining0, ready0, kids);
    ReleaseKeeps(byHash, kids, remaining0, ready0, remaining, ready, done, h);
  }

  lemma ReleaseKeeps(byHash: map<Text, Utterance>, kids: seq<Text>, remaining0: map<Text, nat>, ready0: set<Text>,
                     remaining: map<Text, nat>, ready: set<Text>, done: set<Text>, h: Text)
    requires h !in ready0 && Kahn(byHash, remaining0, ready0 + {h}, done)
    requires forall c :: c in byHash ==> multiset(kids)[c] == multiset(byHash[c].parents)[h]
    requires remaining.Keys == remaining0.Keys
    requires forall c :: c in remaining ==> remaining[c] + multiset(kids)[c] == remaining0[c]
    requires forall c :: c in ready <==> c in ready0 || (c in remaining && c in kids && remaining[c] == 0)
    ensures Kahn(byHash, remaining, ready, done + {h})
  {
    hide Outside;
    forall c | c in byHash ensures remaining[c] == Outside(byHash[c].parents, done + {h}) {
      OutsideDrops(byHash[c].parents, done, h);
    }
    forall c ensures c in ready <==> c in byHash && c !in done + {h} && remaining[c] == 0 {
      assert c in ready0 + {h} <==> c in byHash && c !in done && remaining0[c] == 0;
      assert c in kids <==> multiset(kids)[c] > 0;
    }
  }

  method CountOff(remaining0: map<Text, nat>, ready0: set<Text>, kids: seq<Text>)
      returns (remaining: map<Text, nat>, ready: set<Text>)
    requires forall c :: c in remaining0 ==> multiset(kids)[c] <= remaining0[c]
    ensures remaining.Keys == remaining0.Keys
    ensures forall c :: c in remaining ==> remaining[c] + multiset(kids)[c] == remaining0[c]
    ensures forall c :: c in ready <==> c in ready0 || (c in remaining && c in kids && remaining[c] == 0)
  {
    remaining, ready := remaining0, ready0;
    for i := 0 to |kids|
      invariant remaining.Keys == remaining0.Keys
      invariant forall c :: c in remaining ==> remaining[c] + multiset(kids[..i])[c] == remaining0[c]
      invariant forall c :: c in ready <==> c in ready0 || (c in remaining && c in kids[..i] && remaining[c] == 0)
    {
      var c := kids[i];
      assert kids[..i + 1] == kids[..i] + [c];
      assert kids == kids[..i + 1] + kids[i + 1..];
      if c in remaining && remaining[c] > 0 {
        remaining := remaining[c := remaining[c] - 1];
        if remaining[c] == 0 { ready := ready + {c}; }
      }
    }
    assert kids[..|kids|] == kids;
  }

  lemma PlaceInGraph(byHash: map<Text, Utterance>, u: Utterance)
    ensures GraphOf(byHash[u.hash := u]) == GraphOf(byHash)[u.hash := ParentSet(u)]
    ensures GraphOf(byHash).Keys == byHash.Keys
  {
  }

  lemma TimelineGrows(g: Graph, t: seq<Text>, h: Text, parents: set<Text>)
    requires IsTimeline(g, {}, t) && h !in g && parents <= g.Keys
    ensures IsTimeline(g[h := parents], {}, t + [h])
  {
    var r := t + [h];
    var g' := g[h := parents];
    forall i | 0 <= i < |r| ensures InPlace(g', {}, r, i) {
      if i < |t| {
        assert InPlace(g, {}, t, i);
        assert r[..i] == t[..i];
      } else {
        assert r[..i] == t;
      }
    }
    forall i | 0 <= i < |t| ensures t[i] != h {
      assert InPlace(g, {}, t, i);
    }
  }
}
