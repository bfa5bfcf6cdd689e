/** The equivalence rule: union-find with path compression, and the quotient it yields. */
module Quotients {
  import opened Bytes
  import opened Links

  // ---------------------------------------------------------------------------
  // The least equivalence relation containing a set of links
  // ---------------------------------------------------------------------------

  type Relation = (Ref, Ref) -> bool

  ghost predicate IsEquivalence(r: Relation)
  {
    && (forall x :: r(x, x))
    && (forall x, y :: r(x, y) ==> r(y, x))
    && (forall x, y, z :: r(x, y) && r(y, z) ==> r(x, z))
  }

  ghost predicate Holds(r: Relation, pairs: set<(Ref, Ref)>)
  {
    forall p :: p in pairs ==> r(p.0, p.1)
  }

  /** Related by every equivalence relation that holds the pairs: by the least one. */
  ghost predicate Same(pairs: set<(Ref, Ref)>, x: Ref, y: Ref)
  {
    forall r: Relation :: IsEquivalence(r) && Holds(r, pairs) ==> r(x, y)
  }

  lemma SameTransitive(pairs: set<(Ref, Ref)>, x: Ref, y: Ref, z: Ref)
    requires Same(pairs, x, y) && Same(pairs, y, z)
    ensures Same(pairs, x, z)
  {
  }

  lemma SameSymmetric(pairs: set<(Ref, Ref)>, x: Ref, y: Ref)
    requires Same(pairs, x, y)
    ensures Same(pairs, y, x)
  {
  }

  lemma SameReflexive(pairs: set<(Ref, Ref)>, x: Ref)
    ensures Same(pairs, x, x)
  {
  }

  lemma SameGrows(pairs: set<(Ref, Ref)>, more: set<(Ref, Ref)>, x: Ref, y: Ref)
    requires Same(pairs, x, y) && pairs <= more
    ensures Same(more, x, y)
  {
  }

  // ---------------------------------------------------------------------------
  // The parent map
  // ---------------------------------------------------------------------------

  type Parents = map<Ref, Ref>

  /** Parents strictly decrease, so following them ends. */
  ghost predicate Falls(p: Parents)
  {
    forall x :: x in p ==> RefLess(p[x], x)
  }

  ghost function Below(p: Parents, x: Ref): set<Ref>
  {
    set y | y in p && (y == x || RefLess(y, x))
  }

  lemma BelowShrinks(p: Parents, x: Ref)
    requires Falls(p) && x in p
    ensures Below(p, p[x]) < Below(p, x)
  {
    forall y | y in Below(p, p[x]) ensures y in Below(p, x) {
      if y != p[x] { RefTransitive(y, p[x], x); }
    }
    RefTotal(x, p[x]);
    assert x in Below(p, x) && x !in Below(p, p[x]);
  }

  /** Where the parents of `x` lead. */
  ghost function Root(p: Parents, x: Ref): Ref
    requires Falls(p)
    decreases Below(p, x)
  {
    if x in p then BelowShrinks(p, x); Root(p, p[x]) else x
  }

  lemma {:induction false} RootFacts(p: Parents, x: Ref)
    requires Falls(p)
    ensures Root(p, x) !in p
    ensures if x in p then RefLess(Root(p, x), x) else Root(p, x) == x
    decreases Below(p, x)
  {
    if x in p {
      BelowShrinks(p, x);
      RootFacts(p, p[x]);
      if p[x] in p { RefTransitive(Root(p, x), p[x], x); }
    }
  }

  /** Path compression never changes a representative. */
  lemma {:induction false} CompressKeepsRoot(p: Parents, x: Ref, y: Ref)
    requires Falls(p) && x in p
    ensures Falls(p[x := Root(p, x)]) && Root(p[x := Root(p, x)], y) == Root(p, y)
    decreases Below(p, y)
  {
    RootFacts(p, x);
    RefTotal(x, x);
    var q := p[x := Root(p, x)];
    if y in p && y != x {
      BelowShrinks(p, y);
      CompressKeepsRoot(p, x, p[y]);
    }
  }

  /** Hanging one root under a smaller one merges exactly those two classes. */
  lemma {:induction false} UniteRoots(p: Parents, a: Ref, b: Ref, y: Ref)
    requires Falls(p) && a !in p && b !in p && RefLess(a, b)
    ensures Falls(p[b := a]) && Root(p[b := a], y) == if Root(p, y) == b then a else Root(p, y)
    decreases Below(p, y)
  {
    RefTotal(a, b);
    if y in p {
      BelowShrinks(p, y);
      UniteRoots(p, a, b, p[y]);
    }
  }

  /** The root of `z` once the classes of `a` and `b` are one: the lesser of their roots. */
  ghost function Merged(p: Parents, a: Ref, b: Ref, z: Ref): Ref
    requires Falls(p)
  {
    var ra, rb := Root(p, a), Root(p, b);
    if Root(p, z) == ra || Root(p, z) == rb then (if RefLess(rb, ra) then rb else ra) else Root(p, z)
  }

  /** The forest says of the pairs what their least equivalence says. */
  ghost predicate Represents(p: Parents, pairs: set<(Ref, Ref)>)
  {
    && Falls(p)
    && (forall q :: q in pairs ==> Root(p, q.0) == Root(p, q.1))
    && (forall x :: Same(pairs, x, Root(p, x)))
  }

  /** Two runes have one root exactly when they are the same thing, and the root is the
      least of the runes that are. */
  lemma RootsAreClasses(p: Parents, pairs: set<(Ref, Ref)>, x: Ref, y: Ref)
    requires Represents(p, pairs)
    ensures Root(p, x) == Root(p, y) <==> Same(pairs, x, y)
    ensures Same(pairs, x, y) ==> Root(p, x) == y || RefLess(Root(p, x), y)
  {
    assert Same(pairs, x, Root(p, x)) && Same(pairs, y, Root(p, y));
    if Root(p, x) == Root(p, y) {
      SameSymmetric(pairs, y, Root(p, y));
      SameTransitive(pairs, x, Root(p, x), y);
    }
    if Same(pairs, x, y) {
      var r: Relation := (u, v) => Falls(p) && Root(p, u) == Root(p, v);
      assert IsEquivalence(r) && Holds(r, pairs);
      assert r(x, y);
    }
    RootFacts(p, y);
  }

  lemma UniteRepresents(p: Parents, pairs: set<(Ref, Ref)>, x: Ref, y: Ref, q: Parents)
    requires Represents(p, pairs) && Falls(q)
    requires forall z :: Root(q, z) == Merged(p, x, y, z)
    ensures Represents(q, pairs + {(x, y)})
  {
    hide Same, Root;
    var more := pairs + {(x, y)};
    var rx, ry := Root(p, x), Root(p, y);
    forall z ensures Same(more, z, Root(p, z)) {
      SameGrows(pairs, more, z, Root(p, z));
    }
    PairSame(more, x, y);
    SameSymmetric(more, x, rx);
    SameTransitive(more, rx, x, y);
    SameTransitive(more, rx, y, ry);
    SameSymmetric(more, rx, ry);
    SameReflexive(more, rx);
    forall z ensures Same(more, z, Root(q, z)) {
      if Root(p, z) == rx { SameTransitive(more, z, rx, ry); }
      if Root(p, z) == ry { SameTransitive(more, z, ry, rx); }
    }
  }

  lemma PairSame(pairs: set<(Ref, Ref)>, x: Ref, y: Ref)
    requires (x, y) in pairs
    ensures Same(pairs, x, y)
  {
  }

  /** `UnionFind`. */
  class UnionFind {
    var parent: Parents

    constructor ()
      ensures parent == map[]
    {
      parent := map[];
    }

    /** The representative, with every rune on the way rehung on it. */
    method Find(x: Ref) returns (root: Ref)
      requires Falls(parent)
      modifies this
      ensures Falls(parent) && parent.Keys == old(parent).Keys
      ensures root == Root(old(parent), x)
      ensures forall y :: Root(parent, y) == Root(old(parent), y)
      decreases Below(parent, x)
    {
      if x !in parent {
        return x;
      }
      BelowShrinks(parent, x);
      root := Find(parent[x]);
      forall y ensures Falls(parent[x := root]) && Root(parent[x := root], y) == Root(parent, y) {
        CompressKeepsRoot(parent, x, y);
      }
      parent := parent[x := root];
    }

    method Unite(a: Ref, b: Ref)
      requires Falls(parent)
      modifies this
      ensures Falls(parent)
      ensures forall z :: Root(parent, z) == Merged(old(parent), a, b, z)
    {
      var ra := Find(a);
      var rb := Find(b);
      RootFacts(parent, a);
      RootFacts(parent, b);
      RefTotal(ra, rb);
      if ra == rb { return; }
      if RefLess(rb, ra) { ra, rb := rb, ra; }
      forall y ensures Falls(parent[rb := ra])
        && Root(parent[rb := ra], y) == if Root(parent, y) == rb then ra else Root(parent, y)
      {
        UniteRoots(parent, ra, rb, y);
      }
      parent := parent[rb := ra];
    }
  }

  // ---------------------------------------------------------------------------
  // The quotient
  // ---------------------------------------------------------------------------

  /** The ends of the links whose label one of the patterns matches. */
  ghost function Fused(links: seq<Link>, patterns: seq<Text>): set<(Ref, Ref)>
  {
    set l | l in links && AnyMatches(patterns, l.relation) :: (l.from, l.to)
  }

  /** A rune in no pair is only itself. */
  lemma Untouched(pairs: set<(Ref, Ref)>, x: Ref, y: Ref)
    requires forall p :: p in pairs ==> p.0 != x && p.1 != x
    requires Same(pairs, x, y)
    ensures x == y
  {
    var r: Relation := (u, v) => u == v || (u != x && v != x);
    assert IsEquivalence(r) && Holds(r, pairs);
    assert r(x, y);
  }

  /** The class of `x`, as a set, when it is known to lie within `touched`. */
  ghost predicate IsClass(pairs: set<(Ref, Ref)>, x: Ref, members: set<Ref>)
  {
    forall y :: y in members <==> Same(pairs, x, y)
  }

  /** Every rune that is the same thing as another is represented by the least of its class,
      under which the whole class is listed. */
  ghost predicate IsQuotient(pairs: set<(Ref, Ref)>, rep: map<Ref, Ref>, classes: map<Ref, set<Ref>>)
  {
    && (forall x :: x in rep <==> exists y :: y != x && Same(pairs, x, y))
    && (forall x :: x in rep ==> Same(pairs, x, rep[x]))
    && (forall x, y :: x in rep && Same(pairs, x, y) ==> rep[x] == y || RefLess(rep[x], y))
    && (forall x :: x in rep ==> rep[x] in classes)
    && (forall r :: r in classes ==> |classes[r]| >= 2 && r in rep && rep[r] == r && IsClass(pairs, r, classes[r]))
  }

  /** `quotient_of`: the classes of two or more of the least equivalence relation holding the
      equivalence links, each filed under its least member. */
  method QuotientOf(links: seq<Link>, patterns: seq<Text>)
      returns (rep: map<Ref, Ref>, classes: map<Ref, set<Ref>>)
    ensures IsQuotient(Fused(links, patterns), rep, classes)
  {
    hide Same, Represents, AnyMatches, IsQuotient;
    var uf := new UnionFind();
    var touched: set<Ref> := {};
    ghost var pairs: set<(Ref, Ref)> := {};
    NothingFused();
    for k := 0 to |links|
      invariant pairs == Fused(links[..k], patterns)
      invariant Represents(uf.parent, pairs)
      invariant touched == (set p | p in pairs :: p.0) + (set p | p in pairs :: p.1)
    {
      var l := links[k];
      FusedStep(links, patterns, k);
      if AnyMatches(patterns, l.relation) {
        ghost var before := uf.parent;
        RepresentsFalls(before, pairs);
        uf.Unite(l.from, l.to);
        UniteRepresents(before, pairs, l.from, l.to, uf.parent);
        pairs := pairs + {(l.from, l.to)};
        touched := touched + {l.from, l.to};
      }
    }
    assert links[..|links|] == links;
    rep, classes := Group(uf, touched, pairs);
  }

  lemma NothingFused()
    ensures Represents(map[], {})
  {
    forall x ensures Same({}, x, x) { SameReflexive({}, x); }
  }

  lemma RepresentsFalls(p: Parents, pairs: set<(Ref, Ref)>)
    requires Represents(p, pairs)
    ensures Falls(p)
  {
  }

  lemma FusedStep(links: seq<Link>, patterns: seq<Text>, k: nat)
    requires k < |links|
    ensures Fused(links[..k + 1], patterns) == Fused(links[..k], patterns)
      + if AnyMatches(patterns, links[k].relation) then {(links[k].from, links[k].to)} else {}
  {
    hide AnyMatches;
    assert links[..k + 1] == links[..k] + [links[k]];
  }

  /** Filing every touched rune under its root and keeping the groups of two or more. */
  method Group(uf: UnionFind, touched: set<Ref>, ghost pairs: set<(Ref, Ref)>)
      returns (rep: map<Ref, Ref>, classes: map<Ref, set<Ref>>)
    requires Represents(uf.parent, pairs)
    requires touched == (set p | p in pairs :: p.0) + (set p | p in pairs :: p.1)
    modifies uf
    ensures IsQuotient(pairs, rep, classes)
  {
    hide Same, Represents, IsQuotient;
    ghost var p := uf.parent;
    RepresentsFalls(p, pairs);
    var byRoot := GroupByRoot(uf, touched);
    rep, classes := KeepLarge(byRoot, p, touched);
    GroupIsQuotient(p, touched, pairs, byRoot, rep, classes);
  }

  method GroupByRoot(uf: UnionFind, touched: set<Ref>) returns (byRoot: map<Ref, set<Ref>>)
    requires Falls(uf.parent)
    modifies uf
    ensures Grouped(old(uf.parent), touched, byRoot)
  {
    hide Root, Grouped;
    byRoot := map[];
    ghost var p := uf.parent;
    var todo := touched;
    NothingGrouped(p);
    assert touched - todo == {};
    while todo != {}
      invariant todo <= touched && Falls(uf.parent)
      invariant forall y :: Root(uf.parent, y) == Root(p, y)
      invariant Grouped(p, touched - todo, byRoot)
    {
      var x :| x in todo;
      var root := uf.Find(x);
      GroupStep(p, touched - todo, byRoot, x);
      assert touched - (todo - {x}) == touched - todo + {x};
      byRoot := Filed(byRoot, root, x);
      todo := todo - {x};
    }
    assert touched - todo == touched;
  }

  lemma NothingGrouped(p: Parents)
    requires Falls(p)
    ensures Grouped(p, {}, map[])
  {
  }

  method KeepLarge(byRoot: map<Ref, set<Ref>>, ghost p: Parents, ghost touched: set<Ref>)
      returns (rep: map<Ref, Ref>, classes: map<Ref, set<Ref>>)
    requires Falls(p) && Grouped(p, touched, byRoot)
    ensures forall r :: r in classes <==> r in byRoot && |byRoot[r]| >= 2
    ensures forall r :: r in classes ==> classes[r] == byRoot[r]
    ensures forall x :: x in rep <==> Root(p, x) in classes && x in touched
    ensures forall x :: x in rep ==> rep[x] == Root(p, x)
  {
    hide Root, GroupedKeys;
    rep, classes := map[], map[];
    var roots := byRoot.Keys;
    while roots != {}
      invariant roots <= byRoot.Keys
      invariant forall r :: r in classes <==> r in byRoot && r !in roots && |byRoot[r]| >= 2
      invariant forall r :: r in classes ==> classes[r] == byRoot[r]
      invariant forall x :: x in rep <==> Root(p, x) in classes && x in touched
      invariant forall x :: x in rep ==> rep[x] == Root(p, x)
    {
      var root :| root in roots;
      roots := roots - {root};
      var members := byRoot[root];
      if |members| < 2 { continue; }
      rep := rep + map x | x in members :: root;
      classes := classes[root := members];
    }
  }

  ghost predicate Grouped(p: Parents, seen: set<Ref>, byRoot: map<Ref, set<Ref>>)
    requires Falls(p)
  {
    GroupedKeys(p, seen, byRoot) && GroupedMembers(p, seen, byRoot)
  }

  ghost predicate GroupedKeys(p: Parents, seen: set<Ref>, byRoot: map<Ref, set<Ref>>)
    requires Falls(p)
  {
    forall r :: r in byRoot <==> exists x :: x in seen && Root(p, x) == r
  }

  ghost predicate GroupedMembers(p: Parents, seen: set<Ref>, byRoot: map<Ref, set<Ref>>)
    requires Falls(p)
  {
    forall r, x :: r in byRoot ==> (x in byRoot[r] <==> x in seen && Root(p, x) == r)
  }

  /** The groups with `x` filed under its root. */
  function Filed(byRoot: map<Ref, set<Ref>>, root: Ref, x: Ref): map<Ref, set<Ref>>
  {
    byRoot[root := (if root in byRoot then byRoot[root] else {}) + {x}]
  }

  lemma GroupStep(p: Parents, seen: set<Ref>, byRoot: map<Ref, set<Ref>>, x: Ref)
    requires Falls(p) && Grouped(p, seen, byRoot)
    ensures Grouped(p, seen + {x}, Filed(byRoot, Root(p, x), x))
  {
    hide Root, GroupedKeys, GroupedMembers, Filed;
    GroupKeys(p, seen, byRoot, x);
    GroupMembers(p, seen, byRoot, x);
  }

  lemma GroupKeys(p: Parents, seen: set<Ref>, byRoot: map<Ref, set<Ref>>, x: Ref)
    requires Falls(p) && GroupedKeys(p, seen, byRoot)
    ensures GroupedKeys(p, seen + {x}, Filed(byRoot, Root(p, x), x))
  {
    hide Root, Falls;
    var next := Filed(byRoot, Root(p, x), x);
    forall r ensures r in next <==> exists y :: y in seen + {x} && Root(p, y) == r {
      if r in byRoot {
        var y :| y in seen && Root(p, y) == r;
        assert y in seen + {x};
      }
      assert x in seen + {x};
    }
  }

  lemma GroupMembers(p: Parents, seen: set<Ref>, byRoot: map<Ref, set<Ref>>, x: Ref)
    requires Falls(p) && Grouped(p, seen, byRoot)
    ensures GroupedMembers(p, seen + {x}, Filed(byRoot, Root(p, x), x))
  {
    hide Root, Falls, Filed;
    var root, next := Root(p, x), Filed(byRoot, Root(p, x), x);
    forall r, y | r in next ensures y in next[r] <==> y in seen + {x} && Root(p, y) == r {
      FiledIs(byRoot, root, x, r, y);
      if r in byRoot {
        assert y in byRoot[r] <==> y in seen && Root(p, y) == r;
      }
    }
  }

  lemma FiledIs(byRoot: map<Ref, set<Ref>>, root: Ref, x: Ref, r: Ref, y: Ref)
    ensures var next := Filed(byRoot, root, x);
      && (r in next <==> r in byRoot || r == root)
      && (r in next ==> (y in next[r] <==> (r in byRoot && y in byRoot[r]) || (r == root && y == x)))
  {
  }

  lemma GroupIsQuotient(p: Parents, touched: set<Ref>, pairs: set<(Ref, Ref)>, byRoot: map<Ref, set<Ref>>,
                        rep: map<Ref, Ref>, classes: map<Ref, set<Ref>>)
    requires Represents(p, pairs) && Falls(p)
    requires touched == (set p | p in pairs :: p.0) + (set p | p in pairs :: p.1)
    requires Grouped(p, touched, byRoot)
    requires forall r :: r in classes <==> r in byRoot && |byRoot[r]| >= 2
    requires forall r :: r in classes ==> classes[r] == byRoot[r]
    requires forall x :: x in rep <==> Root(p, x) in classes && x in touched
    requires forall x :: x in rep ==> rep[x] == Root(p, x)
    ensures IsQuotient(pairs, rep, classes)
  {
    hide Same, Represents, Root, Grouped, IsClass;
    forall x, y | x in rep && Same(pairs, x, y) ensures rep[x] == y || RefLess(rep[x], y) {
      RootsAreClasses(p, pairs, x, y);
    }
    forall x | x in rep ensures Same(pairs, x, rep[x]) {
      RootsSame(p, pairs, x);
    }
    assert forall x :: x in rep <==> x in touched && Large(byRoot, Root(p, x)) by {
      hide *;
      LargeReps(p, touched, byRoot, rep, classes);
    }
    forall x ensures x in rep <==> exists y :: y != x && Same(pairs, x, y) {
      LargeHasMate(p, touched, pairs, byRoot, x);
    }
    forall r | r in classes ensures r in rep && rep[r] == r && IsClass(pairs, r, classes[r]) {
      ClassOfRoot(p, touched, pairs, byRoot, r);
    }
  }

  ghost predicate Large(byRoot: map<Ref, set<Ref>>, r: Ref)
  {
    r in byRoot && |byRoot[r]| >= 2
  }

  lemma LargeReps(p: Parents, touched: set<Ref>, byRoot: map<Ref, set<Ref>>,
                  rep: map<Ref, Ref>, classes: map<Ref, set<Ref>>)
    requires Falls(p)
    requires forall r :: r in classes <==> r in byRoot && |byRoot[r]| >= 2
    requires forall x :: x in rep <==> Root(p, x) in classes && x in touched
    ensures forall x :: x in rep <==> x in touched && Large(byRoot, Root(p, x))
  {
    hide Root;
  }

  lemma LargeHasMate(p: Parents, touched: set<Ref>, pairs: set<(Ref, Ref)>, byRoot: map<Ref, set<Ref>>, x: Ref)
    requires Represents(p, pairs) && Falls(p) && Grouped(p, touched, byRoot)
    requires touched == (set p | p in pairs :: p.0) + (set p | p in pairs :: p.1)
    ensures x in touched && Large(byRoot, Root(p, x)) <==> exists y :: y != x && Same(pairs, x, y)
  {
    hide Same, Represents, Root, Grouped;
    if x in touched && Large(byRoot, Root(p, x)) {
      var y := Mate(p, touched, pairs, byRoot, x);
      assert y != x && Same(pairs, x, y);
    }
    if exists y :: y != x && Same(pairs, x, y) {
      var y :| y != x && Same(pairs, x, y);
      MatesGrouped(p, touched, pairs, byRoot, x, y);
    }
  }

  lemma Mate(p: Parents, touched: set<Ref>, pairs: set<(Ref, Ref)>, byRoot: map<Ref, set<Ref>>, x: Ref)
      returns (y: Ref)
    requires Represents(p, pairs) && Falls(p) && Grouped(p, touched, byRoot)
    requires Root(p, x) in byRoot && |byRoot[Root(p, x)]| >= 2 && x in touched
    ensures y != x && Same(pairs, x, y)
  {
    hide Same, Represents, Root;
    var c := byRoot[Root(p, x)];
    assert |c - {x}| >= 1;
    y :| y in c - {x};
    RootsAreClasses(p, pairs, x, y);
  }

  lemma MatesGrouped(p: Parents, touched: set<Ref>, pairs: set<(Ref, Ref)>, byRoot: map<Ref, set<Ref>>,
                     x: Ref, y: Ref)
    requires Represents(p, pairs) && Falls(p) && Grouped(p, touched, byRoot)
    requires touched == (set p | p in pairs :: p.0) + (set p | p in pairs :: p.1)
    requires y != x && Same(pairs, x, y)
    ensures Root(p, x) in byRoot && |byRoot[Root(p, x)]| >= 2 && x in touched
  {
    hide Same, Represents, Root;
    RootsAreClasses(p, pairs, x, y);
    BothTouched(pairs, x, y);
    assert x in touched && y in touched;
    var c := byRoot[Root(p, x)];
    assert {x, y} <= c && |c| == |{x, y}| + |c - {x, y}|;
  }

  lemma RootsSame(p: Parents, pairs: set<(Ref, Ref)>, x: Ref)
    requires Represents(p, pairs)
    ensures Same(pairs, x, Root(p, x))
  {
  }

  lemma BothTouched(pairs: set<(Ref, Ref)>, x: Ref, y: Ref)
    requires x != y && Same(pairs, x, y)
    ensures exists q :: q in pairs && (q.0 == x || q.1 == x)
    ensures exists q :: q in pairs && (q.0 == y || q.1 == y)
  {
    hide Same;
    SameSymmetric(pairs, x, y);
    if forall q :: q in pairs ==> q.0 != x && q.1 != x { Untouched(pairs, x, y); }
    if forall q :: q in pairs ==> q.0 != y && q.1 != y { Untouched(pairs, y, x); }
  }

  lemma ClassOfRoot(p: Parents, touched: set<Ref>, pairs: set<(Ref, Ref)>, byRoot: map<Ref, set<Ref>>, r: Ref)
    requires Represents(p, pairs) && Falls(p)
    requires touched == (set p | p in pairs :: p.0) + (set p | p in pairs :: p.1)
    requires Grouped(p, touched, byRoot) && r in byRoot && |byRoot[r]| >= 2
    ensures r in touched && Root(p, r) == r && IsClass(pairs, r, byRoot[r])
  {
    hide Same, Represents, Root;
    var x :| x in byRoot[r];
    RootFacts(p, x);
    RootFacts(p, r);
    assert Root(p, r) == r;
    forall y ensures y in byRoot[r] <==> Same(pairs, r, y) {
      RootsAreClasses(p, pairs, r, y);
      if Same(pairs, r, y) && y != r { BothTouched(pairs, r, y); }
      if y == r {
        assert |byRoot[r] - {x}| >= 1;
        var z :| z in byRoot[r] - {x};
        var w := if x != r then x else z;
        RootsAreClasses(p, pairs, r, w);
        BothTouched(pairs, r, w);
      }
    }
    RootsAreClasses(p, pairs, r, r);
  }

  /** The quotient is a function of which links there are, not of the order they come in. */
  lemma QuotientUnique(pairs: set<(Ref, Ref)>, rep: map<Ref, Ref>, classes: map<Ref, set<Ref>>,
                       rep': map<Ref, Ref>, classes': map<Ref, set<Ref>>)
    requires IsQuotient(pairs, rep, classes) && IsQuotient(pairs, rep', classes')
    ensures rep == rep' && classes == classes'
  {
    hide Same, IsQuotient;
    forall x ensures x in rep ==> x in rep' && rep[x] == rep'[x] {
      if x in rep { RepUnique(pairs, rep, classes, rep', classes', x); }
    }
    forall x ensures x in rep' ==> x in rep {
      if x in rep' { RepUnique(pairs, rep', classes', rep, classes, x); }
    }
    assert rep == rep';
    forall r ensures r in classes ==> r in classes' && classes[r] == classes'[r] {
      if r in classes { ClassUnique(pairs, rep, classes, classes', r); }
    }
    forall r ensures r in classes' ==> r in classes {
      if r in classes' { ClassUnique(pairs, rep, classes', classes, r); }
    }
  }

  lemma RepUnique(pairs: set<(Ref, Ref)>, rep: map<Ref, Ref>, classes: map<Ref, set<Ref>>,
                  rep': map<Ref, Ref>, classes': map<Ref, set<Ref>>, x: Ref)
    requires IsQuotient(pairs, rep, classes) && IsQuotient(pairs, rep', classes') && x in rep
    ensures x in rep' && rep[x] == rep'[x]
  {
    hide Same, IsClass;
    var y :| y != x && Same(pairs, x, y);
    RefTotal(rep[x], rep'[x]);
  }

  lemma ClassUnique(pairs: set<(Ref, Ref)>, rep: map<Ref, Ref>, classes: map<Ref, set<Ref>>,
                    classes': map<Ref, set<Ref>>, r: Ref)
    requires IsQuotient(pairs, rep, classes) && IsQuotient(pairs, rep, classes') && r in classes
    ensures r in classes' && classes[r] == classes'[r]
  {
    hide Same;
    assert rep[r] in classes';
    assert forall y :: y in classes[r] <==> y in classes'[r];
  }
}
