/** What joining two copies of a sequence does to its order.

    Each copy's order survives as a subsequence of the merged one, and a typed run is never
    interleaved with anybody else's. */
module SequenceMerge {
  import opened Bytes
  import opened OrSets
  import opened Fugue
  import opened Sequence

  // ---------------------------------------------------------------------------
  // Each side's order survives the join
  // ---------------------------------------------------------------------------

  lemma {:induction false} DropsPaths(f: Forest, g: Forest, ps: seq<Path>, gone: set<Text>) returns (kept: seq<Path>)
    requires IsForest(f) && InOrder(ps)
    requires forall p :: p in ps ==> (End(p) in gone <==> !IsPath(f, p))
    ensures InOrder(kept) && Ids(kept) == Drop(Ids(ps), gone)
    ensures forall p :: p in kept <==> p in ps && IsPath(f, p)
  {
    hide IsPath, Before, InOrder, Ids, Drop;
    if ps == [] {
      kept := [];
      NothingDropped(gone);
    } else {
      var rest := ps[1..];
      assert forall p :: p in rest ==> p in ps;
      RestInOrder(ps);
      var k := DropsPaths(f, g, rest, gone);
      assert ps == [ps[0]] + rest;
      DropFirst(ps, gone);
      if IsPath(f, ps[0]) {
        kept := [ps[0]] + k;
        IdsFirst(ps[0], k);
        FirstInOrder(ps, k);
      } else {
        kept := k;
      }
    }
  }

  lemma NothingDropped(gone: set<Text>)
    ensures InOrder([]) && Ids([]) == Drop(Ids([]), gone)
  {
  }

  lemma RestInOrder(ps: seq<Path>)
    requires InOrder(ps) && ps != []
    ensures InOrder(ps[1..])
  {
    hide Before;
  }

  lemma DropFirst(ps: seq<Path>, gone: set<Text>)
    requires ps != []
    ensures Drop(Ids(ps), gone) == (if End(ps[0]) in gone then [] else [End(ps[0])]) + Drop(Ids(ps[1..]), gone)
  {
    assert ps == [ps[0]] + ps[1..];
    IdsFirst(ps[0], ps[1..]);
    assert Ids(ps)[1..] == Ids(ps[1..]);
  }

  lemma FirstInOrder(ps: seq<Path>, k: seq<Path>)
    requires ps != [] && InOrder(ps) && InOrder(k) && forall p :: p in k ==> p in ps[1..]
    ensures InOrder([ps[0]] + k)
  {
    hide Before;
    forall x: Path, y: Path | x in [ps[0]] && y in k ensures Before(x, y) {
      var i :| 0 <= i < |ps[1..]| && ps[1..][i] == y;
      assert ps[i + 1] == y;
    }
    InOrderConcat([ps[0]], k);
  }

  lemma GoneAreUnreachable(f: Forest, g: Forest, p: Path)
    requires IsForest(f) && IsForest(g) && Extends(f, g) && IsPath(g, p) && p != []
    ensures End(p) in Order(f) <==> IsPath(f, p)
  {
    hide Emit, Paths, IsPath;
    PathsCorrect(f);
    if IsPath(f, p) {
      var i :| 0 <= i < |Paths(f)| && Paths(f)[i] == p;
      OrderAt(f, i);
    }
    if End(p) in Order(f) {
      var i :| 0 <= i < |Order(f)| && Order(f)[i] == End(p);
      OrderAt(f, i);
      PathKept(f, g, Paths(f)[i]);
      PathUnique(g, p, Paths(f)[i]);
    }
  }

  /** Adding nodes never reorders the ones that were shown: the old order is the new one
      with the newcomers left out. */
  lemma OrderKept(f: Forest, g: Forest)
    requires IsForest(f) && IsForest(g) && Extends(f, g)
    ensures Drop(Order(g), ToSet(Order(g)) - ToSet(Order(f))) == Order(f)
    ensures ToSet(Order(f)) <= ToSet(Order(g))
  {
    hide Emit, Paths, IsPath, Before, Extends;
    PathsCorrect(f);
    PathsCorrect(g);
    var gone := ToSet(Order(g)) - ToSet(Order(f));
    forall p | p in Paths(g) ensures End(p) in gone <==> !IsPath(f, p) {
      var i :| 0 <= i < |Paths(g)| && Paths(g)[i] == p;
      OrderAt(g, i);
      GoneAreUnreachable(f, g, p);
    }
    var kept := DropsPaths(f, g, Paths(g), gone);
    forall p ensures p in kept <==> p in Paths(f) {
      if IsPath(f, p) { PathKept(f, g, p); }
    }
    InOrderUnique(kept, Paths(f));
    forall t | t in Order(f) ensures t in Order(g) {
      assert t in Drop(Order(g), gone);
    }
  }

  /** Neither side retired a node the other still holds. */
  predicate NoneRetired(a: OrSet<Cell>, b: OrSet<Cell>)
  {
    LiveTags(a) !! b.removes && LiveTags(b) !! a.removes
  }

  lemma JoinExtends(a: OrSet<Cell>, b: OrSet<Cell>)
    requires NoneRetired(a, b) && Agree(a, b)
    ensures Extends(Nodes(a), Nodes(Join(a, b))) && Extends(Nodes(b), Nodes(Join(a, b)))
    ensures Nodes(Join(a, b)) == Nodes(Join(b, a))
  {
  }

  /** Two node sets that agree on shared ids: each side's order is a subsequence of the
      merged order, and the merged order does not depend on who merged whom. */
  lemma MergeKeepsBothOrders(a: OrSet<Cell>, b: OrSet<Cell>)
    requires NoneRetired(a, b) && Agree(a, b)
    ensures var m := Order(Nodes(Join(a, b)));
      && Drop(m, ToSet(m) - ToSet(Order(Nodes(a)))) == Order(Nodes(a))
      && Drop(m, ToSet(m) - ToSet(Order(Nodes(b)))) == Order(Nodes(b))
      && m == Order(Nodes(Join(b, a)))
  {
    hide Order, Nodes;
    JoinExtends(a, b);
    OrderKept(Nodes(a), Nodes(Join(a, b)));
    OrderKept(Nodes(b), Nodes(Join(a, b)));
  }

  // ---------------------------------------------------------------------------
  // Subtrees are blocks
  // ---------------------------------------------------------------------------

  lemma {:induction false} KidBlock(f: Forest, p: Path, left: bool, ids: seq<Text>, t: Text)
      returns (a: seq<Path>, b: seq<Path>)
    requires IsForest(f) && IsPath(f, p) && IsPath(f, p + [Step(left, t)]) && t in ids
    requires forall t :: t in ids ==> t in f && f[t].parent == End(p) && (f[t].side == 0) == left
    ensures EmitAll(f, p, left, ids) == a + Emit(f, p + [Step(left, t)]) + b
  {
    hide Emit, IsPath;
    PathExtend(f, p, Step(left, ids[0]));
    if t == ids[0] {
      a, b := [], EmitAll(f, p, left, ids[1..]);
    } else {
      var a', b' := KidBlock(f, p, left, ids[1..], t);
      a, b := Emit(f, p + [Step(left, ids[0])]) + a', b';
      assert Emit(f, p + [Step(left, ids[0])]) + (a' + Emit(f, p + [Step(left, t)]) + b')
          == a + Emit(f, p + [Step(left, t)]) + b;
    }
  }

  lemma EmitParts(f: Forest, p: Path)
    requires IsForest(f) && IsPath(f, p)
    ensures Emit(f, p) == EmitAll(f, p, true, Kids(f, End(p), true)) + (if p == [] then [] else [p])
                        + EmitAll(f, p, false, Kids(f, End(p), false))
  {
    hide EmitAll, Kids, IsPath;
  }

  /** A subtree occupies one contiguous block of the order. */
  lemma {:induction false} SubtreeBlock(f: Forest, p: Path) returns (a: seq<Path>, b: seq<Path>)
    requires IsForest(f) && IsPath(f, p)
    ensures Paths(f) == a + Emit(f, p) + b
    decreases |p|
  {
    hide Emit, EmitAll, Kids, IsPath;
    if p == [] {
      a, b := [], [];
    } else {
      var q := p[..|p| - 1];
      var s := p[|p| - 1];
      PathLast(f, p);
      var a1, b1 := SubtreeBlock(f, q);
      var a2, b2 := KidBlock(f, q, s.left, Kids(f, End(q), s.left), s.id);
      EmitParts(f, q);
      var self := if q == [] then [] else [q];
      if s.left {
        var R := EmitAll(f, q, false, Kids(f, End(q), false));
        a, b := a1 + a2, b2 + self + R + b1;
        LeftGroups(a1, a2, Emit(f, p), b2, self, R, b1);
      } else {
        var L := EmitAll(f, q, true, Kids(f, End(q), true));
        a, b := a1 + L + self + a2, b2 + b1;
        RightGroups(a1, L, self, a2, Emit(f, p), b2, b1);
      }
    }
  }

  lemma LeftGroups<T>(a: seq<T>, b: seq<T>, c: seq<T>, d: seq<T>, e: seq<T>, f: seq<T>, g: seq<T>)
    ensures a + ((b + c + d) + e + f) + g == (a + b) + c + (d + e + f + g)
  {
  }

  lemma RightGroups<T>(a: seq<T>, b: seq<T>, c: seq<T>, d: seq<T>, e: seq<T>, f: seq<T>, g: seq<T>)
    ensures a + (b + c + (d + e + f)) + g == (a + b + c + d) + e + (f + g)
  {
  }

  // ---------------------------------------------------------------------------
  // A typed run
  // ---------------------------------------------------------------------------

  /** The forest after typing `ids` one after the other from a visible index on. */
  ghost function Typed(f: Forest, dead: set<Text>, index: nat, ids: seq<Text>, values: seq<Text>): (g: Forest)
    requires IsForest(f) && [] !in ids && |values| == |ids|
    ensures IsForest(g)
  {
    if ids == [] then f else
      var n := |ids| - 1;
      Inserted(Typed(f, dead, index, ids[..n], values[..n]), dead, index + n, ids[n], values[n])
  }

  /** Every id of the run after the first is the only child of the one before it. */
  ghost predicate Chain(h: Forest, ids: seq<Text>)
    requires IsForest(h)
  {
    && (forall i :: 0 <= i < |ids| ==> ids[i] in h)
    && (forall i :: 0 < i < |ids| ==> h[ids[i]].side == 1 && h[ids[i]].parent == ids[i - 1])
    && (forall t, i :: t in h && 0 <= i < |ids| && h[t].parent == ids[i] ==>
          i + 1 < |ids| && t == ids[i + 1])
  }

  ghost predicate FreshRun(f: Forest, dead: set<Text>, ids: seq<Text>)
    requires IsForest(f)
  {
    Distinct(ids) && forall i :: 0 <= i < |ids| ==> Fresh(f, ids[i]) && ids[i] !in dead
  }

  lemma FreshRunLast(f: Forest, dead: set<Text>, ids: seq<Text>)
    requires IsForest(f) && FreshRun(f, dead, ids) && ids != []
    ensures var run, x := ids[..|ids| - 1], ids[|ids| - 1];
      FreshRun(f, dead, run) && Fresh(f, x) && x !in dead && x !in run && ids == run + [x]
  {
  }

  /** What typing `run` from visible index `index` on must have made of `f`. */
  ghost predicate HasTyped(f: Forest, dead: set<Text>, index: nat, run: seq<Text>, g: Forest)
    requires IsForest(f) && IsForest(g) && index <= |Drop(Order(f), dead)|
  {
    var shown := Drop(Order(f), dead);
    && Extends(f, g) && g.Keys == f.Keys + ToSet(run) && Chain(g, run)
    && Drop(Order(g), dead) == shown[..index] + run + shown[index..]
    && forall t :: t in ToSet(run) ==> g[t].parent == [] || g[t].parent in g
  }

  /** One more keystroke: the last id has no child yet, so the new one becomes its right
      child and the chain grows by one. */
  lemma TypedStep(f: Forest, g: Forest, dead: set<Text>, index: nat, run: seq<Text>, x: Text, value: Text)
    requires IsForest(f) && IsForest(g) && Fresh(f, x) && x !in run && x !in dead
    requires index <= |Drop(Order(f), dead)| && HasTyped(f, dead, index, run, g)
    requires run != [] || !Disturbed(g, dead, Cut(Order(g), dead, index), x)
    ensures HasTyped(f, dead, index, run + [x], Inserted(g, dead, index + |run|, x, value))
  {
    hide *;
    TypedParts(f, dead, index, run, g);
    var k := Cut(Order(g), dead, index + |run|);
    FreshAfter(f, g, run, x);
    SpotShape(g, k, value);
    if run != [] {
      RunLast(g, dead, index, Drop(Order(f), dead), run);
      ChainEnd(g, run, k, value);
      LeafUndisturbed(g, dead, k, run, x);
    }
    NothingAdded(run, index);
    TypedShows(g, dead, index, Drop(Order(f), dead), run, x, value);
    var c := Spot(g, Order(g), k, value);
    ChainGrows(g, run, x, c);
    LeafAdded(f, g, run, x, c);
    InsertedIs(g, dead, index + |run|, x, value);
    TypedWhole(f, dead, index, run + [x], g[x := c]);
  }

  lemma TypedParts(f: Forest, dead: set<Text>, index: nat, run: seq<Text>, g: Forest)
    requires IsForest(f) && IsForest(g) && index <= |Drop(Order(f), dead)| && HasTyped(f, dead, index, run, g)
    ensures Extends(f, g) && g.Keys == f.Keys + ToSet(run) && Chain(g, run)
    ensures Drop(Order(g), dead) == Drop(Order(f), dead)[..index] + run + Drop(Order(f), dead)[index..]
    ensures index + |run| <= |Drop(Order(g), dead)|
    ensures forall t :: t in ToSet(run) ==> g[t].parent == [] || g[t].parent in g
  {
    hide Order, Drop, Chain, ToSet, Extends;
  }

  lemma TypedWhole(f: Forest, dead: set<Text>, index: nat, run: seq<Text>, g: Forest)
    requires IsForest(f) && IsForest(g) && index <= |Drop(Order(f), dead)|
    requires Extends(f, g) && g.Keys == f.Keys + ToSet(run) && Chain(g, run)
    requires Drop(Order(g), dead) == Drop(Order(f), dead)[..index] + run + Drop(Order(f), dead)[index..]
    requires forall t :: t in ToSet(run) ==> g[t].parent == [] || g[t].parent in g
    ensures HasTyped(f, dead, index, run, g)
  {
    hide Order, Drop, Chain, ToSet, Extends;
  }

  lemma InsertedIs(g: Forest, dead: set<Text>, index: nat, x: Text, value: Text)
    requires IsForest(g) && x != []
    ensures Inserted(g, dead, index, x, value) == g[x := Spot(g, Order(g), Cut(Order(g), dead, index), value)]
  {
    hide Order, Cut, Spot;
  }

  lemma {:induction false} TypedChain(f: Forest, dead: set<Text>, index: nat, ids: seq<Text>, values: seq<Text>)
    requires IsForest(f) && |values| == |ids| && [] !in ids
    requires FreshRun(f, dead, ids) && index <= |Drop(Order(f), dead)|
    requires ids == [] || !Disturbed(f, dead, Cut(Order(f), dead, index), ids[0])
    ensures HasTyped(f, dead, index, ids, Typed(f, dead, index, ids, values))
    decreases |ids|
  {
    hide HasTyped, Order, Drop, FreshRun, Fresh, Inserted, Typed, Disturbed, Cut;
    TypedUnfold(f, dead, index, ids, values);
    if ids == [] {
      NothingTyped(f, dead, index);
    } else {
      var n := |ids| - 1;
      var run, x := ids[..n], ids[n];
      FreshRunLast(f, dead, ids);
      TypedUnfold(f, dead, index, run, values[..n]);
      TypedChain(f, dead, index, run, values[..n]);
      TypedStep(f, Typed(f, dead, index, run, values[..n]), dead, index, run, x, values[n]);
    }
  }

  lemma TypedUnfold(f: Forest, dead: set<Text>, index: nat, ids: seq<Text>, values: seq<Text>)
    requires IsForest(f) && |values| == |ids| && [] !in ids
    ensures Typed(f, dead, index, ids, values) ==
      if ids == [] then f else
        var n := |ids| - 1;
        Inserted(Typed(f, dead, index, ids[..n], values[..n]), dead, index + n, ids[n], values[n])
  {
    hide Inserted;
  }

  lemma NothingTyped(f: Forest, dead: set<Text>, index: nat)
    requires IsForest(f) && index <= |Drop(Order(f), dead)|
    ensures HasTyped(f, dead, index, [], f)
  {
    hide Order, Drop;
    var shown := Drop(Order(f), dead);
    assert shown[..index] + [] + shown[index..] == shown;
    assert ToSet([]) == {};
  }

  lemma LeafAdded(f: Forest, g: Forest, run: seq<Text>, x: Text, c: Cell)
    requires IsForest(f) && IsForest(g) && Extends(f, g) && Fresh(g, x) && c.Cell?
    requires g.Keys == f.Keys + ToSet(run)
    requires forall t :: t in ToSet(run) ==> g[t].parent == [] || g[t].parent in g
    requires c.parent == [] || c.parent in g
    ensures var h := g[x := c];
      && Extends(f, h) && h.Keys == f.Keys + ToSet(run + [x])
      && forall t :: t in ToSet(run + [x]) ==> h[t].parent == [] || h[t].parent in h
  {
    assert ToSet(run + [x]) == ToSet(run) + {x};
  }

  lemma LastOfMiddle(a: seq<Text>, run: seq<Text>, b: seq<Text>)
    requires run != []
    ensures (a + run + b)[|a| + |run| - 1] == run[|run| - 1]
  {
  }

  lemma RunLast(g: Forest, dead: set<Text>, index: nat, shown: seq<Text>, run: seq<Text>)
    requires IsForest(g) && run != [] && index <= |shown|
    requires Drop(Order(g), dead) == shown[..index] + run + shown[index..]
    ensures var k := Cut(Order(g), dead, index + |run|);
      0 < k && Order(g)[k - 1] == run[|run| - 1]
  {
    hide *;
    CutCounts(Order(g), dead, index + |run|);
    LastOfMiddle(shown[..index], run, shown[index..]);
  }

  lemma TypedShows(g: Forest, dead: set<Text>, index: nat, shown: seq<Text>, run: seq<Text>, x: Text, value: Text)
    requires IsForest(g) && index <= |shown| && Fresh(g, x) && x !in dead
    requires Drop(Order(g), dead) == shown[..index] + run + shown[index..]
    requires !Disturbed(g, dead, Cut(Order(g), dead, index + |run|), x)
    ensures Drop(Order(Inserted(g, dead, index + |run|, x, value)), dead)
         == shown[..index] + (run + [x]) + shown[index..]
  {
    hide Order, Drop, Disturbed, Inserted;
    var n, V := index + |run|, Drop(Order(g), dead);
    InsertReads(g, dead, n, x, value);
    assert V[..n] == shown[..index] + run && V[n..] == shown[index..];
    assert shown[..index] + run + [x] + shown[index..] == shown[..index] + (run + [x]) + shown[index..];
  }

  lemma NothingAdded(run: seq<Text>, index: nat)
    ensures run == [] ==> index + |run| == index
  {
  }

  /** After a keystroke the left neighbour is a leaf: nothing can disturb the next one. */
  lemma LeafUndisturbed(g: Forest, dead: set<Text>, k: nat, run: seq<Text>, x: Text)
    requires IsForest(g) && Chain(g, run) && run != []
    requires 0 < k <= |Order(g)| && Order(g)[k - 1] == run[|run| - 1]
    ensures !Disturbed(g, dead, k, x)
  {
    hide Emit, Paths, Order, HasRightChild;
    PathsCorrect(g);
    OrderAt(g, k - 1);
    var p := Paths(g)[k - 1];
    forall i | 0 <= i < |Order(g)| ensures !OddBelow(g, p, x, Paths(g)[i]) {
      OrderAt(g, i);
      var q := Paths(g)[i];
      assert q in Paths(g);
      if p < q { ChildBelow(g, p, q); }
    }
  }

  lemma ChildBelow(g: Forest, p: Path, q: Path)
    requires IsForest(g) && IsPath(g, q) && p < q
    ensures q[|p|].id in g && g[q[|p|].id].parent == End(p)
  {
    assert StepAt(g, q, |p|);
    assert q[..|p|] == p;
  }

  lemma FreshAfter(f: Forest, g: Forest, run: seq<Text>, x: Text)
    requires IsForest(f) && IsForest(g) && Fresh(f, x) && x !in run
    requires Extends(f, g) && g.Keys == f.Keys + ToSet(run)
    requires forall t :: t in ToSet(run) ==> g[t].parent == [] || g[t].parent in g
    ensures Fresh(g, x) && x != []
  {
  }

  lemma SpotShape(g: Forest, k: nat, value: Text)
    requires IsForest(g) && k <= |Order(g)|
    ensures var c := Spot(g, Order(g), k, value);
      (c.side == 0 || c.side == 1) && (c.parent == [] || c.parent in g)
  {
    hide Order;
    OrderInForest(g);
  }

  lemma ChainEnd(g: Forest, run: seq<Text>, k: nat, value: Text)
    requires IsForest(g) && Chain(g, run) && run != []
    requires 0 < k <= |Order(g)| && Order(g)[k - 1] == run[|run| - 1]
    ensures Spot(g, Order(g), k, value) == Cell(run[|run| - 1], 1, value)
  {
    hide Order;
  }

  lemma ChainGrows(g: Forest, run: seq<Text>, x: Text, c: Cell)
    requires IsForest(g) && Chain(g, run) && Fresh(g, x) && c.Cell?
    requires c.parent == [] || c.parent in g
    requires run != [] ==> c.parent == run[|run| - 1] && c.side == 1
    ensures Chain(g[x := c], run + [x])
  {
    var h, ids := g[x := c], run + [x];
    forall i | 0 <= i < |run| - 1 ensures run[i] != run[|run| - 1] {
      ChainDistinct(g, run, i, |run| - 1);
    }
    forall t, i | t in h && 0 <= i < |ids| && h[t].parent == ids[i]
      ensures i + 1 < |ids| && t == ids[i + 1]
    {
    }
  }

  /** A chain never comes back to an id: it would have two children in a row. */
  lemma {:induction false} ChainDistinct(g: Forest, run: seq<Text>, i: nat, j: nat)
    requires IsForest(g) && Chain(g, run) && i < j == |run| - 1
    ensures run[i] != run[j]
  {
    assert g[run[i + 1]].parent == run[i];
  }

  /** From its first id down, a chain is the whole subtree, in order. */
  lemma {:induction false} ChainSubtree(h: Forest, ids: seq<Text>, p: Path)
    requires IsForest(h) && ids != [] && Chain(h, ids) && IsPath(h, p) && p != [] && End(p) == ids[0]
    ensures Ids(Emit(h, p)) == ids
    decreases |ids|
  {
    hide Emit, IsPath;
    EmitParts(h, p);
    NoOtherKids(h, ids);
    if |ids| == 1 {
      assert Emit(h, p) == [p];
    } else {
      var s := Step(false, ids[1]);
      PathExtend(h, p, s);
      ChainTail(h, ids);
      ChainSubtree(h, ids[1..], p + [s]);
      OnlyKid(h, ids);
      SingleKid(h, p, ids[1]);
      assert Emit(h, p) == [p] + Emit(h, p + [s]);
      IdsFirst(p, Emit(h, p + [s]));
    }
  }

  lemma NoOtherKids(h: Forest, ids: seq<Text>)
    requires IsForest(h) && ids != [] && Chain(h, ids)
    ensures Kids(h, ids[0], true) == []
    ensures |ids| == 1 ==> Kids(h, ids[0], false) == []
  {
    forall t | t in h && h[t].parent == ids[0] ensures |ids| > 1 && h[t].side == 1 {
      assert t == ids[1] && h[ids[1]].side == 1;
    }
    NoKids(h, ids[0], true);
    if |ids| == 1 { NoKids(h, ids[0], false); }
  }

  lemma NoKids(h: Forest, id: Text, left: bool)
    requires IsForest(h) && forall t :: t in h && h[t].parent == id ==> (h[t].side == 0) != left
    ensures Kids(h, id, left) == []
  {
    assert (set t | t in h && h[t].parent == id && (h[t].side == 0) == left) == {};
  }

  lemma ChainTail(h: Forest, ids: seq<Text>)
    requires IsForest(h) && |ids| > 1 && Chain(h, ids)
    ensures Chain(h, ids[1..])
  {
    var rest := ids[1..];
    forall t, i | t in h && 0 <= i < |rest| && h[t].parent == rest[i]
      ensures i + 1 < |rest| && t == rest[i + 1]
    {
      assert rest[i] == ids[i + 1];
    }
    forall i | 0 < i < |rest| ensures h[rest[i]].side == 1 && h[rest[i]].parent == rest[i - 1] {
      assert rest[i] == ids[i + 1] && rest[i - 1] == ids[i];
    }
  }

  lemma OnlyKid(h: Forest, ids: seq<Text>)
    requires IsForest(h) && |ids| > 1 && Chain(h, ids)
    ensures Kids(h, ids[0], false) == [ids[1]]
  {
    var r := Kids(h, ids[0], false);
    assert h[ids[1]].parent == ids[0];
    assert forall t :: t in r <==> t == ids[1];
    AscendingUnique(r, [ids[1]]);
  }

  lemma SingleKid(h: Forest, p: Path, t: Text)
    requires IsForest(h) && IsPath(h, p) && t in h && h[t].parent == End(p) && h[t].side != 0
    ensures IsPath(h, p + [Step(false, t)])
    ensures EmitAll(h, p, false, [t]) == Emit(h, p + [Step(false, t)])
  {
    hide Emit;
    PathExtend(h, p, Step(false, t));
    assert EmitAll(h, p, false, []) == [];
  }

  /** The header's promise. Someone types a run; anyone else's nodes are added, none of them
      hanging from the run, which nobody else has seen; the run is still one whole block,
      in the order it was typed. */
  lemma RunStaysWhole(f: Forest, dead: set<Text>, index: nat, ids: seq<Text>, values: seq<Text>, h: Forest)
      returns (before: seq<Text>, after: seq<Text>)
    requires IsForest(f) && IsForest(h) && |values| == |ids| && ids != [] && [] !in ids
    requires FreshRun(f, dead, ids) && index <= |Drop(Order(f), dead)|
    requires !Disturbed(f, dead, Cut(Order(f), dead, index), ids[0])
    requires Extends(Typed(f, dead, index, ids, values), h)
    requires forall t :: t in h && t !in Typed(f, dead, index, ids, values) ==> h[t].parent !in ids
    ensures Order(h) == before + ids + after
  {
    hide Emit, Paths, IsPath, Drop, Cut, Spot;
    var g := Typed(f, dead, index, ids, values);
    TypedChain(f, dead, index, ids, values);
    ChainKept(g, h, ids);
    ShownFirst(f, g, dead, index, ids);
    OrderKept(g, h);
    assert ids[0] in ToSet(Order(g));
    var i :| 0 <= i < |Order(h)| && Order(h)[i] == ids[0];
    OrderAt(h, i);
    var p := Paths(h)[i];
    var a, b := SubtreeBlock(h, p);
    ChainSubtree(h, ids, p);
    before, after := Ids(a), Ids(b);
    IdsConcat(a, Emit(h, p), b);
  }

  lemma IdsConcat(a: seq<Path>, b: seq<Path>, c: seq<Path>)
    ensures Ids(a + b + c) == Ids(a) + Ids(b) + Ids(c)
  {
  }

  lemma ChainKept(g: Forest, h: Forest, ids: seq<Text>)
    requires IsForest(g) && IsForest(h) && Chain(g, ids) && Extends(g, h)
    requires forall t :: t in h && t !in g ==> h[t].parent !in ids
    ensures Chain(h, ids)
  {
  }

  lemma ShownFirst(f: Forest, g: Forest, dead: set<Text>, index: nat, ids: seq<Text>)
    requires IsForest(f) && IsForest(g) && ids != [] && index <= |Drop(Order(f), dead)|
    requires var shown := Drop(Order(f), dead); Drop(Order(g), dead) == shown[..index] + ids + shown[index..]
    ensures ids[0] in Order(g)
  {
    hide Order;
    assert Drop(Order(g), dead)[index] == ids[0];
    assert ids[0] in Drop(Order(g), dead);
  }

  // ---------------------------------------------------------------------------
  // When a typed run reads as typed
  // ---------------------------------------------------------------------------

  /** Whatever is typed after the first id only adds to what the first made. */
  lemma {:induction false} TypedExtends(f: Forest, dead: set<Text>, index: nat, ids: seq<Text>, values: seq<Text>)
    requires IsForest(f) && |values| == |ids| && ids != [] && [] !in ids && FreshRun(f, dead, ids)
    ensures Extends(Inserted(f, dead, index, ids[0], values[0]), Typed(f, dead, index, ids, values))
    ensures Typed(f, dead, index, ids, values).Keys == f.Keys + ToSet(ids)
    decreases |ids|
  {
    hide Order, Drop, Cut, Inserted, Extends, FreshRun, Fresh, ToSet, Typed;
    var n := |ids| - 1;
    var run := ids[..n];
    var g := Typed(f, dead, index, run, values[..n]);
    FreshRunLast(f, dead, ids);
    SetOfLast(run, ids[n]);
    TypedUnfold(f, dead, index, ids, values);
    if n > 0 {
      TypedExtends(f, dead, index, run, values[..n]);
      NotYet(f, run, ids[n]);
      InsertedAdds(g, dead, index + n, ids[n], values[n]);
      ExtendsOn(Inserted(f, dead, index, ids[0], values[0]), g, Typed(f, dead, index, ids, values));
    } else {
      TypedUnfold(f, dead, index, run, values[..n]);
      InsertedAdds(f, dead, index, ids[n], values[n]);
      ExtendsSelf(Typed(f, dead, index, ids, values));
    }
  }

  lemma SetOfLast(run: seq<Text>, x: Text)
    ensures ToSet(run + [x]) == ToSet(run) + {x} && ToSet([]) == {}
  {
  }

  lemma NotYet(f: Forest, run: seq<Text>, x: Text)
    requires IsForest(f) && Fresh(f, x) && x !in run
    ensures x !in f.Keys + ToSet(run)
  {
  }

  lemma InsertedAdds(g: Forest, dead: set<Text>, index: nat, x: Text, value: Text)
    requires IsForest(g) && x != []
    ensures Inserted(g, dead, index, x, value).Keys == g.Keys + {x}
    ensures x !in g ==> Extends(g, Inserted(g, dead, index, x, value))
  {
    hide Order, Cut, Spot;
  }

  lemma ExtendsOn(f: Forest, g: Forest, h: Forest)
    requires Extends(f, g) && Extends(g, h)
    ensures Extends(f, h)
  {
  }

  lemma ExtendsSelf(f: Forest)
    ensures Extends(f, f)
  {
  }

  lemma {:induction false} DropCommutes(all: seq<Text>, a: set<Text>, b: set<Text>)
    ensures Drop(Drop(all, a), b) == Drop(Drop(all, b), a)
  {
    if all != [] {
      DropCommutes(all[1..], a, b);
      assert all == [all[0]] + all[1..];
      DropConcat(if all[0] in a then [] else [all[0]], Drop(all[1..], a), b);
      DropConcat(if all[0] in b then [] else [all[0]], Drop(all[1..], b), a);
    }
  }

  lemma {:induction false} DropNone(all: seq<Text>, gone: set<Text>)
    requires forall t :: t in all ==> t !in gone
    ensures Drop(all, gone) == all
  {
    if all != [] { DropNone(all[1..], gone); }
  }

  lemma {:induction false} DropEvery(all: seq<Text>, gone: set<Text>)
    requires forall t :: t in all ==> t in gone
    ensures Drop(all, gone) == []
  {
    if all != [] { DropEvery(all[1..], gone); }
  }

  /** Leaving out all of a run but its first id. */
  lemma DropTail(a: seq<Text>, ids: seq<Text>, b: seq<Text>, gone: set<Text>)
    requires ids != [] && (forall t :: t in a || t in b || t == ids[0] ==> t !in gone)
    requires forall t :: t in ids[1..] ==> t in gone
    ensures Drop(a + ids + b, gone) == a + [ids[0]] + b
  {
    hide Drop;
    assert ids == [ids[0]] + ids[1..];
    DropConcat(a + ids, b, gone);
    DropConcat(a, ids, gone);
    DropConcat([ids[0]], ids[1..], gone);
    DropNone(a, gone);
    DropNone(b, gone);
    DropNone([ids[0]], gone);
    DropEvery(ids[1..], gone);
  }

  /** The run reads where it was typed, in order, exactly when its first keystroke does. */
  lemma TypedReads(f: Forest, dead: set<Text>, index: nat, ids: seq<Text>, values: seq<Text>)
    requires IsForest(f) && |values| == |ids| && ids != [] && [] !in ids
    requires FreshRun(f, dead, ids) && index <= |Drop(Order(f), dead)|
    ensures var shown := Drop(Order(f), dead);
      Drop(Order(Typed(f, dead, index, ids, values)), dead) == shown[..index] + ids + shown[index..]
      <==> !Disturbed(f, dead, Cut(Order(f), dead, index), ids[0])
  {
    hide Order, Drop, Cut, Disturbed, FreshRun, Chain, Extends;
    var shown := Drop(Order(f), dead);
    var g := Typed(f, dead, index, ids, values);
    if !Disturbed(f, dead, Cut(Order(f), dead, index), ids[0]) {
      TypedChain(f, dead, index, ids, values);
    } else if Drop(Order(g), dead) == shown[..index] + ids + shown[index..] {
      FirstReads(f, dead, index, ids, values);
      FirstFresh(f, dead, ids);
      InsertReads(f, dead, index, ids[0], values[0]);
    }
  }

  lemma FirstFresh(f: Forest, dead: set<Text>, ids: seq<Text>)
    requires IsForest(f) && FreshRun(f, dead, ids) && ids != []
    ensures Fresh(f, ids[0]) && ids[0] !in dead
  {
  }

  lemma FirstReads(f: Forest, dead: set<Text>, index: nat, ids: seq<Text>, values: seq<Text>)
    requires IsForest(f) && |values| == |ids| && ids != [] && [] !in ids
    requires FreshRun(f, dead, ids) && index <= |Drop(Order(f), dead)|
    requires var shown := Drop(Order(f), dead);
      Drop(Order(Typed(f, dead, index, ids, values)), dead) == shown[..index] + ids + shown[index..]
    ensures var shown := Drop(Order(f), dead);
      Drop(Order(Inserted(f, dead, index, ids[0], values[0])), dead) == shown[..index] + [ids[0]] + shown[index..]
  {
    hide Order, Drop, Cut, Disturbed, Extends, Typed, Inserted, Chain;
    var shown, x := Drop(Order(f), dead), ids[0];
    var h, g := Inserted(f, dead, index, x, values[0]), Typed(f, dead, index, ids, values);
    TypedExtends(f, dead, index, ids, values);
    OrderKept(h, g);
    var gone := ToSet(Order(g)) - ToSet(Order(h));
    FirstIsThere(f, dead, index, x, values[0]);
    TailIsNew(f, dead, index, ids, values);
    DropCommutes(Order(g), gone, dead);
    DropTail(shown[..index], ids, shown[index..], gone);
  }

  lemma FirstIsThere(f: Forest, dead: set<Text>, index: nat, x: Text, value: Text)
    requires IsForest(f) && Fresh(f, x) && x !in dead && index <= |Drop(Order(f), dead)|
    ensures var h := Inserted(f, dead, index, x, value);
      x in Order(h) && forall t :: t in Drop(Order(f), dead) ==> t in Order(h)
  {
    hide Emit, Paths, Before, HasRightChild, IsPath, Order, Spot, OddBelow;
    OrderInForest(f);
    var k := Cut(Order(f), dead, index);
    var j := InsertPlaces(f, x, value, k);
  }

  lemma TailIsNew(f: Forest, dead: set<Text>, index: nat, ids: seq<Text>, values: seq<Text>)
    requires IsForest(f) && |values| == |ids| && ids != [] && [] !in ids
    requires FreshRun(f, dead, ids) && index <= |Drop(Order(f), dead)|
    requires var shown := Drop(Order(f), dead);
      Drop(Order(Typed(f, dead, index, ids, values)), dead) == shown[..index] + ids + shown[index..]
    ensures forall t :: t in ids[1..] ==>
      t in Order(Typed(f, dead, index, ids, values)) && t !in Order(Inserted(f, dead, index, ids[0], values[0]))
  {
    hide Order, Cut, Typed, Spot, Drop;
    var h := Inserted(f, dead, index, ids[0], values[0]);
    OrderInForest(h);
    var all := Drop(Order(Typed(f, dead, index, ids, values)), dead);
    forall t | t in ids[1..] ensures t in all && t !in h {
      var i :| 1 <= i < |ids| && ids[i] == t;
      assert all[index + i] == t;
    }
  }
}
