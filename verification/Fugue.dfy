/** Ordered content: the Fugue tree of src/crdt/sequence.cpp and its in-order traversal
    by an explicit stack, on any set of nodes: orphans, cycles and all. */
module Fugue {
  import opened Bytes
  import opened OrSets

  /** What `decode_node` makes of a stored value. `side` is any integer: only 0 is left
      for the traversal, only 1 is right for `has_right_child`. The root's id is []. */
  datatype Cell = Cell(parent: Text, side: int, payload: Text) | Garbled

  type Forest = map<Text, Cell>

  /** The nodes `seq_order` keeps: added, not removed, decodable, with a real tag. */
  function Nodes(s: OrSet<Cell>): (f: Forest)
    ensures IsForest(f)
  {
    map t | t in s.adds && t !in s.removes && t != [] && s.adds[t].Cell? :: s.adds[t]
  }

  predicate IsForest(f: Forest)
  {
    [] !in f && forall t :: t in f ==> f[t].Cell?
  }

  // ---------------------------------------------------------------------------
  // Paths from the virtual root
  // ---------------------------------------------------------------------------

  datatype Step = Step(left: bool, id: Text)

  type Path = seq<Step>

  function End(p: Path): Text
  {
    if p == [] then [] else p[|p| - 1].id
  }

  /** The step at `i` is a node filed under the step before it, on the side it names. */
  ghost predicate StepAt(f: Forest, p: Path, i: int)
    requires IsForest(f) && 0 <= i < |p|
  {
    && p[i].id in f
    && p[i].left == (f[p[i].id].side == 0)
    && f[p[i].id].parent == if i == 0 then [] else p[i - 1].id
  }

  ghost predicate IsPath(f: Forest, p: Path)
    requires IsForest(f)
  {
    forall i :: 0 <= i < |p| ==> StepAt(f, p, i)
  }

  lemma PathPrefix(f: Forest, p: Path, n: nat)
    requires IsForest(f) && IsPath(f, p) && n <= |p|
    ensures IsPath(f, p[..n])
  {
    forall i | 0 <= i < n ensures StepAt(f, p[..n], i) {
      assert StepAt(f, p, i);
    }
  }

  lemma PathLast(f: Forest, p: Path)
    requires IsForest(f) && IsPath(f, p) && p != []
    ensures IsPath(f, p[..|p| - 1])
    ensures End(p) in f && f[End(p)].parent == End(p[..|p| - 1])
    ensures p[|p| - 1] == Step(f[End(p)].side == 0, End(p))
    ensures p == p[..|p| - 1] + [p[|p| - 1]]
  {
    PathPrefix(f, p, |p| - 1);
    assert StepAt(f, p, |p| - 1);
  }

  lemma PathExtend(f: Forest, p: Path, s: Step)
    requires IsForest(f) && IsPath(f, p)
    ensures IsPath(f, p + [s]) <==>
            s.id in f && s.left == (f[s.id].side == 0) && f[s.id].parent == End(p)
  {
    var q := p + [s];
    if s.id in f && s.left == (f[s.id].side == 0) && f[s.id].parent == End(p) {
      forall i | 0 <= i < |q| ensures StepAt(f, q, i) {
        if i < |p| { assert StepAt(f, p, i); }
      }
    }
    if IsPath(f, q) {
      assert StepAt(f, q, |p|);
    }
  }

  /** A node has one parent, so it is reached by at most one path, cycles or not. */
  lemma {:induction false} PathUnique(f: Forest, p: Path, q: Path)
    requires IsForest(f) && IsPath(f, p) && IsPath(f, q) && End(p) == End(q)
    ensures p == q
    decreases |p|
  {
    if p != [] { PathLast(f, p); }
    if q != [] { PathLast(f, q); }
    if p != [] && q != [] {
      PathUnique(f, p[..|p| - 1], q[..|q| - 1]);
    }
  }

  /** No path is longer than the forest: its ids are distinct. */
  lemma {:induction false} PathShort(f: Forest, p: Path)
    requires IsForest(f) && IsPath(f, p)
    ensures |p| <= |f|
  {
    var ids := set i | 0 <= i < |p| :: p[i].id;
    forall i, j | 0 <= i < j < |p| ensures p[i].id != p[j].id {
      if p[i].id == p[j].id {
        PathPrefix(f, p, i + 1);
        PathPrefix(f, p, j + 1);
        PathUnique(f, p[..i + 1], p[..j + 1]);
      }
    }
    DistinctCount(p);
    forall x | x in ids ensures x in f {
      var i :| 0 <= i < |p| && p[i].id == x;
      assert StepAt(f, p, i);
    }
    SubsetAtMost(ids, f.Keys);
    assert |f| == |f.Keys|;
  }

  lemma {:induction false} DistinctCount(p: Path)
    requires forall i, j :: 0 <= i < j < |p| ==> p[i].id != p[j].id
    ensures |set i | 0 <= i < |p| :: p[i].id| == |p|
  {
    var ids := set i | 0 <= i < |p| :: p[i].id;
    if p != [] {
      var q := p[..|p| - 1];
      DistinctCount(q);
      var qids := set i | 0 <= i < |q| :: q[i].id;
      assert ids == qids + {p[|p| - 1].id} by {
        forall x | x in ids ensures x in qids + {p[|p| - 1].id} {
          var i :| 0 <= i < |p| && p[i].id == x;
          if i < |q| { assert q[i].id == x; }
        }
        forall x | x in qids + {p[|p| - 1].id} ensures x in ids {
          if x in qids {
            var i :| 0 <= i < |q| && q[i].id == x;
            assert p[i].id == x;
          }
        }
      }
      assert p[|p| - 1].id !in qids;
    }
  }

  // ---------------------------------------------------------------------------
  // The in-order comparison of paths
  // ---------------------------------------------------------------------------

  /** In-order: a left descendant comes before its ancestor, a right one after it, and
      siblings on one side go by id. */
  predicate Before(p: Path, q: Path)
  {
    if p == [] then q != [] && !q[0].left
    else if q == [] then p[0].left
    else if p[0] == q[0] then Before(p[1..], q[1..])
    else (p[0].left && !q[0].left) || (p[0].left == q[0].left && Less(p[0].id, q[0].id))
  }

  lemma {:induction false} BeforeIrreflexive(p: Path)
    ensures !Before(p, p)
  {
    if p != [] { BeforeIrreflexive(p[1..]); }
  }

  lemma {:induction false} BeforeTransitive(p: Path, q: Path, r: Path)
    requires Before(p, q) && Before(q, r)
    ensures Before(p, r)
  {
    if p != [] && q != [] && r != [] {
      if p[0] == q[0] && q[0] == r[0] {
        BeforeTransitive(p[1..], q[1..], r[1..]);
      } else if p[0] != q[0] && q[0] != r[0] {
        if p[0].left == q[0].left && q[0].left == r[0].left {
          LessTransitive(p[0].id, q[0].id, r[0].id);
          LessIrreflexive(p[0].id);
        }
      }
    }
  }

  lemma {:induction false} BeforeTotal(p: Path, q: Path)
    ensures p == q || Before(p, q) || Before(q, p)
  {
    if p != [] && q != [] {
      if p[0] == q[0] {
        BeforeTotal(p[1..], q[1..]);
        assert p == [p[0]] + p[1..] && q == [q[0]] + q[1..];
      } else {
        LessTotal(p[0].id, q[0].id);
      }
    }
  }

  lemma BeforeAsymmetric(p: Path, q: Path)
    requires Before(p, q)
    ensures !Before(q, p) && p != q
  {
    BeforeIrreflexive(p);
    if Before(q, p) { BeforeTransitive(p, q, p); }
  }

  lemma {:induction false} BeforeUnder(p: Path, x: Path, y: Path)
    ensures Before(p + x, p + y) == Before(x, y)
  {
    if p == [] {
      assert p + x == x && p + y == y;
    } else {
      assert (p + x)[1..] == p[1..] + x && (p + y)[1..] == p[1..] + y;
      BeforeUnder(p[1..], x, y);
    }
  }

  lemma PrefixHead(p: Path, q: Path)
    requires p != [] && q != []
    ensures p <= q <==> p[0] == q[0] && p[1..] <= q[1..]
  {
    if p[0] == q[0] && p[1..] <= q[1..] {
      assert p == [p[0]] + p[1..];
    }
  }

  /** Everything at or below one path keeps the same side of a path elsewhere. */
  lemma {:induction false} BeforeWhole(p: Path, x: Path, q: Path)
    requires !(p <= q)
    ensures Before(p + x, q) == Before(p, q) && Before(q, p + x) == Before(q, p)
  {
    if q != [] && p[0] == q[0] {
      assert (p + x)[1..] == p[1..] + x;
      PrefixHead(p, q);
      BeforeWhole(p[1..], x, q[1..]);
    }
  }

  ghost predicate InOrder(ps: seq<Path>)
  {
    forall i, j :: 0 <= i < j < |ps| ==> Before(ps[i], ps[j])
  }

  /** A strictly ordered list is determined by its members. */
  lemma {:induction false} InOrderUnique(a: seq<Path>, b: seq<Path>)
    requires InOrder(a) && InOrder(b)
    requires forall p :: p in a <==> p in b
    ensures a == b
  {
    assert a != [] ==> a[0] in a;
    assert b != [] ==> b[0] in b;
    if a != [] && b != [] {
      if a[0] != b[0] {
        assert a[0] in b && b[0] in a;
        var i :| 0 <= i < |b| && b[i] == a[0];
        var j :| 0 <= j < |a| && a[j] == b[0];
        BeforeAsymmetric(b[0], b[i]);
        assert false;
      }
      forall p ensures p in a[1..] <==> p in b[1..] {
        BeforeIrreflexive(a[0]);
        if p in a[1..] || p in b[1..] {
          assert p in a && p in b;
          assert p != a[0];
        }
      }
      InOrderUnique(a[1..], b[1..]);
      assert a == [a[0]] + a[1..] && b == [b[0]] + b[1..];
    }
  }

  // ---------------------------------------------------------------------------
  // The traversal as recursion: what the explicit stack must produce
  // ---------------------------------------------------------------------------

  /** `children[parent][side]`, ascending by id. */
  function Kids(f: Forest, parent: Text, left: bool): (r: seq<Text>)
    requires IsForest(f)
    ensures Ascending(r)
    ensures forall t :: t in r <==> t in f && f[t].parent == parent && (f[t].side == 0) == left
  {
    var kids := set t | t in f && f[t].parent == parent && (f[t].side == 0) == left;
    SortedAscending(kids);
    Sorted(kids)
  }

  ghost function Emit(f: Forest, p: Path): seq<Path>
    requires IsForest(f) && IsPath(f, p)
    decreases |f| - |p|, 1, 0
  {
    PathShort(f, p);
    EmitAll(f, p, true, Kids(f, End(p), true)) + (if p == [] then [] else [p])
      + EmitAll(f, p, false, Kids(f, End(p), false))
  }

  ghost function EmitAll(f: Forest, p: Path, left: bool, ids: seq<Text>): seq<Path>
    requires IsForest(f) && IsPath(f, p)
    requires forall t :: t in ids ==> t in f && f[t].parent == End(p) && (f[t].side == 0) == left
    decreases |f| - |p|, 0, |ids|
  {
    if ids == [] then [] else
      PathShort(f, p);
      PathExtend(f, p, Step(left, ids[0]));
      Emit(f, p + [Step(left, ids[0])]) + EmitAll(f, p, left, ids[1..])
  }

  ghost predicate Under(p: Path, left: bool, ids: seq<Text>, q: Path)
  {
    p < q && q[|p|].left == left && q[|p|].id in ids
  }

  lemma InOrderConcat(a: seq<Path>, b: seq<Path>)
    requires InOrder(a) && InOrder(b)
    requires forall x, y :: x in a && y in b ==> Before(x, y)
    ensures InOrder(a + b)
  {
    var c := a + b;
    forall i, j | 0 <= i < j < |c| ensures Before(c[i], c[j]) {
      if i < |a| <= j {
        assert c[i] in a && c[j] in b;
      }
    }
  }

  lemma BeforeBelow(p: Path, x: Path, y: Path)
    requires p <= x && p <= y && Before(x[|p|..], y[|p|..])
    ensures Before(x, y)
  {
    assert x == p + x[|p|..] && y == p + y[|p|..];
    BeforeUnder(p, x[|p|..], y[|p|..]);
  }

  lemma PathEnters(f: Forest, p: Path, q: Path)
    requires IsForest(f) && IsPath(f, p) && IsPath(f, q) && p < q
    ensures Under(p, q[|p|].left, Kids(f, End(p), q[|p|].left), q)
  {
    assert q[..|p|] == p;
    assert StepAt(f, q, |p|);
  }

  /** `Emit` lists exactly the paths at or below `p`, in order. */
  lemma {:induction false} EmitCorrect(f: Forest, p: Path)
    requires IsForest(f) && IsPath(f, p)
    ensures InOrder(Emit(f, p))
    ensures forall q :: q in Emit(f, p) <==> IsPath(f, q) && p <= q && q != []
    decreases |f| - |p|, 1, 0
  {
    PathShort(f, p);
    var ls, rs := Kids(f, End(p), true), Kids(f, End(p), false);
    var L, R := EmitAll(f, p, true, ls), EmitAll(f, p, false, rs);
    var M := if p == [] then [] else [p];
    EmitAllCorrect(f, p, true, ls);
    EmitAllCorrect(f, p, false, rs);
    EmitInOrder(p, ls, rs, L, M, R);
    assert Emit(f, p) == L + M + R;
    forall q: Path ensures q in L + M + R <==> IsPath(f, q) && p <= q && q != [] {
      if IsPath(f, q) && p < q {
        PathEnters(f, p, q);
        assert if q[|p|].left then Under(p, true, ls, q) else Under(p, false, rs, q);
      }
      assert q in M <==> q == p && p != [];
    }
  }

  lemma EmitInOrder(p: Path, ls: seq<Text>, rs: seq<Text>, L: seq<Path>, M: seq<Path>, R: seq<Path>)
    requires M == (if p == [] then [] else [p]) && InOrder(L) && InOrder(R)
    requires forall q :: q in L ==> Under(p, true, ls, q)
    requires forall q :: q in R ==> Under(p, false, rs, q)
    ensures InOrder(L + M + R)
  {
    forall x: Path, y: Path | x in L && y in M ensures Before(x, y) {
      assert Under(p, true, ls, x);
      BeforeBelow(p, x, y);
    }
    InOrderConcat(L, M);
    forall x: Path, y: Path | x in L + M && y in R ensures Before(x, y) {
      assert Under(p, false, rs, y);
      if x in L {
        assert Under(p, true, ls, x);
      }
      BeforeBelow(p, x, y);
    }
    InOrderConcat(L + M, R);
  }

  lemma {:induction false} EmitAllCorrect(f: Forest, p: Path, left: bool, ids: seq<Text>)
    requires IsForest(f) && IsPath(f, p) && Ascending(ids)
    requires forall t :: t in ids ==> t in f && f[t].parent == End(p) && (f[t].side == 0) == left
    ensures InOrder(EmitAll(f, p, left, ids))
    ensures forall q :: q in EmitAll(f, p, left, ids) <==> IsPath(f, q) && Under(p, left, ids, q)
    decreases |f| - |p|, 0, |ids|
  {
    if ids != [] {
      PathShort(f, p);
      var s := Step(left, ids[0]);
      PathExtend(f, p, s);
      var A, B := Emit(f, p + [s]), EmitAll(f, p, left, ids[1..]);
      EmitCorrect(f, p + [s]);
      EmitAllCorrect(f, p, left, ids[1..]);
      forall x: Path, y: Path | x in A && y in B ensures Before(x, y) {
        FirstKidBefore(p, left, ids, x, y);
      }
      InOrderConcat(A, B);
      assert EmitAll(f, p, left, ids) == A + B;
      forall q: Path ensures q in A + B <==> IsPath(f, q) && Under(p, left, ids, q) {
        UnderCases(p, left, ids, q);
      }
    }
  }

  lemma UnderCases(p: Path, left: bool, ids: seq<Text>, q: Path)
    requires ids != []
    ensures Under(p, left, ids, q) <==>
            p + [Step(left, ids[0])] <= q || Under(p, left, ids[1..], q)
  {
    var s := Step(left, ids[0]);
    if p < q && q[|p|] == s {
      assert q[..|p| + 1] == p + [s];
    }
    if p + [s] <= q {
      assert q[|p|] == (p + [s])[|p|] == s;
      assert q[..|p|] == (p + [s])[..|p|] == p;
    }
  }

  lemma FirstKidBefore(p: Path, left: bool, ids: seq<Text>, x: Path, y: Path)
    requires ids != [] && Ascending(ids)
    requires p + [Step(left, ids[0])] <= x && Under(p, left, ids[1..], y)
    ensures Before(x, y)
  {
    UnderCases(p, left, ids, x);
    assert x[|p|] == (p + [Step(left, ids[0])])[|p|];
    var k :| 0 <= k < |ids[1..]| && ids[1..][k] == y[|p|].id;
    assert Less(ids[0], ids[k + 1]);
    LessIrreflexive(ids[0]);
    BeforeBelow(p, x, y);
  }

  /** The total order of the list, tombstones included. */
  ghost function Paths(f: Forest): seq<Path>
    requires IsForest(f)
  {
    Emit(f, [])
  }

  lemma IdsFirst(p: Path, ps: seq<Path>)
    ensures Ids([p] + ps) == [End(p)] + Ids(ps)
  {
  }

  lemma PathsCorrect(f: Forest)
    requires IsForest(f)
    ensures InOrder(Paths(f))
    ensures forall q :: q in Paths(f) <==> IsPath(f, q) && q != []
  {
    hide Emit;
    assert IsPath(f, []);
    EmitCorrect(f, []);
  }

  ghost function Ids(ps: seq<Path>): seq<Text>
  {
    seq(|ps|, i requires 0 <= i < |ps| => End(ps[i]))
  }

  ghost function Order(f: Forest): seq<Text>
    requires IsForest(f)
  {
    Ids(Paths(f))
  }

  // ---------------------------------------------------------------------------
  // The explicit stack
  // ---------------------------------------------------------------------------

  datatype Frame = Frame(id: Text, stage: int)

  /** A frame with the path its node is reached by and what it still has to output. */
  datatype Visit = Visit(path: Path, stage: int, out: seq<Path>)

  ghost function PendingAll(vs: seq<Visit>): seq<Path>
  {
    if vs == [] then [] else vs[|vs| - 1].out + PendingAll(vs[..|vs| - 1])
  }

  /** Pops left: three for a node not started, two or one for a node part done. */
  ghost function Cost(vs: seq<Visit>): int
  {
    if vs == [] then 0 else
      var v := vs[|vs| - 1];
      3 * |v.out| + (if v.stage == 1 then -1 else if v.stage == 2 then 1 else 0) + Cost(vs[..|vs| - 1])
  }

  lemma PushOne(vs: seq<Visit>, v: Visit)
    ensures PendingAll(vs + [v]) == v.out + PendingAll(vs)
    ensures Cost(vs + [v]) == 3 * |v.out| + (if v.stage == 1 then -1 else if v.stage == 2 then 1 else 0) + Cost(vs)
  {
    var all := vs + [v];
    assert all[|all| - 1] == v && all[..|all| - 1] == vs;
  }

  ghost function RightSide(f: Forest, p: Path): seq<Path>
    requires IsForest(f) && IsPath(f, p)
  {
    EmitAll(f, p, false, Kids(f, End(p), false))
  }

  ghost predicate IsVisit(f: Forest, v: Visit)
    requires IsForest(f)
  {
    && v.path != [] && IsPath(f, v.path)
    && ((v.stage == 0 && v.out == Emit(f, v.path))
        || (v.stage == 1 && v.out == [v.path] + RightSide(f, v.path))
        || (v.stage == 2 && v.out == RightSide(f, v.path)))
  }

  function Pushed(ids: seq<Text>): seq<Frame>
  {
    if ids == [] then [] else Pushed(ids[1..]) + [Frame(ids[0], 0)]
  }

  ghost predicate Mirrors(stack: seq<Frame>, vs: seq<Visit>)
  {
    |stack| == |vs| &&
    forall i :: 0 <= i < |vs| ==> stack[i] == Frame(End(vs[i].path), vs[i].stage)
  }

  lemma NoneEmitted(f: Forest, p: Path, left: bool)
    requires IsForest(f) && IsPath(f, p)
    ensures EmitAll(f, p, left, []) == []
  {
  }

  lemma NoneMirrored()
    ensures Mirrors(Pushed([]), [])
  {
  }

  lemma MirrorsMore(ids: seq<Text>, vs: seq<Visit>, v: Visit)
    requires ids != [] && Mirrors(Pushed(ids[1..]), vs) && v.stage == 0 && End(v.path) == ids[0]
    ensures Mirrors(Pushed(ids), vs + [v])
  {
  }

  lemma FirstVisit(f: Forest, p: Path, left: bool, ids: seq<Text>) returns (v: Visit)
    requires IsForest(f) && IsPath(f, p) && ids != []
    requires forall t :: t in ids ==> t in f && f[t].parent == End(p) && (f[t].side == 0) == left
    ensures IsVisit(f, v) && v.stage == 0 && End(v.path) == ids[0]
    ensures EmitAll(f, p, left, ids) == v.out + EmitAll(f, p, left, ids[1..])
  {
    hide Emit, Kids;
    var q := p + [Step(left, ids[0])];
    PathExtend(f, p, Step(left, ids[0]));
    v := Visit(q, 0, Emit(f, q));
  }

  /** The visits `push_side` puts on top of `under`. */
  lemma {:induction false} PushVisits(f: Forest, under: seq<Visit>, p: Path, left: bool, ids: seq<Text>)
      returns (vs: seq<Visit>)
    requires IsForest(f) && IsPath(f, p)
    requires forall t :: t in ids ==> t in f && f[t].parent == End(p) && (f[t].side == 0) == left
    ensures Mirrors(Pushed(ids), vs) && forall v :: v in vs ==> IsVisit(f, v)
    ensures PendingAll(under + vs) == EmitAll(f, p, left, ids) + PendingAll(under)
    ensures Cost(under + vs) == 3 * |EmitAll(f, p, left, ids)| + Cost(under)
  {
    hide Emit, EmitAll, Kids, PendingAll, Cost, IsPath, IsVisit, Mirrors, Pushed;
    if ids == [] {
      NoneMirrored();
      NoneEmitted(f, p, left);
      vs := [];
      assert under + vs == under;
    } else {
      var rest := PushVisits(f, under, p, left, ids[1..]);
      var v := FirstVisit(f, p, left, ids);
      PushOne(under + rest, v);
      MirrorsMore(ids, rest, v);
      vs := rest + [v];
      assert under + vs == under + rest + [v];
    }
  }

  /** Popping the top frame and pushing what `seq_order` pushes for it. */
  lemma PopVisit(f: Forest, under: seq<Visit>, v: Visit) returns (vs: seq<Visit>)
    requires IsForest(f) && IsVisit(f, v)
    ensures forall w :: w in vs ==> IsVisit(f, w)
    ensures Cost(under + vs) < Cost(under + [v])
    ensures PendingAll(under + [v]) == (if v.stage == 1 then [v.path] else []) + PendingAll(under + vs)
    ensures Mirrors(if v.stage == 0 then [Frame(End(v.path), 1)] + Pushed(Kids(f, End(v.path), true))
                    else if v.stage == 1 then [Frame(End(v.path), 2)]
                    else Pushed(Kids(f, End(v.path), false)), vs)
  {
    hide EmitAll, PendingAll, Cost, Kids, Pushed, IsPath;
    PushOne(under, v);
    if v.stage == 0 {
      var next := Visit(v.path, 1, [v.path] + RightSide(f, v.path));
      PushOne(under, next);
      var kids := PushVisits(f, under + [next], v.path, true, Kids(f, End(v.path), true));
      vs := [next] + kids;
      assert under + vs == under + [next] + kids;
    } else if v.stage == 1 {
      vs := [Visit(v.path, 2, RightSide(f, v.path))];
      PushOne(under, vs[0]);
    } else {
      vs := PushVisits(f, under, v.path, false, Kids(f, End(v.path), false));
    }
  }

  method PushSide(stack: seq<Frame>, ids: seq<Text>) returns (r: seq<Frame>)
    ensures r == stack + Pushed(ids)
  {
    r := stack;
    var k := |ids|;
    while k > 0
      invariant 0 <= k <= |ids|
      invariant r == stack + Pushed(ids[k..])
    {
      assert ids[k - 1..][1..] == ids[k..];
      r := r + [Frame(ids[k - 1], 0)];
      k := k - 1;
    }
    assert ids[0..] == ids;
  }

  lemma {:induction false} CostNatural(f: Forest, vs: seq<Visit>)
    requires IsForest(f) && forall v :: v in vs ==> IsVisit(f, v)
    ensures Cost(vs) >= 0
  {
    if vs != [] {
      assert vs[|vs| - 1] in vs;
      CostNatural(f, vs[..|vs| - 1]);
    }
  }

  /** The loop's meaning: what was output, then what the stack still owes, is the order. */
  ghost predicate Owes(f: Forest, out: seq<Text>, stack: seq<Frame>, vs: seq<Visit>)
    requires IsForest(f)
  {
    && Mirrors(stack, vs)
    && (forall v :: v in vs ==> IsVisit(f, v))
    && out + Ids(PendingAll(vs)) == Order(f)
  }

  lemma OwesStart(f: Forest) returns (vs: seq<Visit>)
    requires IsForest(f)
    ensures Owes(f, [], Pushed(Kids(f, [], false)) + Pushed(Kids(f, [], true)), vs)
  {
    hide EmitAll, Kids, Pushed;
    var r := PushVisits(f, [], [], false, Kids(f, [], false));
    assert [] + r == r;
    var l := PushVisits(f, r, [], true, Kids(f, [], true));
    vs := r + l;
    MirrorsConcat(Pushed(Kids(f, [], false)), Pushed(Kids(f, [], true)), r, l);
    assert PendingAll(vs) == Paths(f);
  }

  lemma MirrorsConcat(s: seq<Frame>, t: seq<Frame>, vs: seq<Visit>, ws: seq<Visit>)
    requires Mirrors(s, vs) && Mirrors(t, ws)
    ensures Mirrors(s + t, vs + ws)
  {
  }

  /** What `seq_order` pushes back for the frame it popped. */
  function Replacement(f: Forest, fr: Frame): seq<Frame>
    requires IsForest(f)
  {
    if fr.stage == 0 then [Frame(fr.id, 1)] + Pushed(Kids(f, fr.id, true))
    else if fr.stage == 1 then [Frame(fr.id, 2)]
    else Pushed(Kids(f, fr.id, false))
  }

  lemma OwesStep(f: Forest, out: seq<Text>, stack: seq<Frame>, vs: seq<Visit>) returns (ws: seq<Visit>)
    requires IsForest(f) && stack != [] && Owes(f, out, stack, vs)
    ensures var fr := stack[|stack| - 1];
      Owes(f, if fr.stage == 1 then out + [fr.id] else out, stack[..|stack| - 1] + Replacement(f, fr), ws)
    ensures 0 <= Cost(ws) < Cost(vs)
  {
    hide Paths, Kids, Pushed, IsVisit, Cost, PendingAll, Ids;
    var v := vs[|vs| - 1];
    var under := vs[..|vs| - 1];
    assert vs == under + [v] && IsVisit(f, v);
    var next := PopVisit(f, under, v);
    ws := under + next;
    MirrorsConcat(stack[..|stack| - 1], Replacement(f, stack[|stack| - 1]), under, next);
    CostNatural(f, ws);
    var owed := PendingAll(ws);
    IdsFirst(v.path, owed);
    if v.stage == 1 {
      assert out + ([End(v.path)] + Ids(owed)) == out + [End(v.path)] + Ids(owed);
    } else {
      assert [] + owed == owed;
    }
  }

  /** `seq_order`: the explicit stack of staged frames yields the recursive traversal. */
  method SeqOrder(f: Forest) returns (out: seq<Text>)
    requires IsForest(f)
    ensures out == Order(f)
  {
    hide Owes, Order, Kids, Pushed, Cost;
    out := [];
    var stack: seq<Frame> := PushSide([], Kids(f, [], false));
    stack := PushSide(stack, Kids(f, [], true));
    ghost var vs := OwesStart(f);
    assert stack == Pushed(Kids(f, [], false)) + Pushed(Kids(f, [], true));
    while stack != []
      invariant Owes(f, out, stack, vs)
      decreases Cost(vs)
    {
      vs := OwesStep(f, out, stack, vs);
      var fr := stack[|stack| - 1];
      stack := stack[..|stack| - 1];
      ghost var rest := stack;
      if fr.stage == 0 {
        stack := PushSide(stack + [Frame(fr.id, 1)], Kids(f, fr.id, true));
      } else if fr.stage == 1 {
        out := out + [fr.id];
        stack := stack + [Frame(fr.id, 2)];
      } else {
        stack := PushSide(stack, Kids(f, fr.id, false));
      }
      assert stack == rest + Replacement(f, fr);
    }
    OwesNothing(f, out, vs);
  }

  lemma OwesNothing(f: Forest, out: seq<Text>, vs: seq<Visit>)
    requires IsForest(f) && Owes(f, out, [], vs)
    ensures out == Order(f)
  {
  }

  /** How kin stand in the list: a left child before its parent and a right child after it, left
      children before right ones, and children of one side by id. */
  lemma KinOrder(f: Forest, i: nat, j: nat)
    requires IsForest(f) && i < |Order(f)| && j < |Order(f)|
    ensures var x, y := Order(f)[i], Order(f)[j];
      && x in f && y in f
      && (f[x].parent == y && f[x].side == 0 ==> i < j)
      && (f[x].parent == y && f[x].side != 0 ==> j < i)
      && (f[x].parent == f[y].parent && f[x].side == 0 && f[y].side != 0 ==> i < j)
      && (f[x].parent == f[y].parent && (f[x].side == 0 <==> f[y].side == 0) && Less(x, y) ==> i < j)
  {
    hide Emit, Less;
    PathsCorrect(f);
    var p, q := Paths(f)[i], Paths(f)[j];
    assert p in Paths(f) && q in Paths(f);
    PathLast(f, p);
    PathLast(f, q);
    var x, y := Order(f)[i], Order(f)[j];
    var a, b := Step(f[x].side == 0, x), Step(f[y].side == 0, y);
    BeforeIrreflexive(p);
    if Before(p, q) && j < i { BeforeAsymmetric(p, q); }
    if Before(q, p) && i < j { BeforeAsymmetric(q, p); }
    if f[x].parent == y {
      PathUnique(f, p[..|p| - 1], q);
      BeforeUnder(q, [a], []);
      BeforeUnder(q, [], [a]);
      assert q + [] == q;
    }
    if f[x].parent == f[y].parent {
      PathUnique(f, p[..|p| - 1], q[..|q| - 1]);
      BeforeUnder(p[..|p| - 1], [a], [b]);
      LessIrreflexive(x);
    }
  }

  // ---------------------------------------------------------------------------
  // Inserting a leaf
  // ---------------------------------------------------------------------------

  /** An id nothing in the forest is, or hangs from. */
  ghost predicate Fresh(f: Forest, x: Text)
    requires IsForest(f)
  {
    x != [] && x !in f && forall t :: t in f ==> f[t].parent != x
  }

  ghost predicate Extends(f: Forest, g: Forest)
  {
    forall t :: t in f ==> t in g && f[t] == g[t]
  }

  lemma PathKept(f: Forest, g: Forest, p: Path)
    requires IsForest(f) && IsForest(g) && Extends(f, g) && IsPath(f, p)
    ensures IsPath(g, p)
  {
    forall i | 0 <= i < |p| ensures StepAt(g, p, i) {
      assert StepAt(f, p, i);
    }
  }

  lemma {:induction false} PathAfterLeaf(f: Forest, x: Text, c: Cell, pp: Path, q: Path)
    requires IsForest(f) && Fresh(f, x) && c.Cell? && IsPath(f, pp) && c.parent == End(pp)
    ensures IsPath(f[x := c], q) <==> IsPath(f, q) || q == pp + [Step(c.side == 0, x)]
    decreases |q|
  {
    var g := f[x := c];
    PathKept(f, g, pp);
    PathExtend(g, pp, Step(c.side == 0, x));
    if IsPath(f, q) { PathKept(f, g, q); }
    if IsPath(g, q) && q != [] {
      var p := q[..|q| - 1];
      PathLast(g, q);
      PathAfterLeaf(f, x, c, pp, p);
      if End(q) == x {
        if pp != [] { assert StepAt(f, pp, |pp| - 1); }
        PathUnique(g, p, pp);
      } else {
        assert IsPath(f, p);
        PathExtend(f, p, q[|q| - 1]);
      }
    }
  }

  /** Where a path falls in an ordered list it is not in. */
  lemma {:induction false} Position(ps: seq<Path>, px: Path) returns (k: nat)
    requires InOrder(ps) && px !in ps
    ensures k <= |ps|
    ensures forall i :: 0 <= i < k ==> Before(ps[i], px)
    ensures forall i :: k <= i < |ps| ==> Before(px, ps[i])
  {
    if ps == [] || Before(px, ps[0]) {
      k := 0;
      forall i | 0 <= i < |ps| ensures Before(px, ps[i]) {
        if i > 0 { BeforeTransitive(px, ps[0], ps[i]); }
      }
    } else {
      BeforeTotal(px, ps[0]);
      assert ps[0] in ps;
      var j := Position(ps[1..], px);
      k := j + 1;
      forall i | k <= i < |ps| ensures Before(px, ps[i]) {
        assert ps[i] == ps[1..][i - 1];
      }
      forall i | 0 <= i < k ensures Before(ps[i], px) {
        if i > 0 { assert ps[i] == ps[1..][i - 1]; }
      }
    }
  }

  /** A new leaf enters the order at its place and moves nothing else. */
  lemma LeafEnters(f: Forest, x: Text, c: Cell, pp: Path) returns (k: nat)
    requires IsForest(f) && Fresh(f, x) && c.Cell? && IsPath(f, pp) && c.parent == End(pp)
    ensures k <= |Paths(f)|
    ensures Paths(f[x := c]) == Paths(f)[..k] + [pp + [Step(c.side == 0, x)]] + Paths(f)[k..]
    ensures Order(f[x := c]) == Order(f)[..k] + [x] + Order(f)[k..]
    ensures forall i :: 0 <= i < k ==> Before(Paths(f)[i], pp + [Step(c.side == 0, x)])
    ensures forall i :: k <= i < |Paths(f)| ==> Before(pp + [Step(c.side == 0, x)], Paths(f)[i])
  {
    hide Emit, EmitAll, Kids, Before, Paths;
    var g := f[x := c];
    var px := pp + [Step(c.side == 0, x)];
    var ps := Paths(f);
    PathsCorrect(f);
    PathsCorrect(g);
    PathExtend(f, pp, Step(c.side == 0, x));
    k := Position(ps, px);
    var qs := ps[..k] + [px] + ps[k..];
    InOrderInsert(ps, k, px);
    InOrderMembers(f, x, c, pp, ps, k, qs);
    InOrderUnique(qs, Paths(g));
    assert Ids(qs) == Ids(ps)[..k] + [x] + Ids(ps)[k..];
  }

  lemma InOrderMembers(f: Forest, x: Text, c: Cell, pp: Path, ps: seq<Path>, k: nat, qs: seq<Path>)
    requires IsForest(f) && Fresh(f, x) && c.Cell? && IsPath(f, pp) && c.parent == End(pp)
    requires ps == Paths(f) && k <= |ps| && qs == ps[..k] + [pp + [Step(c.side == 0, x)]] + ps[k..]
    ensures forall q :: q in qs <==> q in Paths(f[x := c])
  {
    hide Emit, EmitAll, Kids, Before, Paths, IsPath;
    PathsCorrect(f);
    PathsCorrect(f[x := c]);
    forall q: Path ensures q in qs <==> q in Paths(f[x := c]) {
      PathAfterLeaf(f, x, c, pp, q);
      assert ps == ps[..k] + ps[k..];
      assert q in ps <==> q in ps[..k] || q in ps[k..];
    }
  }

  lemma InOrderInsert(ps: seq<Path>, k: nat, px: Path)
    requires InOrder(ps) && k <= |ps|
    requires forall i :: 0 <= i < k ==> Before(ps[i], px)
    requires forall i :: k <= i < |ps| ==> Before(px, ps[i])
    ensures InOrder(ps[..k] + [px] + ps[k..])
  {
    forall x: Path, y: Path | x in ps[..k] && y in [px] ensures Before(x, y) {}
    InOrderConcat(ps[..k], [px]);
    forall x: Path, y: Path | x in ps[..k] + [px] && y in ps[k..] ensures Before(x, y) {
      if x in ps[..k] {
        var i :| 0 <= i < k && ps[i] == x;
        var j :| k <= j < |ps| && ps[j] == y;
      }
    }
    InOrderConcat(ps[..k] + [px], ps[k..]);
  }
}
