/** Editing a sequence through visible indexes: `seq_insert`, `seq_erase`, `seq_read`. */
module Sequence {
  import opened Bytes
  import opened OrSets
  import opened Fugue

  // ---------------------------------------------------------------------------
  // The insertion rule
  // ---------------------------------------------------------------------------

  /** `has_right_child`: asks for side 1 exactly. */
  predicate HasRightChild(f: Forest, all: seq<Text>, id: Text)
    requires IsForest(f)
  {
    exists i :: 0 <= i < |all| && all[i] in f && f[all[i]].parent == id && f[all[i]].side == 1
  }

  /** Where `seq_insert` hangs a new node that is to follow the first `k` of `all`. */
  function Spot(f: Forest, all: seq<Text>, k: nat, payload: Text): (c: Cell)
    requires IsForest(f) && k <= |all|
    ensures c.Cell?
  {
    if k > 0 && !HasRightChild(f, all, all[k - 1]) then Cell(all[k - 1], 1, payload)
    else if k < |all| then Cell(all[k], 0, payload)
    else if k > 0 then Cell(all[k - 1], 1, payload)
    else Cell([], 1, payload)
  }

  /** A right child whose side is spelled neither 0 nor 1: traversed as a right child,
      overlooked by `has_right_child`. `seq_insert` writes only 0 and 1. */
  ghost predicate OddBelow(f: Forest, p: Path, x: Text, q: Path)
    requires IsForest(f)
  {
    p < q && q[|p|].id in f && f[q[|p|].id].side != 0 && f[q[|p|].id].side != 1 && Less(q[|p|].id, x)
  }

  lemma OrderAt(f: Forest, i: nat)
    requires IsForest(f) && i < |Order(f)|
    ensures |Paths(f)| == |Order(f)| && Order(f)[i] == End(Paths(f)[i])
    ensures IsPath(f, Paths(f)[i]) && Paths(f)[i] != [] && Order(f)[i] in f
  {
    hide Emit;
    PathsCorrect(f);
    assert Paths(f)[i] in Paths(f);
    PathLast(f, Paths(f)[i]);
  }

  lemma OrderInForest(f: Forest)
    requires IsForest(f)
    ensures |Paths(f)| == |Order(f)| && forall t :: t in Order(f) ==> t in f
  {
    hide Emit, Paths;
    forall t | t in Order(f) ensures t in f {
      var i :| 0 <= i < |Order(f)| && Order(f)[i] == t;
      OrderAt(f, i);
    }
  }

  /** What lies between a path and its new right leaf hangs from earlier right children. */
  lemma {:induction false} Between(p: Path, x: Text, q: Path)
    requires Before(p, q) && Before(q, p + [Step(false, x)])
    requires !(p + [Step(false, x)] <= q)
    ensures p < q && !q[|p|].left && Less(q[|p|].id, x)
  {
    var px := p + [Step(false, x)];
    if p != [] {
      assert px[1..] == p[1..] + [Step(false, x)];
      if q != [] && p[0] == q[0] {
        PrefixHead(px, q);
        Between(p[1..], x, q[1..]);
        PrefixHead(p, q);
      } else if q != [] {
        if Less(p[0].id, q[0].id) {
          LessAsymmetric(p[0].id, q[0].id);
        }
        assert false;
      }
    } else {
      assert q[..1] == [q[0]];
    }
  }

  /** A right child of a listed node is listed, so `has_right_child` sees it. */
  lemma ChildListed(f: Forest, k: nat, q: Path)
    requires IsForest(f) && 0 < k <= |Order(f)| == |Paths(f)|
    requires IsPath(f, q) && Paths(f)[k - 1] < q
    requires q[|Paths(f)[k - 1]|].id in f && f[q[|Paths(f)[k - 1]|].id].side == 1
    ensures HasRightChild(f, Order(f), Order(f)[k - 1])
  {
    hide Emit, Paths, Before;
    var p := Paths(f)[k - 1];
    var n := |p| + 1;
    OrderAt(f, k - 1);
    PathPrefix(f, q, n);
    PathsCorrect(f);
    assert q[..n] in Paths(f);
    var i :| 0 <= i < |Paths(f)| && Paths(f)[i] == q[..n];
    OrderAt(f, i);
    PathLast(f, q[..n]);
    assert q[..n][..n - 1] == p;
    assert f[Order(f)[i]].parent == Order(f)[k - 1];
  }

  lemma RightOf(l: Path, r: Path)
    requires l < r
    ensures Before(l, r) <==> !r[|l|].left
  {
    assert l + [] == l && r == l + r[|l|..];
    BeforeUnder(l, [], r[|l|..]);
  }

  /** Indexes of an ordered list go the way of the comparison. */
  lemma IndexBefore(ps: seq<Path>, i: nat, j: nat)
    requires InOrder(ps) && i < |ps| && j < |ps| && Before(ps[i], ps[j])
    ensures i < j
  {
    if j <= i { BeforeAsymmetric(ps[i], ps[j]); }
  }

  /** With a right child in the list, the next node in order is below the left one. */
  lemma NextIsBelow(f: Forest, k: nat)
    requires IsForest(f) && 0 < k <= |Order(f)| == |Paths(f)|
    requires HasRightChild(f, Order(f), Order(f)[k - 1])
    ensures k < |Order(f)| && Paths(f)[k - 1] < Paths(f)[k] && !Paths(f)[k][|Paths(f)[k - 1]|].left
  {
    hide Emit, Paths, IsPath, Order, Before;
    var ps := Paths(f);
    var i :| 0 <= i < |Order(f)| && Order(f)[i] in f && f[Order(f)[i]].parent == Order(f)[k - 1] && f[Order(f)[i]].side == 1;
    PathsCorrect(f);
    var l, n := ps[k - 1], ps[i];
    ChildPath(f, k - 1, i);
    RightOf(l, n);
    IndexBefore(ps, k - 1, i);
    if k < i {
      var r := ps[k];
      if n <= r {
        assert r[..|n|] == n && l == n[..|l|] == r[..|l|];
        assert r[|l|] == n[|l|];
      } else {
        Between(l, Order(f)[i], r);
      }
    }
  }

  lemma ChildPath(f: Forest, k: nat, i: nat)
    requires IsForest(f) && k < |Order(f)| == |Paths(f)| && i < |Order(f)|
    requires Order(f)[i] in f && f[Order(f)[i]].parent == Order(f)[k] && f[Order(f)[i]].side == 1
    ensures Paths(f)[i] == Paths(f)[k] + [Step(false, Order(f)[i])]
  {
    hide Emit, Paths, Before, Order;
    var l, n := Paths(f)[k], Paths(f)[i];
    OrderAt(f, i);
    OrderAt(f, k);
    PathLast(f, n);
    PathUnique(f, n[..|n| - 1], l);
  }

  /** `seq_insert` puts a fresh node at index `k` of the order, or further on past
      children of the left neighbour whose side is spelled neither 0 nor 1. */
  lemma InsertPlaces(f: Forest, x: Text, payload: Text, k: nat) returns (j: nat)
    requires IsForest(f) && Fresh(f, x) && k <= |Order(f)| == |Paths(f)|
    ensures k <= j <= |Order(f)|
    ensures Order(f[x := Spot(f, Order(f), k, payload)]) == Order(f)[..j] + [x] + Order(f)[j..]
    ensures k < j ==> k > 0 && !HasRightChild(f, Order(f), Order(f)[k - 1])
    ensures k > 0 && !HasRightChild(f, Order(f), Order(f)[k - 1]) ==>
      forall i :: 0 <= i < |Order(f)| ==> (OddBelow(f, Paths(f)[k - 1], x, Paths(f)[i]) <==> k <= i < j)
  {
    hide Emit, Paths, Before, OddBelow, HasRightChild, IsPath;
    if k > 0 && !HasRightChild(f, Order(f), Order(f)[k - 1]) {
      j := InsertRight(f, x, payload, k);
    } else {
      j := InsertLeft(f, x, payload, k);
    }
  }

  lemma InsertRight(f: Forest, x: Text, payload: Text, k: nat) returns (j: nat)
    requires IsForest(f) && Fresh(f, x) && 0 < k <= |Order(f)| == |Paths(f)|
    requires !HasRightChild(f, Order(f), Order(f)[k - 1])
    ensures k <= j <= |Order(f)|
    ensures Order(f[x := Cell(Order(f)[k - 1], 1, payload)]) == Order(f)[..j] + [x] + Order(f)[j..]
    ensures forall i :: 0 <= i < |Order(f)| ==>
      (OddBelow(f, Paths(f)[k - 1], x, Paths(f)[i]) <==> k <= i < j)
  {
    hide Emit, Paths, HasRightChild, Order, Before, IsPath;
    var ps := Paths(f);
    var l := ps[k - 1];
    var px := l + [Step(false, x)];
    OrderAt(f, k - 1);
    PathsCorrect(f);
    j := LeafEnters(f, x, Cell(Order(f)[k - 1], 1, payload), l);
    RightOf(l, px);
    if j < k { BeforeAsymmetric(px, l); }
    forall i | 0 <= i < |Order(f)| ensures OddBelow(f, l, x, ps[i]) <==> k <= i < j {
      OrderAt(f, i);
      OddIsBetween(f, x, k, ps[i]);
      if OddBelow(f, l, x, ps[i]) {
        IndexBefore(ps, k - 1, i);
        if j <= i { BeforeAsymmetric(ps[i], px); }
      }
    }
  }

  lemma OddIsBetween(f: Forest, x: Text, k: nat, q: Path)
    requires IsForest(f) && x !in f && 0 < k <= |Order(f)| == |Paths(f)| && IsPath(f, q)
    requires !HasRightChild(f, Order(f), Order(f)[k - 1])
    ensures var l := Paths(f)[k - 1];
      OddBelow(f, l, x, q) <==> Before(l, q) && Before(q, l + [Step(false, x)])
  {
    hide Emit, Paths, HasRightChild, Order;
    var l := Paths(f)[k - 1];
    var px := l + [Step(false, x)];
    if |q| > |l| {
      assert StepAt(f, q, |l|);
      assert q[|l|] != px[|l|];
    }
    if Before(l, q) && Before(q, px) {
      Between(l, x, q);
      assert StepAt(f, q, |l|);
      if f[q[|l|].id].side == 1 { ChildListed(f, k, q); }
    }
    if OddBelow(f, l, x, q) {
      assert StepAt(f, q, |l|);
      RightOf(l, q);
      LessIrreflexive(x);
      assert q[|l|..][0] == q[|l|] && px[|l|..] == [Step(false, x)];
      BeforeBelow(l, q, px);
    }
  }

  lemma InsertLeft(f: Forest, x: Text, payload: Text, k: nat) returns (j: nat)
    requires IsForest(f) && Fresh(f, x) && k <= |Order(f)| == |Paths(f)|
    requires k == 0 || HasRightChild(f, Order(f), Order(f)[k - 1])
    ensures j == k
    ensures Order(f[x := Spot(f, Order(f), k, payload)]) == Order(f)[..j] + [x] + Order(f)[j..]
  {
    hide Emit, Paths, HasRightChild, Order, IsPath;
    var ps := Paths(f);
    if k > 0 { NextIsBelow(f, k); }
    if k < |ps| {
      var r := ps[k];
      var px := r + [Step(true, x)];
      OrderAt(f, k);
      PathsCorrect(f);
      j := LeafEnters(f, x, Cell(Order(f)[k], 0, payload), r);
      RightOf(r, px);
      BeforeTotal(r, px);
      if k < j { BeforeAsymmetric(r, px); }
      if k > 0 {
        var l := ps[k - 1];
        assert l < px && px[|l|] == r[|l|];
        RightOf(l, px);
        if j < k { BeforeAsymmetric(px, l); }
      }
    } else {
      EmptyPath(f);
      j := LeafEnters(f, x, Cell([], 1, payload), []);
    }
  }

  lemma EmptyPath(f: Forest)
    requires IsForest(f)
    ensures IsPath(f, [])
  {
  }

  // ---------------------------------------------------------------------------
  // The visible list
  // ---------------------------------------------------------------------------

  /** The order with the given ids left out: what `seq_read` shows of it. */
  function Drop(all: seq<Text>, gone: set<Text>): (r: seq<Text>)
    ensures forall t :: t in r <==> t in all && t !in gone
  {
    if all == [] then []
    else (if all[0] in gone then [] else [all[0]]) + Drop(all[1..], gone)
  }

  lemma {:induction false} DropConcat(a: seq<Text>, b: seq<Text>, gone: set<Text>)
    ensures Drop(a + b, gone) == Drop(a, gone) + Drop(b, gone)
  {
    if a == [] {
      assert a + b == b;
    } else {
      assert (a + b)[1..] == a[1..] + b;
      DropConcat(a[1..], b, gone);
    }
  }

  /** How much of the order `seq_insert` passes before visible index `index`. */
  function Cut(all: seq<Text>, gone: set<Text>, index: nat): (k: nat)
    ensures k <= |all|
  {
    if index == 0 || all == [] then 0
    else 1 + Cut(all[1..], gone, if all[0] in gone then index else index - 1)
  }

  lemma {:induction false} CutCounts(all: seq<Text>, gone: set<Text>, index: nat)
    requires index <= |Drop(all, gone)|
    ensures |Drop(all[..Cut(all, gone, index)], gone)| == index
    ensures index > 0 ==>
      Cut(all, gone, index) > 0 && all[Cut(all, gone, index) - 1] == Drop(all, gone)[index - 1]
  {
    if index > 0 {
      var next := if all[0] in gone then index else index - 1;
      CutCounts(all[1..], gone, next);
      var k := Cut(all[1..], gone, next);
      assert all[..k + 1][1..] == all[1..][..k];
    }
  }

  lemma {:induction false} CutAt(all: seq<Text>, gone: set<Text>, i: nat)
    requires i < |all| && all[i] !in gone
    ensures Cut(all, gone, |Drop(all[..i], gone)| + 1) == i + 1
  {
    if i > 0 {
      assert all[..i][1..] == all[1..][..i - 1];
      CutAt(all[1..], gone, i - 1);
    }
  }

  /** A visible element lies below an odd-sided child of the left neighbour with a smaller
      id than the new one, and that neighbour has no child of side 1. */
  ghost predicate Disturbed(f: Forest, dead: set<Text>, k: nat, x: Text)
    requires IsForest(f) && k <= |Order(f)|
  {
    k > 0 && !HasRightChild(f, Order(f), Order(f)[k - 1]) &&
    exists i :: 0 <= i < |Order(f)| && Order(f)[i] !in dead
             && OddBelow(f, Paths(f)[k - 1], x, Paths(f)[i])
  }

  ghost predicate PlainSides(f: Forest)
    requires IsForest(f)
  {
    forall t :: t in f ==> f[t].side == 0 || f[t].side == 1
  }

  lemma PlainUndisturbed(f: Forest, dead: set<Text>, k: nat, x: Text)
    requires IsForest(f) && k <= |Order(f)| && PlainSides(f)
    ensures !Disturbed(f, dead, k, x)
  {
  }

  ghost function Inserted(f: Forest, dead: set<Text>, index: nat, x: Text, payload: Text): (g: Forest)
    requires IsForest(f) && x != []
    ensures IsForest(g)
  {
    f[x := Spot(f, Order(f), Cut(Order(f), dead, index), payload)]
  }

  /** Inserting a fresh id at a visible index reads as the old list with the new element
      there, exactly when no odd-sided child disturbs it. */
  lemma InsertReads(f: Forest, dead: set<Text>, index: nat, x: Text, payload: Text)
    requires IsForest(f) && Fresh(f, x) && x !in dead
    requires index <= |Drop(Order(f), dead)|
    ensures var shown := Drop(Order(f), dead);
      Drop(Order(Inserted(f, dead, index, x, payload)), dead) == shown[..index] + [x] + shown[index..]
      <==> !Disturbed(f, dead, Cut(Order(f), dead, index), x)
  {
    hide Emit, Paths, Before, OddBelow, HasRightChild, IsPath, Order, Drop, Cut, Disturbed, Spot;
    OrderInForest(f);
    var all := Order(f);
    var k := Cut(all, dead, index);
    var j := InsertPlaces(f, x, payload, k);
    CutCounts(all, dead, index);
    assert x !in all;
    var A, B, C := Drop(all[..k], dead), Drop(all[k..j], dead), Drop(all[j..], dead);
    SplitShown(all, dead, k, j);
    SplitInserted(all, dead, k, j, x);
    MiddleDisturbs(f, dead, x, k, j);
    InsertedInMiddle(A, B, C, x);
  }

  lemma InsertedInMiddle(A: seq<Text>, B: seq<Text>, C: seq<Text>, x: Text)
    requires x !in B
    ensures var shown := A + (B + C);
      A + B + [x] + C == shown[..|A|] + [x] + shown[|A|..] <==> B == []
  {
    var shown := A + (B + C);
    assert shown[..|A|] == A && shown[|A|..] == B + C;
    if B == [] {
      assert A + B == A && B + C == C;
    } else {
      assert (A + B + [x] + C)[|A|] == B[0];
      assert (A + [x] + (B + C))[|A|] == x;
    }
  }

  lemma MiddleDisturbs(f: Forest, dead: set<Text>, x: Text, k: nat, j: nat)
    requires IsForest(f) && k <= j <= |Order(f)|
    requires |Order(f)| == |Paths(f)|
    requires k < j ==> k > 0 && !HasRightChild(f, Order(f), Order(f)[k - 1])
    requires k > 0 && !HasRightChild(f, Order(f), Order(f)[k - 1]) ==>
      forall i :: 0 <= i < |Order(f)| ==> (OddBelow(f, Paths(f)[k - 1], x, Paths(f)[i]) <==> k <= i < j)
    ensures Drop(Order(f)[k..j], dead) != [] <==> Disturbed(f, dead, k, x)
  {
    hide Emit, Paths, OddBelow, HasRightChild, Order;
    var mid := Order(f)[k..j];
    if Disturbed(f, dead, k, x) {
      var i :| 0 <= i < |Order(f)| && Order(f)[i] !in dead && OddBelow(f, Paths(f)[k - 1], x, Paths(f)[i]);
      assert mid[i - k] == Order(f)[i];
      assert Order(f)[i] in Drop(mid, dead);
    }
    if Drop(mid, dead) != [] {
      assert Drop(mid, dead)[0] in mid;
      var i :| 0 <= i < j - k && mid[i] == Drop(mid, dead)[0];
      assert Order(f)[k + i] !in dead && OddBelow(f, Paths(f)[k - 1], x, Paths(f)[k + i]);
    }
  }

  lemma SplitShown(all: seq<Text>, dead: set<Text>, k: nat, j: nat)
    requires k <= j <= |all|
    ensures Drop(all, dead) == Drop(all[..k], dead) + (Drop(all[k..j], dead) + Drop(all[j..], dead))
  {
    hide Drop;
    assert all == all[..k] + (all[k..j] + all[j..]);
    DropConcat(all[..k], all[k..j] + all[j..], dead);
    DropConcat(all[k..j], all[j..], dead);
  }

  lemma SplitInserted(all: seq<Text>, dead: set<Text>, k: nat, j: nat, x: Text)
    requires k <= j <= |all| && x !in dead
    ensures Drop(all[..j] + [x] + all[j..], dead)
         == Drop(all[..k], dead) + Drop(all[k..j], dead) + [x] + Drop(all[j..], dead)
  {
    assert Drop([x], dead) == [x];
    hide Drop;
    assert all[..j] == all[..k] + all[k..j];
    DropConcat(all[..k], all[k..j], dead);
    DropConcat(all[..j], [x], dead);
    DropConcat(all[..j] + [x], all[j..], dead);
  }

  // ---------------------------------------------------------------------------
  // Erasing
  // ---------------------------------------------------------------------------

  lemma OrderDistinct(f: Forest, i: nat, j: nat)
    requires IsForest(f) && i < j < |Order(f)|
    ensures Order(f)[i] != Order(f)[j]
  {
    hide Emit, Paths;
    OrderAt(f, i);
    OrderAt(f, j);
    PathsCorrect(f);
    BeforeAsymmetric(Paths(f)[i], Paths(f)[j]);
    if Order(f)[i] == Order(f)[j] {
      PathUnique(f, Paths(f)[i], Paths(f)[j]);
    }
  }

  ghost predicate Distinct(all: seq<Text>)
  {
    forall i, j :: 0 <= i < j < |all| ==> all[i] != all[j]
  }

  /** Killing the one element `t` of a list removes it from what is left. */
  lemma DropAround(a: seq<Text>, t: Text, b: seq<Text>, gone: set<Text>)
    requires t !in a && t !in b && t !in gone
    ensures Drop(a + [t] + b, gone) == Drop(a, gone) + [t] + Drop(b, gone)
    ensures Drop(a + [t] + b, gone + {t}) == Drop(a, gone) + Drop(b, gone)
  {
    hide Drop;
    DropSingle(t, gone);
    DropSingle(t, gone + {t});
    DropConcat(a + [t], b, gone);
    DropConcat(a, [t], gone);
    DropConcat(a + [t], b, gone + {t});
    DropConcat(a, [t], gone + {t});
    DropElsewhere(a, gone, t);
    DropElsewhere(b, gone, t);
  }

  lemma SplitAt(all: seq<Text>, i: nat)
    requires Distinct(all) && i < |all|
    ensures all == all[..i] + [all[i]] + all[i + 1..] && all[..i + 1] == all[..i] + [all[i]]
    ensures all[i] !in all[..i] && all[i] !in all[i + 1..]
  {
  }

  lemma Without(p: seq<Text>, t: Text, q: seq<Text>)
    ensures (p + [t] + q)[..|p|] + (p + [t] + q)[|p| + 1..] == p + q
  {
  }

  lemma DropOne(all: seq<Text>, gone: set<Text>, index: nat)
    requires Distinct(all) && index < |Drop(all, gone)|
    ensures var shown := Drop(all, gone);
      Drop(all, gone + {shown[index]}) == shown[..index] + shown[index + 1..]
  {
    hide Drop, Cut, Distinct;
    CutCounts(all, gone, index + 1);
    var i := Cut(all, gone, index + 1) - 1;
    var t := Drop(all, gone)[index];
    SplitAt(all, i);
    var a, b := all[..i], all[i + 1..];
    assert t in Drop(all, gone);
    DropAround(a, t, b, gone);
    assert |Drop(a, gone)| == index by {
      DropConcat(a, [t], gone);
      DropSingle(t, gone);
    }
    Without(Drop(a, gone), t, Drop(b, gone));
  }

  lemma DropSingle(t: Text, gone: set<Text>)
    ensures Drop([t], gone) == if t in gone then [] else [t]
  {
  }

  lemma {:induction false} DropElsewhere(all: seq<Text>, gone: set<Text>, t: Text)
    requires t !in all
    ensures Drop(all, gone + {t}) == Drop(all, gone)
  {
    if all != [] { DropElsewhere(all[1..], gone, t); }
  }

  /** Marking the element at a visible index dead removes exactly that element. */
  lemma EraseReads(f: Forest, dead: set<Text>, index: nat)
    requires IsForest(f) && index < |Drop(Order(f), dead)|
    ensures var shown := Drop(Order(f), dead);
      Drop(Order(f), dead + {shown[index]}) == shown[..index] + shown[index + 1..]
  {
    hide Order, Drop;
    assert Distinct(Order(f)) by {
      forall i, j | 0 <= i < j < |Order(f)| ensures Order(f)[i] != Order(f)[j] {
        OrderDistinct(f, i, j);
      }
    }
    DropOne(Order(f), dead, index);
  }

  // ---------------------------------------------------------------------------
  // The stored field
  // ---------------------------------------------------------------------------

  /** The value every tombstone carries, the text `1`. */
  const ONE: Text := [0x31]

  /** The `nodes` set after inserting at a visible index. */
  ghost function InsertedNodes(nodes: OrSet<Cell>, dead: OrSet<Text>, index: nat, id: Text, payload: Text)
    : OrSet<Cell>
  {
    var f := Nodes(nodes);
    nodes.(adds := nodes.adds[id := Spot(f, Order(f), Cut(Order(f), LiveTags(dead), index), payload)])
  }

  function ErasedDead(dead: OrSet<Text>, id: Text): OrSet<Text>
  {
    dead.(adds := dead.adds[id := ONE])
  }

  /** A node the list knows: added, never retired, decodable, with a tag. */
  predicate Kept(nodes: OrSet<Cell>, t: Text)
  {
    t in nodes.adds && t !in nodes.removes && t != [] && nodes.adds[t].Cell?
  }

  /** A chain of such nodes, the first filed under the root and each other under the one before. */
  ghost predicate Rooted(nodes: OrSet<Cell>, chain: seq<Text>)
  {
    forall i :: 0 <= i < |chain| ==> FiledAt(nodes, chain, i)
  }

  predicate FiledAt(nodes: OrSet<Cell>, chain: seq<Text>, i: int)
    requires 0 <= i < |chain|
  {
    Kept(nodes, chain[i]) && nodes.adds[chain[i]].parent == if i == 0 then [] else chain[i - 1]
  }

  /** The list shows a node exactly when its ancestors are all known, up to the root, and it is
      not erased: orphans and cycles do not show. */
  lemma ShownIff(nodes: OrSet<Cell>, dead: OrSet<Text>, t: Text)
    ensures t in Drop(Order(Nodes(nodes)), LiveTags(dead)) <==>
      !(t in dead.adds && t !in dead.removes)
      && exists chain :: chain != [] && Rooted(nodes, chain) && chain[|chain| - 1] == t
  {
    hide Emit, Order, Paths;
    var f := Nodes(nodes);
    if t in Order(f) {
      var i :| 0 <= i < |Order(f)| && Order(f)[i] == t;
      OrderAt(f, i);
      var chain := IdsOf(nodes, Paths(f)[i]);
      assert chain != [] && Rooted(nodes, chain) && chain[|chain| - 1] == t;
    }
    if chain :| chain != [] && Rooted(nodes, chain) && chain[|chain| - 1] == t {
      var p := StepsOf(nodes, chain);
      PathsCorrect(f);
      PathIsListed(f, p);
    }
  }

  lemma PathIsListed(f: Forest, p: Path)
    requires IsForest(f) && p in Paths(f)
    ensures End(p) in Order(f)
  {
    hide Emit, Paths;
    var i :| 0 <= i < |Paths(f)| && Paths(f)[i] == p;
    assert Order(f)[i] == End(p);
  }

  lemma IdsOf(nodes: OrSet<Cell>, p: Path) returns (chain: seq<Text>)
    requires p != [] && IsPath(Nodes(nodes), p)
    ensures |chain| == |p| && Rooted(nodes, chain) && chain[|chain| - 1] == End(p)
  {
    chain := seq(|p|, i requires 0 <= i < |p| => p[i].id);
    forall i | 0 <= i < |chain| ensures FiledAt(nodes, chain, i) {
      assert StepAt(Nodes(nodes), p, i);
      assert i > 0 ==> chain[i - 1] == p[i - 1].id;
    }
  }

  lemma StepsOf(nodes: OrSet<Cell>, chain: seq<Text>) returns (p: Path)
    requires chain != [] && Rooted(nodes, chain)
    ensures |p| == |chain| && IsPath(Nodes(nodes), p) && End(p) == chain[|chain| - 1]
  {
    var f := Nodes(nodes);
    assert forall i :: 0 <= i < |chain| ==> chain[i] in f by {
      forall i | 0 <= i < |chain| ensures chain[i] in f {
        assert FiledAt(nodes, chain, i);
      }
    }
    p := seq(|chain|, i requires 0 <= i < |chain| => Step(f[chain[i]].side == 0, chain[i]));
    forall i | 0 <= i < |p| ensures StepAt(f, p, i) {
      assert FiledAt(nodes, chain, i);
      assert i > 0 ==> p[i - 1].id == chain[i - 1];
    }
  }

  /** What a list shows after `Insert` under a fresh id: the new element at the index asked
      for, and nothing else moved, exactly when no odd-sided child disturbs it. */
  lemma InsertShows(nodes: OrSet<Cell>, dead: OrSet<Text>, index: nat, id: Text, payload: Text)
    requires Fresh(Nodes(nodes), id) && id !in nodes.removes && id !in LiveTags(dead)
    requires index <= |Drop(Order(Nodes(nodes)), LiveTags(dead))|
    ensures var f, g := Nodes(nodes), Nodes(InsertedNodes(nodes, dead, index, id, payload));
      var shown := Drop(Order(f), LiveTags(dead));
      && id in g && g[id].payload == payload
      && (Drop(Order(g), LiveTags(dead)) == shown[..index] + [id] + shown[index..]
          <==> !Disturbed(f, LiveTags(dead), Cut(Order(f), LiveTags(dead), index), id))
  {
    hide Order, Disturbed, HasRightChild;
    var f := Nodes(nodes);
    assert Nodes(InsertedNodes(nodes, dead, index, id, payload))
        == Inserted(f, LiveTags(dead), index, id, payload);
    InsertReads(f, LiveTags(dead), index, id, payload);
  }

  /** What a list shows after `Erase`: all but that element, exactly when its tombstone was
      never retired. */
  lemma EraseShows(nodes: OrSet<Cell>, dead: OrSet<Text>, index: nat)
    requires index < |Drop(Order(Nodes(nodes)), LiveTags(dead))|
    ensures var all := Order(Nodes(nodes));
      var shown := Drop(all, LiveTags(dead));
      Drop(all, LiveTags(ErasedDead(dead, shown[index]))) == shown[..index] + shown[index + 1..]
      <==> shown[index] !in dead.removes
  {
    hide Order;
    var all := Order(Nodes(nodes));
    var shown := Drop(all, LiveTags(dead));
    EraseReads(Nodes(nodes), LiveTags(dead), index);
    assert LiveTags(ErasedDead(dead, shown[index]))
        == LiveTags(dead) + (if shown[index] in dead.removes then {} else {shown[index]});
    if shown[index] in dead.removes {
      assert LiveTags(ErasedDead(dead, shown[index])) == LiveTags(dead);
    }
  }

  /** The last element before a visible index, as a position or -1; nothing if there are
      fewer visible elements than that. */
  method Neighbour(all: seq<Text>, gone: set<Text>, index: nat) returns (left: int, found: bool)
    ensures found <==> index <= |Drop(all, gone)|
    ensures found ==> -1 <= left < |all| && left + 1 == Cut(all, gone, index)
  {
    hide Drop, Cut;
    var visible, i := 0, 0;
    left := -1;
    NoneYet(all, gone);
    while i < |all|
      invariant 0 <= i <= |all| && -1 <= left < |all|
      invariant visible == |Drop(all[..i], gone)| && visible <= index
      invariant visible <= |Drop(all, gone)|
      invariant left + 1 == Cut(all, gone, visible)
    {
      DropStep(all, gone, i);
      if all[i] !in gone {
        if visible == index { return left, true; }
        CutAt(all, gone, i);
        visible := visible + 1;
        left := i;
      }
      i := i + 1;
    }
    assert all[..|all|] == all;
    found := index <= visible;
  }

  lemma NoneYet(all: seq<Text>, gone: set<Text>)
    ensures Drop(all[..0], gone) == [] && Cut(all, gone, 0) == 0
  {
  }

  /** A sequence field: its `nodes` and `dead` sets, replaced in place by each edit. */
  class SeqField {
    var nodes: OrSet<Cell>
    var dead: OrSet<Text>

    ghost function Shown(): seq<Text>
      reads this
    {
      Drop(Order(Nodes(nodes)), LiveTags(dead))
    }

    /** `seq_init` on an absent or empty array. */
    constructor ()
      ensures nodes == OrSet(map[], {}) && dead == OrSet(map[], {})
    {
      nodes := OrSet(map[], {});
      dead := OrSet(map[], {});
    }

    /** `seq_insert`: false, changing nothing, exactly when the index is out of range. */
    method Insert(index: nat, payload: Text, id: Text) returns (ok: bool)
      modifies this
      ensures dead == old(dead)
      ensures ok <==> index <= |old(Shown())|
      ensures !ok ==> nodes == old(nodes)
      ensures ok ==> nodes == InsertedNodes(old(nodes), dead, index, id, payload)
    {
      hide Order, Drop, Cut;
      var f := Nodes(nodes);
      var all := SeqOrder(f);
      var left, found := Neighbour(all, LiveTags(dead), index);
      if !found { return false; }
      var parent, side := [], 1;
      var right := left + 1 < |all|;
      var hasRight := left >= 0 && HasRightChild(f, all, all[left]);
      if left >= 0 && !hasRight {
        parent, side := all[left], 1;
      } else if right {
        parent, side := all[left + 1], 0;
      } else if left >= 0 {
        parent, side := all[left], 1;
      }
      nodes := OrSet(nodes.adds[id := Cell(parent, side, payload)], nodes.removes);
      return true;
    }

    /** `seq_erase`: the node survives as a tombstone under its own id. */
    method Erase(index: nat) returns (ok: bool)
      modifies this
      ensures nodes == old(nodes)
      ensures ok <==> index < |old(Shown())|
      ensures !ok ==> dead == old(dead)
      ensures ok ==> dead == ErasedDead(old(dead), old(Shown())[index])
    {
      hide Order;
      var all := SeqOrder(Nodes(nodes));
      var gone := LiveTags(dead);
      var visible := 0;
      for i := 0 to |all|
        invariant nodes == old(nodes) && dead == old(dead)
        invariant visible == |Drop(all[..i], gone)| && visible <= index
      {
        DropStep(all, gone, i);
        if all[i] !in gone {
          if visible == index {
            dead := ErasedDead(dead, all[i]);
            return true;
          }
          visible := visible + 1;
        }
      }
      assert all[..|all|] == all;
      return false;
    }

    /** `seq_read`: the payloads of the visible elements, in order. */
    method Read() returns (out: seq<Text>)
      ensures |out| == |Shown()|
      ensures forall i :: 0 <= i < |out| ==>
        Shown()[i] in Nodes(nodes) && out[i] == Nodes(nodes)[Shown()[i]].payload
    {
      hide Order, Drop;
      var f := Nodes(nodes);
      OrderInForest(f);
      var all := SeqOrder(f);
      var gone := LiveTags(dead);
      out := [];
      ghost var ids: seq<Text> := [];
      NothingShown(all, gone);
      for i := 0 to |all|
        invariant ids == Drop(all[..i], gone) && |out| == |ids|
        invariant forall j :: 0 <= j < |out| ==> ids[j] in f && out[j] == f[ids[j]].payload
      {
        DropStep(all, gone, i);
        if all[i] !in gone {
          out := out + [f[all[i]].payload];
          ids := ids + [all[i]];
        }
      }
      assert all[..|all|] == all;
    }
  }

  lemma NothingShown(all: seq<Text>, gone: set<Text>)
    ensures Drop(all[..0], gone) == []
  {
  }

  lemma DropStep(all: seq<Text>, gone: set<Text>, i: nat)
    requires i < |all|
    ensures Drop(all[..i + 1], gone) == Drop(all[..i], gone) + (if all[i] in gone then [] else [all[i]])
    ensures Drop(all[..i + 1], gone) <= Drop(all, gone)
    ensures all[i] !in gone ==> Drop(all, gone)[|Drop(all[..i], gone)|] == all[i]
  {
    assert all[..i + 1] == all[..i] + [all[i]];
    DropConcat(all[..i], [all[i]], gone);
    assert all == all[..i + 1] + all[i + 1..];
    DropConcat(all[..i + 1], all[i + 1..], gone);
  }

  /** A node `a` whose one child `b` claims side 7. */
  const ODD: Forest := map[[97] := Cell([], 1, []), [98] := Cell([97], 7, [])]

  lemma OddPaths()
    ensures Paths(ODD) == [[Step(false, [97])], [Step(false, [97]), Step(false, [98])]]
  {
    hide Emit, Paths;
    var p, q := [Step(false, [97])], [Step(false, [97]), Step(false, [98])];
    assert StepAt(ODD, p, 0) && StepAt(ODD, q, 0) && StepAt(ODD, q, 1);
    PathsCorrect(ODD);
    forall r ensures r in Paths(ODD) <==> r in [p, q] {
      if IsPath(ODD, r) && r != [] {
        assert StepAt(ODD, r, 0);
        assert r[0] == Step(false, [97]);
        if |r| > 1 {
          assert StepAt(ODD, r, 1);
          assert r[1] == Step(false, [98]);
        }
        assert |r| <= 2 by {
          PathShort(ODD, r);
          assert ODD.Keys == {[97], [98]};
        }
        assert r == p || r == q;
      }
    }
    assert InOrder([p, q]);
    InOrderUnique(Paths(ODD), [p, q]);
  }

  /** The failing family is real: inserting `c` at index 1 of that list leaves it at 2. */
  lemma OddSideDisturbs()
    ensures Fresh(ODD, [99]) && Drop(Order(ODD), {}) == [[97], [98]]
    ensures Drop(Order(Inserted(ODD, {}, 1, [99], [])), {}) != [[97], [99], [98]]
  {
    hide Emit, Paths, Order, Drop, Cut, Inserted, Disturbed;
    OddOrder();
    OddIsDisturbed();
    InsertReads(ODD, {}, 1, [99], []);
    assert [[97], [98]][..1] + [[99]] + [[97], [98]][1..] == [[97], [99], [98]];
  }

  lemma OddOrder()
    ensures Fresh(ODD, [99]) && Order(ODD) == [[97], [98]]
    ensures Drop(Order(ODD), {}) == [[97], [98]] && Cut(Order(ODD), {}, 1) == 1
  {
    hide Emit, Paths, Order;
    OddIds();
    KeepAll([[97], [98]]);
    assert Cut([[97], [98]], {}, 1) == 1;
  }

  lemma OddIds()
    ensures Fresh(ODD, [99]) && Order(ODD) == [[97], [98]]
  {
    OddPaths();
    hide Emit, Paths;
  }

  lemma OddIsDisturbed()
    ensures Cut(Order(ODD), {}, 1) == 1 ==> Disturbed(ODD, {}, 1, [99])
  {
    OddPaths();
    hide Emit, Paths, Cut;
    assert OddBelow(ODD, Paths(ODD)[0], [99], Paths(ODD)[1]);
  }

  lemma {:induction false} KeepAll(all: seq<Text>)
    ensures Drop(all, {}) == all
  {
    if all != [] { KeepAll(all[1..]); }
  }
}
