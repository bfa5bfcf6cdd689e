/** The graph of matching links: what reaches what, and the strongly connected components. */
module Graphs {
  import opened Links

  /** `adj`: the matching links out of each rune, in link order. */
  type Graph = map<Ref, seq<Link>>

  function Out(g: Graph, v: Ref): seq<Link>
  {
    if v in g then g[v] else []
  }

  // ---------------------------------------------------------------------------
  // Reachability
  // ---------------------------------------------------------------------------

  ghost predicate Closed(g: Graph, c: set<Ref>)
  {
    forall v, i :: v in c && 0 <= i < |Out(g, v)| ==> Out(g, v)[i].to in c
  }

  /** `v` is in every set that holds `u` and is closed under the links. */
  ghost predicate Reach(g: Graph, u: Ref, v: Ref)
  {
    forall c :: Closed(g, c) && u in c ==> v in c
  }

  lemma ReachEdge(g: Graph, u: Ref, i: nat)
    requires i < |Out(g, u)|
    ensures Reach(g, u, Out(g, u)[i].to)
  {
  }

  lemma ReachTransitive(g: Graph, u: Ref, v: Ref, w: Ref)
    requires Reach(g, u, v) && Reach(g, v, w)
    ensures Reach(g, u, w)
  {
  }

  /** A walk along links. */
  ghost predicate IsWalk(g: Graph, w: seq<Ref>)
  {
    w != [] && forall k :: 0 <= k < |w| - 1 ==> LinkFrom(g, w[k], w[k + 1])
  }

  ghost predicate LinkFrom(g: Graph, u: Ref, v: Ref)
  {
    exists i :: 0 <= i < |Out(g, u)| && Out(g, u)[i].to == v
  }

  lemma {:induction false} WalkReaches(g: Graph, w: seq<Ref>)
    requires IsWalk(g, w)
    ensures Reach(g, w[0], w[|w| - 1])
  {
    if |w| > 1 {
      var n := |w| - 1;
      WalkReaches(g, w[..n]);
      assert LinkFrom(g, w[n - 1], w[n]);
      var i :| 0 <= i < |Out(g, w[n - 1])| && Out(g, w[n - 1])[i].to == w[n];
      ReachEdge(g, w[n - 1], i);
      ReachTransitive(g, w[0], w[n - 1], w[n]);
    }
  }

  /** Being in every closed set is being at the end of a walk. */
  lemma ReachIsWalk(g: Graph, nodes: set<Ref>, u: Ref, v: Ref)
    requires Closed(g, nodes) && u in nodes
    ensures Reach(g, u, v) <==> exists w :: IsWalk(g, w) && w[0] == u && w[|w| - 1] == v
  {
    if exists w :: IsWalk(g, w) && w[0] == u && w[|w| - 1] == v {
      var w :| IsWalk(g, w) && w[0] == u && w[|w| - 1] == v;
      WalkReaches(g, w);
    }
    if Reach(g, u, v) {
      var c := set x | x in nodes && exists w :: IsWalk(g, w) && w[0] == u && w[|w| - 1] == x;
      forall x, i | x in c && 0 <= i < |Out(g, x)| ensures Out(g, x)[i].to in c {
        var w :| IsWalk(g, w) && w[0] == u && w[|w| - 1] == x;
        var w' := w + [Out(g, x)[i].to];
        forall k | 0 <= k < |w'| - 1 ensures LinkFrom(g, w'[k], w'[k + 1]) {
          if k < |w| - 1 { assert LinkFrom(g, w[k], w[k + 1]); }
        }
        assert IsWalk(g, w');
      }
      assert IsWalk(g, [u]) && u in c;
      assert v in c;
    }
  }

  /** A strongly connected component. */
  ghost predicate IsComponent(g: Graph, c: set<Ref>)
  {
    c != {} && forall x, y :: x in c ==> (y in c <==> Reach(g, x, y) && Reach(g, y, x))
  }

  lemma ReachSelf(g: Graph, v: Ref)
    ensures Reach(g, v, v)
  {
  }
}
