/** The acyclic rule: the components of a pattern's links that are cycles. */
module Cycles {
  import opened Bytes
  import opened Graphs
  import opened Links
  import opened Searches

  /** The links out of `v` whose label the pattern matches, in document order. */
  function LinksFrom(links: seq<Link>, pattern: Text, v: Ref): seq<Link>
  {
    if links == [] then [] else
      var l := links[|links| - 1];
      LinksFrom(links[..|links| - 1], pattern, v)
        + if LabelMatches(pattern, l.relation) && l.from == v then [l] else []
  }

  function Ends(links: seq<Link>, pattern: Text): set<Ref>
  {
    (set l | l in links && LabelMatches(pattern, l.relation) :: l.from)
      + (set l | l in links && LabelMatches(pattern, l.relation) :: l.to)
  }

  /** The graph of one pattern: `g` lists exactly its matching links. */
  ghost predicate IsGraphOf(g: Graph, links: seq<Link>, pattern: Text)
  {
    forall v :: Out(g, v) == LinksFrom(links, pattern, v)
  }

  method BuildGraph(links: seq<Link>, pattern: Text) returns (g: Graph, nodes: set<Ref>)
    ensures IsGraphOf(g, links, pattern) && nodes == Ends(links, pattern)
    ensures Closed(g, nodes)
  {
    g, nodes := map[], {};
    for k := 0 to |links|
      invariant IsGraphOf(g, links[..k], pattern) && nodes == Ends(links[..k], pattern)
    {
      var l := links[k];
      assert links[..k + 1][..k] == links[..k] && links[..k + 1] == links[..k] + [l];
      EndsStep(links, pattern, k);
      if LabelMatches(pattern, l.relation) {
        g := g[l.from := Out(g, l.from) + [l]];
        nodes := nodes + {l.from, l.to};
      }
    }
    assert links[..|links|] == links;
    EndsClosed(g, links, pattern);
  }

  lemma EndsStep(links: seq<Link>, pattern: Text, k: nat)
    requires k < |links|
    ensures Ends(links[..k + 1], pattern) == Ends(links[..k], pattern)
      + if LabelMatches(pattern, links[k].relation) then {links[k].from, links[k].to} else {}
  {
    assert forall l :: l in links[..k + 1] <==> l in links[..k] || l == links[k] by {
      assert links[..k + 1] == links[..k] + [links[k]];
    }
  }

  lemma {:induction false} LinksFromMembers(links: seq<Link>, pattern: Text, v: Ref)
    ensures forall l :: l in LinksFrom(links, pattern, v) <==>
      l in links && LabelMatches(pattern, l.relation) && l.from == v
  {
    if links != [] {
      LinksFromMembers(links[..|links| - 1], pattern, v);
      assert links == links[..|links| - 1] + [links[|links| - 1]];
    }
  }

  lemma EndsClosed(g: Graph, links: seq<Link>, pattern: Text)
    requires IsGraphOf(g, links, pattern)
    ensures Closed(g, Ends(links, pattern))
  {
    forall v, i | v in Ends(links, pattern) && 0 <= i < |Out(g, v)| ensures Out(g, v)[i].to in Ends(links, pattern) {
      LinksFromMembers(links, pattern, v);
      assert Out(g, v)[i] in LinksFrom(links, pattern, v);
    }
  }

  /** A nonempty walk of links from `v` back to `v`. */
  ghost predicate OnCycle(g: Graph, v: Ref)
  {
    exists i :: 0 <= i < |Out(g, v)| && Reach(g, Out(g, v)[i].to, v)
  }

  /** Reaching something else starts with a link. */
  lemma ReachStarts(g: Graph, nodes: set<Ref>, v: Ref, x: Ref) returns (i: nat)
    requires Closed(g, nodes) && v in nodes && Reach(g, v, x) && x != v
    ensures i < |Out(g, v)| && Reach(g, Out(g, v)[i].to, x)
  {
    var c := set u | u in nodes && (u == v || exists i :: 0 <= i < |Out(g, v)| && Reach(g, Out(g, v)[i].to, u));
    forall u, j | u in c && 0 <= j < |Out(g, u)| ensures Out(g, u)[j].to in c {
      if u == v {
        ReachSelf(g, Out(g, v)[j].to);
      } else {
        var i :| 0 <= i < |Out(g, v)| && Reach(g, Out(g, v)[i].to, u);
        ReachEdge(g, u, j);
        ReachTransitive(g, Out(g, v)[i].to, u, Out(g, u)[j].to);
      }
    }
    assert x in c;
    i :| i < |Out(g, v)| && Reach(g, Out(g, v)[i].to, x);
  }

  ghost predicate SelfLink(g: Graph, c: set<Ref>)
  {
    exists v, i :: v in c && 0 <= i < |Out(g, v)| && Out(g, v)[i].to == v
  }

  /** The runes of a component lie on cycles exactly when it has two of them or a self-link. */
  lemma ComponentCycles(g: Graph, nodes: set<Ref>, c: set<Ref>, v: Ref)
    requires Closed(g, nodes) && IsComponent(g, c) && v in c && c <= nodes
    ensures OnCycle(g, v) <==> |c| >= 2 || SelfLink(g, c)
  {
    hide Reach;
    if |c| >= 2 {
      assert |c - {v}| == |c| - 1;
      var x :| x in c - {v};
      var i := ReachStarts(g, nodes, v, x);
      ReachTransitive(g, Out(g, v)[i].to, x, v);
    } else {
      Only(c, v);
      if SelfLink(g, c) { ReachSelf(g, v); }
      if OnCycle(g, v) {
        var i :| 0 <= i < |Out(g, v)| && Reach(g, Out(g, v)[i].to, v);
        ReachEdge(g, v, i);
        assert Out(g, v)[i].to in c;
      }
    }
  }

  lemma Only(c: set<Ref>, v: Ref)
    requires v in c && |c| < 2
    ensures c == {v}
  {
    assert |c - {v}| == |c| - 1;
    assert c == (c - {v}) + {v};
  }

  /** A reported cycle: its runes and the matching links among them. */
  datatype Cycle = Cycle(members: set<Ref>, links: set<Text>)

  /** `b` is the text of a link from `from` to one of `members`. */
  ghost predicate LinkInside(g: Graph, from: set<Ref>, members: set<Ref>, b: Text)
  {
    exists v, i :: v in from && 0 <= i < |Out(g, v)| && Out(g, v)[i].to in members && Out(g, v)[i].bytes == b
  }

  ghost predicate Reported(g: Graph, c: Cycle)
  {
    && IsComponent(g, c.members) && (|c.members| >= 2 || SelfLink(g, c.members))
    && forall b :: b in c.links <==> LinkInside(g, c.members, c.members, b)
  }

  /** The links inside one component, and whether one of them is a self-link. */
  method Inside(g: Graph, members: set<Ref>) returns (links: set<Text>, selfLoop: bool)
    ensures selfLoop <==> SelfLink(g, members)
    ensures forall b :: b in links <==> LinkInside(g, members, members, b)
  {
    links, selfLoop := {}, false;
    var todo := members;
    while todo != {}
      invariant todo <= members
      invariant selfLoop <==> SelfLink(g, members - todo)
      invariant forall b :: b in links <==> LinkInside(g, members - todo, members, b)
    {
      var v :| v in todo;
      var more, loop := InsideFrom(g, v, members);
      assert members - (todo - {v}) == (members - todo) + {v};
      links, selfLoop, todo := links + more, selfLoop || loop, todo - {v};
    }
    assert members - {} == members;
  }

  method InsideFrom(g: Graph, v: Ref, members: set<Ref>) returns (links: set<Text>, selfLoop: bool)
    requires v in members
    ensures selfLoop <==> exists i :: 0 <= i < |Out(g, v)| && Out(g, v)[i].to == v
    ensures forall b :: b in links <==> LinkInside(g, {v}, members, b)
  {
    links, selfLoop := {}, false;
    for j := 0 to |Out(g, v)|
      invariant selfLoop <==> exists i :: 0 <= i < j && Out(g, v)[i].to == v
      invariant forall b :: b in links <==>
        (exists i :: 0 <= i < j && Out(g, v)[i].to in members && Out(g, v)[i].bytes == b)
    {
      if Out(g, v)[j].to in members {
        links := links + {Out(g, v)[j].bytes};
        if Out(g, v)[j].to == v { selfLoop := true; }
      }
    }
  }

  ghost predicate IsCyclic(g: Graph, c: set<Ref>)
  {
    |c| >= 2 || SelfLink(g, c)
  }

  /** The violations found among the first `k` components. */
  ghost predicate Found(g: Graph, components: seq<seq<Ref>>, k: int, cycles: seq<Cycle>)
    requires 0 <= k <= |components|
  {
    && (forall i :: 0 <= i < |cycles| ==> Reported(g, cycles[i]) && Among(components, k, cycles[i]))
    && (forall i, j :: 0 <= i < j < |cycles| ==> cycles[i].members !! cycles[j].members)
    && (forall j :: 0 <= j < k && IsCyclic(g, Elements(components[j])) ==>
          exists i :: 0 <= i < |cycles| && cycles[i].members == Elements(components[j]))
  }

  ghost predicate Among(components: seq<seq<Ref>>, k: int, c: Cycle)
    requires 0 <= k <= |components|
  {
    exists j :: 0 <= j < k && c.members == Elements(components[j])
  }

  lemma FoundNone(g: Graph, components: seq<seq<Ref>>)
    ensures Found(g, components, 0, [])
  {
  }

  lemma FoundAll(g: Graph, components: seq<seq<Ref>>, cycles: seq<Cycle>)
    requires Found(g, components, |components|, cycles)
    ensures forall k :: 0 <= k < |cycles| ==> Reported(g, cycles[k])
    ensures forall j, k :: 0 <= j < k < |cycles| ==> cycles[j].members !! cycles[k].members
  {
    hide Reported, Among, IsCyclic, Elements;
  }

  lemma ElementsAre(c: seq<Ref>, members: set<Ref>)
    requires members == set x | x in c
    ensures members == Elements(c)
  {
  }

  lemma FoundSkip(g: Graph, components: seq<seq<Ref>>, k: nat, cycles: seq<Cycle>, selfLoop: bool)
    requires k < |components| && Found(g, components, k, cycles)
    requires |Elements(components[k])| < 2 && !selfLoop && (selfLoop <==> SelfLink(g, Elements(components[k])))
    ensures Found(g, components, k + 1, cycles)
  {
    hide Reported, Elements, SelfLink;
    forall i | 0 <= i < |cycles| ensures Among(components, k + 1, cycles[i]) {
      assert Among(components, k, cycles[i]);
    }
  }

  lemma FoundAdd(g: Graph, components: seq<seq<Ref>>, nodes: set<Ref>, k: nat, cycles: seq<Cycle>, c: Cycle,
                 selfLoop: bool)
    requires k < |components| && Found(g, components, k, cycles) && Listed(g, components, nodes)
    requires c.members == Elements(components[k])
    requires (selfLoop <==> SelfLink(g, c.members)) && (|c.members| >= 2 || selfLoop)
    requires forall b :: b in c.links <==> LinkInside(g, c.members, c.members, b)
    ensures Found(g, components, k + 1, cycles + [c])
  {
    hide IsCyclic, Reported, Elements, IsComponent, SelfLink, LinkInside, Listed, Among;
    IsReported(g, components, nodes, k, c, selfLoop);
    AmongMore(components, k, cycles, c);
    Disjointly(g, components, nodes, k, cycles, c);
    var more := cycles + [c];
    forall j | 0 <= j < k + 1 && IsCyclic(g, Elements(components[j]))
      ensures exists i :: 0 <= i < |more| && more[i].members == Elements(components[j])
    {
      if j < k {
        var i :| 0 <= i < |cycles| && cycles[i].members == Elements(components[j]);
        assert more[i] == cycles[i];
      } else {
        assert more[|cycles|] == c;
      }
    }
  }

  lemma IsReported(g: Graph, components: seq<seq<Ref>>, nodes: set<Ref>, k: nat, c: Cycle, selfLoop: bool)
    requires k < |components| && Listed(g, components, nodes) && c.members == Elements(components[k])
    requires (selfLoop <==> SelfLink(g, c.members)) && (|c.members| >= 2 || selfLoop)
    requires forall b :: b in c.links <==> LinkInside(g, c.members, c.members, b)
    ensures Reported(g, c)
  {
    hide IsComponent, SelfLink, LinkInside, Elements;
  }

  lemma AmongMore(components: seq<seq<Ref>>, k: nat, cycles: seq<Cycle>, c: Cycle)
    requires k < |components| && c.members == Elements(components[k])
    ensures Among(components, k + 1, c)
    ensures forall i :: 0 <= i < |cycles| && Among(components, k, cycles[i]) ==> Among(components, k + 1, cycles[i])
  {
    hide Elements;
  }

  lemma Disjointly(g: Graph, components: seq<seq<Ref>>, nodes: set<Ref>, k: nat, cycles: seq<Cycle>, c: Cycle)
    requires k < |components| && c.members == Elements(components[k]) && Listed(g, components, nodes)
    ensures forall i :: 0 <= i < |cycles| && Among(components, k, cycles[i]) ==> cycles[i].members !! c.members
  {
    hide Elements, IsComponent;
  }

  /** The cycle violations of one acyclic pattern: exactly the strongly connected components
      of the matching links with two runes or more or a self-link, each once; a rune lies on
      a cycle of matching links exactly when one of them holds it. */
  method CycleViolations(links: seq<Link>, pattern: Text) returns (cycles: seq<Cycle>, ghost g: Graph)
    ensures IsGraphOf(g, links, pattern)
    ensures forall k :: 0 <= k < |cycles| ==> Reported(g, cycles[k])
    ensures forall j, k :: 0 <= j < k < |cycles| ==> cycles[j].members !! cycles[k].members
    ensures forall v :: OnCycle(g, v) <==> exists k :: 0 <= k < |cycles| && v in cycles[k].members
  {
    hide *;
    var graph, nodes := BuildGraph(links, pattern);
    g := graph;
    var components := Components(graph, nodes);
    cycles := [];
    FoundNone(graph, components);
    for k := 0 to |components|
      invariant Found(graph, components, k, cycles)
    {
      var members := set x | x in components[k];
      ElementsAre(components[k], members);
      var inside, selfLoop := Inside(graph, members);
      if |members| < 2 && !selfLoop {
        FoundSkip(graph, components, k, cycles, selfLoop);
      } else {
        FoundAdd(graph, components, nodes, k, cycles, Cycle(members, inside), selfLoop);
        cycles := cycles + [Cycle(members, inside)];
      }
    }
    OutsideIsEmpty(graph, links, pattern, nodes);
    FoundAll(graph, components, cycles);
    CyclesComplete(graph, nodes, components, cycles);
  }

  lemma OutsideIsEmpty(g: Graph, links: seq<Link>, pattern: Text, nodes: set<Ref>)
    requires IsGraphOf(g, links, pattern) && nodes == Ends(links, pattern)
    ensures forall v :: v !in nodes ==> Out(g, v) == []
  {
    forall v | Out(g, v) != [] ensures v in nodes {
      LinksFromMembers(links, pattern, v);
      assert Out(g, v)[0] in LinksFrom(links, pattern, v);
    }
  }

  lemma CyclesComplete(g: Graph, nodes: set<Ref>, components: seq<seq<Ref>>, cycles: seq<Cycle>)
    requires Closed(g, nodes) && Listed(g, components, nodes) && Found(g, components, |components|, cycles)
    requires forall v :: v !in nodes ==> Out(g, v) == []
    ensures forall v :: OnCycle(g, v) <==> exists k :: 0 <= k < |cycles| && v in cycles[k].members
  {
    hide Reach, IsComponent, SelfLink;
    forall v ensures OnCycle(g, v) <==> exists k :: 0 <= k < |cycles| && v in cycles[k].members {
      if v in nodes {
        var j :| 0 <= j < |components| && v in components[j];
        var c := Elements(components[j]);
        ComponentCycles(g, nodes, c, v);
      }
      if exists k :: 0 <= k < |cycles| && v in cycles[k].members {
        var k :| 0 <= k < |cycles| && v in cycles[k].members;
        assert Among(components, |components|, cycles[k]);
        assert Reported(g, cycles[k]);
        ComponentCycles(g, nodes, cycles[k].members, v);
      }
    }
  }

  /** No violation is reported exactly when the matching links are acyclic. */
  lemma NoneReportedIffAcyclic(g: Graph, cycles: seq<Cycle>)
    requires forall k :: 0 <= k < |cycles| ==> Reported(g, cycles[k])
    requires forall v :: OnCycle(g, v) <==> exists k :: 0 <= k < |cycles| && v in cycles[k].members
    ensures cycles == [] <==> forall v :: !OnCycle(g, v)
  {
    hide OnCycle;
    if cycles != [] {
      assert Reported(g, cycles[0]);
      var v :| v in cycles[0].members;
      assert OnCycle(g, v);
    }
  }
}
