/** Tarjan's search with an explicit stack of open runes.

    The runes on the stack fall into segments, one for each open rune, and every rune of a
    segment and the open rune at its head reach each other. What an open rune heard through
    the links followed so far is what `low` says it reaches on the stack, so a rune that heard
    of nothing below itself is the root of a whole component, and popping down to it lists
    that component. */
module Searches {
  import opened Graphs
  import opened Links

  // ---------------------------------------------------------------------------
  // The search and its invariant
  // ---------------------------------------------------------------------------

  /** The loop's variables, with the runes already assigned to a component. */
  datatype Search = Search(index: map<Ref, int>, low: map<Ref, int>, stack: seq<Ref>,
                           work: seq<(Ref, nat)>, done: set<Ref>)

  /** Numbers are distinct and below the counter; a numbered rune is on the stack or done. */
  ghost predicate Numbered(s: Search, counter: int)
  {
    && s.low.Keys == s.index.Keys
    && (forall x :: x in s.index ==> (x in s.stack <==> x !in s.done) && s.index[x] < counter)
    && (forall x :: x in s.stack || x in s.done ==> x in s.index)
    && (forall x, y :: x in s.index && y in s.index && s.index[x] == s.index[y] ==> x == y)
  }

  ghost predicate StackRises(s: Search)
  {
    && (forall i :: 0 <= i < |s.stack| ==> s.stack[i] in s.index)
    && (forall i, j :: 0 <= i < j < |s.stack| ==> s.index[s.stack[i]] < s.index[s.stack[j]])
  }

  /** The open runes are on the stack, rise with it, and start at its bottom. */
  ghost predicate WorkRises(g: Graph, s: Search)
  {
    && (forall k :: 0 <= k < |s.work| ==>
          s.work[k].0 in s.stack && s.work[k].0 in s.index && s.work[k].1 <= |Out(g, s.work[k].0)|)
    && (forall j, k :: 0 <= j < k < |s.work| ==> s.index[s.work[j].0] < s.index[s.work[k].0])
    && (s.work == [] <==> s.stack == [])
    && (s.work != [] ==> s.work[0].0 == s.stack[0])
  }

  ghost predicate Shape(g: Graph, s: Search, counter: int)
  {
    Numbered(s, counter) && StackRises(s) && WorkRises(g, s)
  }

  /** `x` is on the stack at or above the `k`th open rune and below the next one. */
  ghost predicate Seg(s: Search, k: int, x: Ref)
    requires 0 <= k < |s.work|
  {
    && x in s.stack && x in s.index
    && s.work[k].0 in s.index && s.index[s.work[k].0] <= s.index[x]
    && (k + 1 < |s.work| ==> s.work[k + 1].0 in s.index && s.index[x] < s.index[s.work[k + 1].0])
  }

  /** Open runes: each is reached from the one below by the link it was opened through. */
  ghost predicate Tree(g: Graph, s: Search)
  {
    forall k :: 0 < k < |s.work| ==> Reach(g, s.work[k - 1].0, s.work[k].0)
  }

  /** Every rune of a segment and the open rune at its head reach each other. */
  ghost predicate Mutual(g: Graph, s: Search)
  {
    forall k, x :: 0 <= k < |s.work| && Seg(s, k, x) ==>
      Reach(g, x, s.work[k].0) && Reach(g, s.work[k].0, x)
  }

  /** The links of `x` the search has followed so far. */
  ghost function Followed(g: Graph, s: Search, k: int, x: Ref): nat
    requires 0 <= k < |s.work|
  {
    if x == s.work[k].0 then s.work[k].1 else |Out(g, x)|
  }

  /** A followed link ends at a numbered rune, and if that is still on the stack the head of
      the segment has heard of its number. */
  ghost predicate Heard(g: Graph, s: Search)
  {
    forall k, x, i :: 0 <= k < |s.work| && Seg(s, k, x) && 0 <= i < Followed(g, s, k, x)
                      && i < |Out(g, x)| ==>
      && Out(g, x)[i].to in s.index
      && (Out(g, x)[i].to in s.stack ==>
            s.work[k].0 in s.low && s.low[s.work[k].0] <= s.index[Out(g, x)[i].to])
  }

  /** `low` of an open rune is the number of something on the stack that it reaches. */
  ghost predicate Lows(g: Graph, s: Search)
  {
    forall k :: 0 <= k < |s.work| ==> LowWitness(g, s, s.work[k].0)
  }

  ghost predicate LowWitness(g: Graph, s: Search, v: Ref)
  {
    && v in s.low && v in s.index && s.low[v] <= s.index[v]
    && exists w :: w in s.stack && w in s.index && s.index[w] == s.low[v] && Reach(g, v, w)
  }

  ghost predicate Inv(g: Graph, s: Search, counter: int)
  {
    && Shape(g, s, counter) && Closed(g, s.done)
    && Tree(g, s) && Mutual(g, s) && Heard(g, s) && Lows(g, s)
  }

  lemma {:induction false} SegExists(g: Graph, s: Search, counter: int, x: Ref, k: nat) returns (j: nat)
    requires Shape(g, s, counter) && x in s.stack && k < |s.work|
    requires s.index[s.work[k].0] <= s.index[x]
    ensures k <= j < |s.work| && Seg(s, j, x)
    decreases |s.work| - k
  {
    if k + 1 < |s.work| && s.index[s.work[k + 1].0] <= s.index[x] {
      j := SegExists(g, s, counter, x, k + 1);
    } else {
      j := k;
    }
  }

  /** An open rune reaches every open rune above it. */
  lemma {:induction false} OpenReach(g: Graph, s: Search, j: nat, k: nat)
    requires Tree(g, s) && j <= k < |s.work|
    ensures Reach(g, s.work[j].0, s.work[k].0)
    decreases k - j
  {
    hide Reach;
    if j < k {
      OpenReach(g, s, j, k - 1);
      ReachTransitive(g, s.work[j].0, s.work[k - 1].0, s.work[k].0);
    } else {
      ReachSelf(g, s.work[k].0);
    }
  }

  // ---- opening a rune ----

  ghost function Opened(s: Search, w: Ref, counter: int): Search
  {
    Search(s.index[w := counter], s.low[w := counter], s.stack + [w], s.work + [(w, 0)], s.done)
  }

  /** Moving the top open rune's pointer past one link. */
  ghost function Advanced(s: Search): Search
    requires s.work != []
  {
    var n := |s.work| - 1;
    s.(work := s.work[n := (s.work[n].0, s.work[n].1 + 1)])
  }

  ghost function Lowered(s: Search, v: Ref, l: int): Search
    requires v in s.low
  {
    s.(low := s.low[v := if l < s.low[v] then l else s.low[v]])
  }

  lemma OpenNumbered(s: Search, counter: int, w: Ref)
    requires Numbered(s, counter) && StackRises(s) && s.work != [] && w !in s.index
    ensures Numbered(Opened(Advanced(s), w, counter), counter + 1)
  {
    var t := Opened(Advanced(s), w, counter);
    assert forall x :: x in t.stack <==> x in s.stack || x == w;
  }

  lemma OpenRises(g: Graph, s: Search, counter: int, w: Ref)
    requires Shape(g, s, counter) && s.work != [] && w !in s.index
    requires s.work[|s.work| - 1].1 < |Out(g, s.work[|s.work| - 1].0)|
    ensures StackRises(Opened(Advanced(s), w, counter))
    ensures WorkRises(g, Opened(Advanced(s), w, counter))
  {
    OpenStackRises(s, counter, w);
    OpenWorkRises(g, s, counter, w);
  }

  lemma OpenStackRises(s: Search, counter: int, w: Ref)
    requires Numbered(s, counter) && StackRises(s) && s.work != [] && w !in s.index
    ensures StackRises(Opened(Advanced(s), w, counter))
  {
  }

  lemma OpenWorkRises(g: Graph, s: Search, counter: int, w: Ref)
    requires Shape(g, s, counter) && s.work != [] && w !in s.index
    requires s.work[|s.work| - 1].1 < |Out(g, s.work[|s.work| - 1].0)|
    ensures WorkRises(g, Opened(Advanced(s), w, counter))
  {
    hide StackRises;
    var t := Opened(Advanced(s), w, counter);
    assert forall x :: x in t.stack <==> x in s.stack || x == w;
  }

  lemma OpenSegs(g: Graph, s: Search, counter: int, w: Ref, k: nat, x: Ref)
    requires Shape(g, s, counter) && s.work != [] && w !in s.index && k <= |s.work|
    requires s.work[|s.work| - 1].1 < |Out(g, s.work[|s.work| - 1].0)|
    ensures Seg(Opened(Advanced(s), w, counter), k, x) <==>
            if k == |s.work| then x == w else Seg(s, k, x)
  {
  }

  /** A link from the top open rune to an unnumbered one opens that one. */
  ghost predicate AtLink(g: Graph, s: Search, v: Ref, w: Ref)
  {
    && s.work != [] && v == s.work[|s.work| - 1].0
    && s.work[|s.work| - 1].1 < |Out(g, v)| && w == Out(g, v)[s.work[|s.work| - 1].1].to
  }

  lemma OpenKeeps(g: Graph, s: Search, counter: int, v: Ref, w: Ref)
    requires Inv(g, s, counter) && AtLink(g, s, v, w) && w !in s.index
    ensures Inv(g, Opened(Advanced(s), w, counter), counter + 1)
  {
    hide Numbered, StackRises, WorkRises, Tree, Mutual, Heard, Lows, Closed;
    OpenNumbered(s, counter, w);
    OpenRises(g, s, counter, w);
    OpenTree(g, s, counter, v, w);
    OpenMutual(g, s, counter, v, w);
    OpenLows(g, s, counter, v, w);
    OpenHeard(g, s, counter, v, w);
  }

  lemma OpenTree(g: Graph, s: Search, counter: int, v: Ref, w: Ref)
    requires Tree(g, s) && AtLink(g, s, v, w)
    ensures Tree(g, Opened(Advanced(s), w, counter))
  {
    hide Reach;
    var t := Opened(Advanced(s), w, counter);
    ReachEdge(g, v, s.work[|s.work| - 1].1);
    forall k | 0 < k < |t.work| ensures Reach(g, t.work[k - 1].0, t.work[k].0) {
      if k < |s.work| { assert Reach(g, s.work[k - 1].0, s.work[k].0); }
    }
  }

  lemma OpenMutual(g: Graph, s: Search, counter: int, v: Ref, w: Ref)
    requires Shape(g, s, counter) && Mutual(g, s) && AtLink(g, s, v, w) && w !in s.index
    ensures Mutual(g, Opened(Advanced(s), w, counter))
  {
    hide Reach, Seg, Shape;
    var t := Opened(Advanced(s), w, counter);
    forall k, x | 0 <= k < |t.work| && Seg(t, k, x)
      ensures Reach(g, x, t.work[k].0) && Reach(g, t.work[k].0, x)
    {
      OpenSegs(g, s, counter, w, k, x);
      ReachSelf(g, x);
    }
  }

  lemma OpenLows(g: Graph, s: Search, counter: int, v: Ref, w: Ref)
    requires Lows(g, s) && AtLink(g, s, v, w) && w !in s.index
    ensures Lows(g, Opened(Advanced(s), w, counter))
  {
    hide Reach;
    var t := Opened(Advanced(s), w, counter);
    ReachSelf(g, w);
    assert w in t.stack && t.index[w] == t.low[w];
    forall k | 0 <= k < |t.work| ensures LowWitness(g, t, t.work[k].0) {
      if k < |s.work| {
        assert LowWitness(g, s, s.work[k].0);
        var u :| u in s.stack && u in s.index && s.index[u] == s.low[s.work[k].0] && Reach(g, s.work[k].0, u);
        assert u in t.stack && t.index[u] == s.index[u];
      }
    }
  }

  lemma OpenHeard(g: Graph, s: Search, counter: int, v: Ref, w: Ref)
    requires Shape(g, s, counter) && Heard(g, s) && Lows(g, s) && AtLink(g, s, v, w) && w !in s.index
    ensures Heard(g, Opened(Advanced(s), w, counter))
  {
    hide Reach, Seg, Shape, Followed, LowWitness, Lows, Opened, Advanced;
    var t := Opened(Advanced(s), w, counter);
    forall k, x, i | 0 <= k < |t.work| && Seg(t, k, x) && 0 <= i < Followed(g, t, k, x) && i < |Out(g, x)|
      ensures Out(g, x)[i].to in t.index
      ensures Out(g, x)[i].to in t.stack ==>
        t.work[k].0 in t.low && t.low[t.work[k].0] <= t.index[Out(g, x)[i].to]
    {
      OpenHeardAt(g, s, counter, v, w, k, x, i);
    }
  }

  lemma OpenHeardAt(g: Graph, s: Search, counter: int, v: Ref, w: Ref, k: nat, x: Ref, i: nat)
    requires Shape(g, s, counter) && Heard(g, s) && Lows(g, s) && AtLink(g, s, v, w) && w !in s.index
    requires var t := Opened(Advanced(s), w, counter);
      k < |t.work| && Seg(t, k, x) && i < Followed(g, t, k, x) && i < |Out(g, x)|
    ensures var t := Opened(Advanced(s), w, counter);
      && Out(g, x)[i].to in t.index
      && (Out(g, x)[i].to in t.stack ==>
            t.work[k].0 in t.low && t.low[t.work[k].0] <= t.index[Out(g, x)[i].to])
  {
    hide Reach, Seg, StackRises, WorkRises;
    var n := |s.work| - 1;
    OpenSegs(g, s, counter, w, k, x);
    if k <= n {
      assert LowWitness(g, s, s.work[k].0);
      assert i < Followed(g, s, k, x) || (k == n && x == v && Out(g, x)[i].to == w);
    }
  }

  // ---- following a link to a rune already numbered ----

  ghost function Seen(s: Search, v: Ref, w: Ref): Search
    requires s.work != [] && v in s.low && w in s.index
  {
    if w in s.stack then Lowered(Advanced(s), v, s.index[w]) else Advanced(s)
  }

  lemma SeenKeeps(g: Graph, s: Search, counter: int, v: Ref, w: Ref)
    requires Inv(g, s, counter) && AtLink(g, s, v, w) && w in s.index
    ensures v in s.low && Inv(g, Seen(s, v, w), counter)
  {
    hide Reach, Numbered, StackRises, WorkRises, Tree, Mutual, Heard, Lows, Closed, Seen;
    SeenShape(g, s, counter, v, w);
    SeenMutual(g, s, v, w);
    SeenHeard(g, s, counter, v, w);
    SeenLows(g, s, counter, v, w);
  }

  lemma SeenShape(g: Graph, s: Search, counter: int, v: Ref, w: Ref)
    requires Shape(g, s, counter) && Tree(g, s) && AtLink(g, s, v, w) && w in s.index
    ensures v in s.low && Shape(g, Seen(s, v, w), counter) && Tree(g, Seen(s, v, w))
    ensures Seen(s, v, w).done == s.done
  {
    hide Reach;
    assert Numbered(Seen(s, v, w), counter) by { hide WorkRises; }
    SeenWork(g, s, v, w);
  }

  lemma SeenWork(g: Graph, s: Search, v: Ref, w: Ref)
    requires WorkRises(g, s) && Tree(g, s) && AtLink(g, s, v, w) && w in s.index && v in s.low
    ensures WorkRises(g, Seen(s, v, w)) && Tree(g, Seen(s, v, w))
  {
    hide Reach;
  }

  lemma SeenMutual(g: Graph, s: Search, v: Ref, w: Ref)
    requires Mutual(g, s) && AtLink(g, s, v, w) && v in s.low && w in s.index
    ensures Mutual(g, Seen(s, v, w))
  {
    hide Reach;
    var t := Seen(s, v, w);
    forall k, x | 0 <= k < |t.work| && Seg(t, k, x)
      ensures Reach(g, x, t.work[k].0) && Reach(g, t.work[k].0, x)
    {
      assert Seg(s, k, x);
    }
  }

  lemma SeenHeard(g: Graph, s: Search, counter: int, v: Ref, w: Ref)
    requires Shape(g, s, counter) && Heard(g, s) && AtLink(g, s, v, w) && v in s.low && w in s.index
    ensures Heard(g, Seen(s, v, w))
  {
    hide Reach, StackRises, WorkRises, Numbered;
    var n := |s.work| - 1;
    var t := Seen(s, v, w);
    forall k, x, i | 0 <= k < |t.work| && Seg(t, k, x) && 0 <= i < Followed(g, t, k, x) && i < |Out(g, x)|
      ensures Out(g, x)[i].to in t.index
      ensures Out(g, x)[i].to in t.stack ==>
        t.work[k].0 in t.low && t.low[t.work[k].0] <= t.index[Out(g, x)[i].to]
    {
      assert Seg(s, k, x);
      assert i < Followed(g, s, k, x) || (k == n && x == v && Out(g, x)[i].to == w);
    }
  }

  lemma SeenLows(g: Graph, s: Search, counter: int, v: Ref, w: Ref)
    requires Shape(g, s, counter) && Lows(g, s) && AtLink(g, s, v, w) && v in s.low && w in s.index
    ensures Lows(g, Seen(s, v, w))
  {
    hide Reach, StackRises, WorkRises, Numbered;
    var t := Seen(s, v, w);
    ReachEdge(g, v, s.work[|s.work| - 1].1);
    forall k | 0 <= k < |t.work| ensures LowWitness(g, t, t.work[k].0) {
      assert LowWitness(g, s, s.work[k].0);
    }
  }

  // ---- closing a rune that is not the root of its component ----

  ghost function Closes(s: Search): Search
    requires s.work != []
  {
    var n := |s.work| - 1;
    var t := s.(work := s.work[..n]);
    if n > 0 && s.work[n - 1].0 in s.low && s.work[n].0 in s.low then
      Lowered(t, s.work[n - 1].0, s.low[s.work[n].0])
    else t
  }

  ghost predicate AtEnd(g: Graph, s: Search, v: Ref)
  {
    && s.work != [] && v == s.work[|s.work| - 1].0 && s.work[|s.work| - 1].1 == |Out(g, v)|
    && v in s.low && v in s.index
  }

  /** It has a rune below it, from which it is reached and which it reaches. */
  lemma CloseBelow(g: Graph, s: Search, counter: int, v: Ref) returns (w: Ref)
    requires Shape(g, s, counter) && Tree(g, s) && Mutual(g, s) && Lows(g, s)
    requires AtEnd(g, s, v) && s.low[v] != s.index[v]
    ensures |s.work| > 1 && w in s.stack && s.index[w] == s.low[v] && Reach(g, v, w)
    ensures Reach(g, s.work[|s.work| - 2].0, v) && Reach(g, v, s.work[|s.work| - 2].0)
  {
    hide Reach, Shape, Tree, Mutual, Seg;
    assert LowWitness(g, s, s.work[|s.work| - 1].0);
    w :| w in s.stack && w in s.index && s.index[w] == s.low[v] && Reach(g, v, w);
    var j := SegBelow(g, s, counter, v, w);
    CloseMutual(g, s, j, v, w);
  }

  /** A rune of the stack numbered below the last open one lies in an earlier segment. */
  lemma SegBelow(g: Graph, s: Search, counter: int, v: Ref, w: Ref) returns (j: nat)
    requires Shape(g, s, counter) && s.work != [] && v == s.work[|s.work| - 1].0
    requires w in s.stack && w in s.index && v in s.index && s.index[w] < s.index[v]
    ensures j < |s.work| - 1 && Seg(s, j, w)
  {
    hide Numbered;
    var i :| 0 <= i < |s.stack| && s.stack[i] == w;
    assert s.index[s.stack[0]] <= s.index[w];
    j := SegExists(g, s, counter, w, 0);
  }

  lemma CloseMutual(g: Graph, s: Search, j: nat, v: Ref, w: Ref)
    requires Tree(g, s) && Mutual(g, s) && j < |s.work| - 1 && v == s.work[|s.work| - 1].0
    requires Seg(s, j, w) && Reach(g, v, w)
    ensures Reach(g, s.work[|s.work| - 2].0, v) && Reach(g, v, s.work[|s.work| - 2].0)
  {
    hide Reach, Seg;
    var n := |s.work| - 1;
    assert Reach(g, s.work[n - 1].0, s.work[n].0);
    OpenReach(g, s, j, n - 1);
    ReachTransitive(g, v, w, s.work[j].0);
    ReachTransitive(g, v, s.work[j].0, s.work[n - 1].0);
  }

  lemma ClosesSegs(g: Graph, s: Search, counter: int, k: nat, x: Ref)
    requires Shape(g, s, counter) && |s.work| > 1 && k < |s.work| - 1
    ensures Seg(Closes(s), k, x) ==> Seg(s, k, x) || (k == |s.work| - 2 && Seg(s, k + 1, x))
  {
  }

  lemma ClosesKeeps(g: Graph, s: Search, counter: int, v: Ref)
    requires Inv(g, s, counter) && AtEnd(g, s, v) && s.low[v] != s.index[v]
    ensures |s.work| > 1 && Inv(g, Closes(s), counter)
  {
    hide Reach, Numbered, StackRises, WorkRises, Tree, Mutual, Heard, Lows, Closed;
    var w := CloseBelow(g, s, counter, v);
    ClosesShape(g, s, counter);
    ClosesMutual(g, s, counter, v);
    ClosesHeard(g, s, counter, v);
    ClosesLows(g, s, counter, v, w);
  }

  lemma ClosesShape(g: Graph, s: Search, counter: int)
    requires Shape(g, s, counter) && |s.work| > 1 && Tree(g, s)
    ensures Shape(g, Closes(s), counter) && Tree(g, Closes(s))
  {
    hide Reach, Numbered, StackRises, WorkRises;
    ClosesNumbered(s, counter);
    ClosesRises(g, s);
  }

  lemma ClosesNumbered(s: Search, counter: int)
    requires Numbered(s, counter) && s.work != []
    ensures Numbered(Closes(s), counter)
  {
  }

  lemma ClosesRises(g: Graph, s: Search)
    requires StackRises(s) && WorkRises(g, s) && |s.work| > 1
    ensures StackRises(Closes(s)) && WorkRises(g, Closes(s))
  {
  }

  lemma ClosesMutual(g: Graph, s: Search, counter: int, v: Ref)
    requires Shape(g, s, counter) && Mutual(g, s) && |s.work| > 1 && v == s.work[|s.work| - 1].0
    requires Reach(g, s.work[|s.work| - 2].0, v) && Reach(g, v, s.work[|s.work| - 2].0)
    ensures Mutual(g, Closes(s))
  {
    hide Reach, Shape, Seg;
    var t := Closes(s);
    var n := |s.work| - 1;
    forall k, x | 0 <= k < |t.work| && Seg(t, k, x)
      ensures Reach(g, x, t.work[k].0) && Reach(g, t.work[k].0, x)
    {
      ClosesSegs(g, s, counter, k, x);
      if !Seg(s, k, x) {
        assert Reach(g, x, s.work[n].0) && Reach(g, s.work[n].0, x);
        ReachTransitive(g, x, v, s.work[n - 1].0);
        ReachTransitive(g, s.work[n - 1].0, v, x);
      }
    }
  }

  lemma ClosesHeard(g: Graph, s: Search, counter: int, v: Ref)
    requires Shape(g, s, counter) && Heard(g, s) && Lows(g, s) && |s.work| > 1 && AtEnd(g, s, v)
    ensures Heard(g, Closes(s))
  {
    hide Reach, Seg, Shape, Followed, LowWitness, AtEnd, Lows, Closes;
    var t := Closes(s);
    ClosesFields(s);
    forall k, x, i | 0 <= k < |t.work| && Seg(t, k, x) && 0 <= i < Followed(g, t, k, x) && i < |Out(g, x)|
      ensures Out(g, x)[i].to in t.index
      ensures Out(g, x)[i].to in t.stack ==>
        t.work[k].0 in t.low && t.low[t.work[k].0] <= t.index[Out(g, x)[i].to]
    {
      ClosesHeardAt(g, s, counter, v, k, x, i);
    }
  }

  lemma ClosesFields(s: Search)
    requires s.work != []
    ensures var t := Closes(s); t.index == s.index && t.stack == s.stack && |t.work| == |s.work| - 1
  {
  }

  lemma ClosesHeardAt(g: Graph, s: Search, counter: int, v: Ref, k: nat, x: Ref, i: nat)
    requires Shape(g, s, counter) && Heard(g, s) && Lows(g, s) && |s.work| > 1 && AtEnd(g, s, v)
    requires k < |s.work| - 1 && Seg(Closes(s), k, x) && i < Followed(g, Closes(s), k, x) && i < |Out(g, x)|
    ensures Out(g, x)[i].to in s.index
    ensures var t := Closes(s);
      Out(g, x)[i].to in s.stack ==> t.work[k].0 in t.low && t.low[t.work[k].0] <= s.index[Out(g, x)[i].to]
  {
    hide Reach, Seg, StackRises, WorkRises;
    var n := |s.work| - 1;
    assert LowWitness(g, s, s.work[n - 1].0);
    ClosesSegs(g, s, counter, k, x);
    assert LowWitness(g, s, s.work[k].0);
    if Seg(s, k, x) {
      assert i < Followed(g, s, k, x);
    } else {
      assert i < Followed(g, s, n, x);
    }
  }

  lemma ClosesLows(g: Graph, s: Search, counter: int, v: Ref, w: Ref)
    requires Shape(g, s, counter) && Lows(g, s) && |s.work| > 1 && AtEnd(g, s, v)
    requires w in s.stack && s.index[w] == s.low[v] && Reach(g, v, w)
    requires Reach(g, s.work[|s.work| - 2].0, v)
    ensures Lows(g, Closes(s))
  {
    hide Reach, StackRises;
    var t := Closes(s);
    ReachTransitive(g, s.work[|s.work| - 2].0, v, w);
    forall k | 0 <= k < |t.work| ensures LowWitness(g, t, t.work[k].0) {
      assert LowWitness(g, s, s.work[k].0);
    }
  }

  // ---- closing the root of a component ----

  /** The stack from `v` up leaves it as one component. */
  ghost function Rooted(s: Search, i: nat): Search
    requires i <= |s.stack| && s.work != []
  {
    Closes(s).(stack := s.stack[..i], done := s.done + Elements(s.stack[i..]))
  }

  ghost function Elements(c: seq<Ref>): set<Ref>
  {
    set x | x in c
  }

  ghost predicate AtRoot(g: Graph, s: Search, v: Ref, i: nat)
  {
    AtEnd(g, s, v) && s.low[v] == s.index[v] && i < |s.stack| && s.stack[i] == v
  }

  /** Above the root there is nothing but its segment. */
  lemma RootMembers(g: Graph, s: Search, counter: int, v: Ref, i: nat)
    requires Shape(g, s, counter) && AtRoot(g, s, v, i)
    ensures forall x :: x in Elements(s.stack[i..]) <==> Seg(s, |s.work| - 1, x)
    ensures forall x :: x in s.stack[..i] <==> x in s.stack && s.index[x] < s.index[v]
  {
    hide Numbered;
    forall x ensures x in Elements(s.stack[i..]) <==> Seg(s, |s.work| - 1, x) {
      if x in s.stack {
        var j :| 0 <= j < |s.stack| && s.stack[j] == x;
        if j >= i { assert s.stack[i..][j - i] == x; }
      }
      if x in s.stack[i..] {
        var j :| 0 <= j < |s.stack| - i && s.stack[i..][j] == x;
        assert s.stack[i + j] == x;
      }
    }
    forall x ensures x in s.stack[..i] <==> x in s.stack && s.index[x] < s.index[v] {
      if x in s.stack {
        var j :| 0 <= j < |s.stack| && s.stack[j] == x;
        if j < i { assert s.stack[..i][j] == x; }
      }
      if x in s.stack[..i] {
        var j :| 0 <= j < i && s.stack[..i][j] == x;
        assert s.stack[j] == x;
      }
    }
  }

  /** What the root and its segment link to is done or in the segment. */
  lemma RootCloses(g: Graph, s: Search, counter: int, v: Ref, i: nat)
    requires Shape(g, s, counter) && Heard(g, s) && Closed(g, s.done) && AtRoot(g, s, v, i)
    ensures Closed(g, s.done + Elements(s.stack[i..]))
  {
    hide Elements, StackRises;
    var n := |s.work| - 1;
    var c := Elements(s.stack[i..]);
    RootMembers(g, s, counter, v, i);
    forall x, j | x in s.done + c && 0 <= j < |Out(g, x)| ensures Out(g, x)[j].to in s.done + c {
      if x in c {
        assert Seg(s, n, x) && j < Followed(g, s, n, x);
        var y := Out(g, x)[j].to;
        assert y in s.index;
        if y in s.stack { assert Seg(s, n, y); }
      }
    }
  }

  lemma RootIsComponent(g: Graph, s: Search, counter: int, v: Ref, i: nat)
    requires Inv(g, s, counter) && AtRoot(g, s, v, i)
    ensures IsComponent(g, Elements(s.stack[i..]))
    ensures Elements(s.stack[i..]) !! s.done
  {
    hide Elements, StackRises, WorkRises, Heard, Lows, Tree;
    var n := |s.work| - 1;
    var c := Elements(s.stack[i..]);
    RootMembers(g, s, counter, v, i);
    RootCloses(g, s, counter, v, i);
    assert forall x :: x in c ==> x in s.stack;
    assert Seg(s, n, v) by { hide *; RootOwn(g, s, counter, v, i); }
    forall x, y | x in c ensures y in c <==> Reach(g, x, y) && Reach(g, y, x) {
      assert Seg(s, n, x);
      if y in c {
        assert Seg(s, n, y);
        ReachTransitive(g, x, v, y);
        ReachTransitive(g, y, v, x);
      }
      if Reach(g, x, y) && Reach(g, y, x) {
        assert y in s.done + c;
        assert y in s.done ==> x in s.done;
      }
    }
  }

  lemma RootOwn(g: Graph, s: Search, counter: int, v: Ref, i: nat)
    requires Shape(g, s, counter) && AtRoot(g, s, v, i)
    ensures Seg(s, |s.work| - 1, v)
  {
  }

  lemma RootSegs(g: Graph, s: Search, counter: int, v: Ref, i: nat, k: nat, x: Ref)
    requires Shape(g, s, counter) && AtRoot(g, s, v, i) && k < |s.work| - 1
    ensures Seg(Rooted(s, i), k, x) ==> Seg(s, k, x)
  {
    hide Numbered;
    RootMembers(g, s, counter, v, i);
  }

  lemma RootShape(g: Graph, s: Search, counter: int, v: Ref, i: nat)
    requires Shape(g, s, counter) && AtRoot(g, s, v, i) && Lows(g, s)
    ensures Shape(g, Rooted(s, i), counter)
    ensures Rooted(s, i).low == s.low && Rooted(s, i).index == s.index
  {
    hide Reach, Elements, Numbered, StackRises, WorkRises;
    RootMaps(g, s, counter, v, i);
    RootNumbered(g, s, counter, v, i);
    RootRises(g, s, counter, v, i);
  }

  lemma RootMaps(g: Graph, s: Search, counter: int, v: Ref, i: nat)
    requires Shape(g, s, counter) && AtRoot(g, s, v, i) && Lows(g, s)
    ensures Rooted(s, i).low == s.low && Rooted(s, i).index == s.index
  {
    hide Reach, Elements, Numbered, StackRises;
    var n := |s.work| - 1;
    if n > 0 {
      assert LowWitness(g, s, s.work[n - 1].0);
      assert s.low[s.work[n - 1].0] <= s.low[v];
    }
  }

  lemma RootNumbered(g: Graph, s: Search, counter: int, v: Ref, i: nat)
    requires Shape(g, s, counter) && AtRoot(g, s, v, i) && Rooted(s, i).low == s.low
    ensures Numbered(Rooted(s, i), counter)
  {
    hide Elements, StackRises, WorkRises, Seg;
    RootMembers(g, s, counter, v, i);
    RootSplit(s, i);
    assert forall x :: x in s.stack[..i] ==> x !in Elements(s.stack[i..]) by {
      RootApart(g, s, counter, v, i);
    }
  }

  lemma RootApart(g: Graph, s: Search, counter: int, v: Ref, i: nat)
    requires Shape(g, s, counter) && AtRoot(g, s, v, i)
    ensures forall x :: x in s.stack[..i] ==> x !in Elements(s.stack[i..])
  {
    hide Elements, StackRises, Numbered;
    RootMembers(g, s, counter, v, i);
  }

  lemma RootRises(g: Graph, s: Search, counter: int, v: Ref, i: nat)
    requires Shape(g, s, counter) && AtRoot(g, s, v, i) && Rooted(s, i).low == s.low
    ensures StackRises(Rooted(s, i)) && WorkRises(g, Rooted(s, i))
  {
    hide Elements, Numbered, StackRises, WorkRises;
    RootMembers(g, s, counter, v, i);
    assert StackRises(s) && WorkRises(g, s);
    RootStackRises(g, s, v, i);
    RootWorkRises(g, s, v, i);
  }

  lemma RootStackRises(g: Graph, s: Search, v: Ref, i: nat)
    requires StackRises(s) && AtRoot(g, s, v, i) && Rooted(s, i).index == s.index
    ensures StackRises(Rooted(s, i))
  {
    hide Elements;
  }

  lemma RootWorkRises(g: Graph, s: Search, v: Ref, i: nat)
    requires StackRises(s) && WorkRises(g, s) && AtRoot(g, s, v, i) && Rooted(s, i).index == s.index
    requires forall x :: x in s.stack[..i] <==> x in s.stack && s.index[x] < s.index[v]
    ensures WorkRises(g, Rooted(s, i))
  {
    hide Elements;
    if |s.work| > 1 {
      assert s.index[s.stack[0]] < s.index[v];
    }
  }

  lemma RootSplit(s: Search, i: nat)
    requires i <= |s.stack|
    ensures forall x :: x in s.stack <==> x in s.stack[..i] || x in Elements(s.stack[i..])
  {
    assert s.stack == s.stack[..i] + s.stack[i..];
  }

  lemma RootKeeps(g: Graph, s: Search, counter: int, v: Ref, i: nat)
    requires Inv(g, s, counter) && AtRoot(g, s, v, i)
    ensures Inv(g, Rooted(s, i), counter)
  {
    hide Reach, Numbered, StackRises, WorkRises, Seg, Elements, Closed;
    var t := Rooted(s, i);
    RootShape(g, s, counter, v, i);
    RootCloses(g, s, counter, v, i);
    RootMembers(g, s, counter, v, i);
    assert Tree(g, t) by { hide Mutual, Heard, Lows; }
    assert Mutual(g, t) by {
      hide Heard, Lows, Tree;
      forall k, x | 0 <= k < |t.work| && Seg(t, k, x)
        ensures Reach(g, x, t.work[k].0) && Reach(g, t.work[k].0, x)
      {
        RootSegs(g, s, counter, v, i, k, x);
      }
    }
    RootHeard(g, s, counter, v, i);
    RootLows(g, s, counter, v, i);
  }

  lemma RootHeard(g: Graph, s: Search, counter: int, v: Ref, i: nat)
    requires Shape(g, s, counter) && Heard(g, s) && Lows(g, s) && AtRoot(g, s, v, i)
    ensures Heard(g, Rooted(s, i))
  {
    hide Reach, Numbered, StackRises, WorkRises, Seg, Elements, Lows;
    var t := Rooted(s, i);
    RootShape(g, s, counter, v, i);
    RootMembers(g, s, counter, v, i);
    forall k, x, j | 0 <= k < |t.work| && Seg(t, k, x) && 0 <= j < Followed(g, t, k, x) && j < |Out(g, x)|
      ensures Out(g, x)[j].to in t.index
      ensures Out(g, x)[j].to in t.stack ==>
        t.work[k].0 in t.low && t.low[t.work[k].0] <= t.index[Out(g, x)[j].to]
    {
      RootSegs(g, s, counter, v, i, k, x);
      assert j < Followed(g, s, k, x);
    }
  }

  lemma RootLows(g: Graph, s: Search, counter: int, v: Ref, i: nat)
    requires Shape(g, s, counter) && Lows(g, s) && AtRoot(g, s, v, i)
    ensures Lows(g, Rooted(s, i))
  {
    hide Reach, Numbered, StackRises, Elements;
    var t := Rooted(s, i);
    RootShape(g, s, counter, v, i);
    RootMembers(g, s, counter, v, i);
    forall k | 0 <= k < |t.work| ensures LowWitness(g, t, t.work[k].0) {
      assert LowWitness(g, s, s.work[k].0);
      var w :| w in s.stack && w in s.index && s.index[w] == s.low[s.work[k].0] && Reach(g, s.work[k].0, w);
      assert s.index[s.work[k].0] < s.index[v];
      assert w in t.stack;
    }
  }

  // ---------------------------------------------------------------------------
  // The loop
  // ---------------------------------------------------------------------------

  lemma StartKeeps(g: Graph, s: Search, counter: int, w: Ref)
    requires Inv(g, s, counter) && s.work == [] && w !in s.index
    ensures Inv(g, Opened(s, w, counter), counter + 1)
  {
    hide Reach, Closed, Opened, Numbered, StackRises, WorkRises, Heard, Seg;
    var t := Opened(s, w, counter);
    StartShape(g, s, counter, w);
    StartSegs(g, s, counter, w);
    ReachSelf(g, w);
    assert w in t.stack;
    assert LowWitness(g, t, w);
    StartHeard(g, s, counter, w);
  }

  lemma StartShape(g: Graph, s: Search, counter: int, w: Ref)
    requires Shape(g, s, counter) && s.work == [] && w !in s.index
    ensures var t := Opened(s, w, counter);
      && Shape(g, t, counter + 1) && t.stack == [w] && t.work == [(w, 0)] && t.done == s.done
      && w in t.low && w in t.index && t.low[w] == t.index[w]
  {
  }

  lemma StartSegs(g: Graph, s: Search, counter: int, w: Ref)
    requires Shape(g, s, counter) && s.work == [] && w !in s.index
    ensures forall x :: Seg(Opened(s, w, counter), 0, x) ==> x == w
  {
    hide Numbered, StackRises;
  }

  lemma StartHeard(g: Graph, s: Search, counter: int, w: Ref)
    requires Shape(g, s, counter) && s.work == [] && w !in s.index
    ensures Heard(g, Opened(s, w, counter))
  {
    hide Numbered, StackRises;
    var t := Opened(s, w, counter);
    assert t.stack == [w] && t.work == [(w, 0)];
    assert forall x :: Seg(t, 0, x) ==> x == w;
  }

  /** Links still to follow and runes still to close. */
  ghost function Left(g: Graph, work: seq<(Ref, nat)>): nat
  {
    if work == [] then 0 else
      var (v, next) := work[|work| - 1];
      (if next <= |Out(g, v)| then |Out(g, v)| - next else 0) + 1 + Left(g, work[..|work| - 1])
  }

  lemma LeftDrops(g: Graph, s: Search, v: Ref)
    requires s.work != [] && v == s.work[|s.work| - 1].0
    ensures Left(g, s.work[..|s.work| - 1]) < Left(g, s.work)
    ensures s.work[|s.work| - 1].1 < |Out(g, v)| ==> Left(g, Advanced(s).work) < Left(g, s.work)
  {
    var n := |s.work| - 1;
    assert Advanced(s).work[..n] == s.work[..n];
  }

  /** The components listed so far: disjoint, each one strongly connected and whole, and
      together everything done. */
  ghost predicate Listed(g: Graph, components: seq<seq<Ref>>, done: set<Ref>)
  {
    && (forall i :: 0 <= i < |components| ==> IsComponent(g, Elements(components[i])))
    && (forall i, x :: 0 <= i < |components| && x in components[i] ==> x in done)
    && (forall x :: x in done ==> exists i :: 0 <= i < |components| && x in components[i])
    && (forall i, j :: 0 <= i < j < |components| ==> Elements(components[i]) !! Elements(components[j]))
  }

  lemma ListedMore(g: Graph, components: seq<seq<Ref>>, done: set<Ref>, c: seq<Ref>)
    requires Listed(g, components, done) && IsComponent(g, Elements(c)) && Elements(c) !! done
    ensures Listed(g, components + [c], done + Elements(c))
  {
    hide IsComponent;
    var more := components + [c];
    forall x | x in done + Elements(c) ensures exists i :: 0 <= i < |more| && x in more[i] {
      if x in done {
        var i :| 0 <= i < |components| && x in components[i];
        assert x in more[i];
      } else {
        assert x in more[|components|];
      }
    }
  }

  ghost predicate Marks(s: Search, onStack: map<Ref, bool>)
  {
    forall x :: x in s.index ==> x in onStack && onStack[x] == (x in s.stack)
  }

  lemma OpenMarks(s: Search, onStack: map<Ref, bool>, w: Ref, counter: int)
    requires Marks(s, onStack)
    ensures Marks(Opened(s, w, counter), onStack[w := true])
    ensures s.work != [] ==> Marks(Opened(Advanced(s), w, counter), onStack[w := true])
  {
    assert forall x :: x in s.stack + [w] <==> x in s.stack || x == w;
  }

  lemma RootMarks(g: Graph, s: Search, onStack: map<Ref, bool>, counter: int, v: Ref, i: nat, marks: map<Ref, bool>)
    requires Shape(g, s, counter) && AtRoot(g, s, v, i) && Lows(g, s) && Marks(s, onStack)
    requires marks.Keys == onStack.Keys
    requires forall x :: x in marks ==> marks[x] == (if x in Elements(s.stack[i..]) then false else onStack[x])
    ensures Marks(Rooted(s, i), marks)
  {
    hide Elements, Numbered, StackRises, WorkRises, Lows, Closes, Seg;
    RootMaps(g, s, counter, v, i);
    RootApart(g, s, counter, v, i);
    RootSplit(s, i);
  }

  /** What the loop needs to know of the top open rune. */
  ghost predicate LastAt(stack: seq<Ref>, v: Ref, i: int)
  {
    0 <= i < |stack| && stack[i] == v && forall j :: i < j < |stack| ==> stack[j] != v
  }

  lemma LastIs(stack: seq<Ref>, v: Ref, i: int)
    requires LastAt(stack, v, i)
    ensures 0 <= i < |stack| && stack[i] == v
  {
  }

  lemma TopFacts(g: Graph, s: Search, counter: int)
    requires Inv(g, s, counter) && s.work != []
    ensures var v := s.work[|s.work| - 1].0;
      && v in s.index && v in s.low && s.work[|s.work| - 1].1 <= |Out(g, v)| && s.low[v] <= s.index[v]
      && exists i :: LastAt(s.stack, v, i)
    ensures |s.work| > 1 ==> s.work[|s.work| - 2].0 in s.low
  {
    hide Tree, Mutual, Heard, Reach;
    var (v, next) := s.work[|s.work| - 1];
    assert LowWitness(g, s, v);
    var i :| 0 <= i < |s.stack| && s.stack[i] == v;
    forall j | i < j < |s.stack| ensures s.stack[j] != v {
      assert s.index[s.stack[i]] < s.index[s.stack[j]];
    }
    assert LastAt(s.stack, v, i);
  }

  /** The pops of one component: everything from `v` up. */
  method PopTo(stack: seq<Ref>, onStack: map<Ref, bool>, v: Ref, ghost i: nat)
      returns (comp: seq<Ref>, rest: seq<Ref>, marks: map<Ref, bool>)
    requires LastAt(stack, v, i)
    requires forall x :: x in stack ==> x in onStack
    ensures rest == stack[..i] && Elements(comp) == Elements(stack[i..])
    ensures marks.Keys == onStack.Keys
    ensures forall x :: x in marks ==> marks[x] == (if x in Elements(stack[i..]) then false else onStack[x])
  {
    hide *;
    LastIs(stack, v, i);
    comp, rest, marks := [], stack, onStack;
    NonePopped(stack, onStack);
    var w := rest[|rest| - 1];
    PoppedMore(stack, onStack, |rest|, comp, marks);
    rest, marks, comp := rest[..|rest| - 1], marks[w := false], comp + [w];
    while w != v
      invariant i <= |rest| < |stack| && rest == stack[..|rest|] && w == stack[|rest|]
      invariant Popped(stack, onStack, |rest|, comp, marks)
      decreases |rest|
    {
      NotPast(stack, v, i, |rest|);
      PoppedMore(stack, onStack, |rest|, comp, marks);
      w := rest[|rest| - 1];
      rest, marks, comp := rest[..|rest| - 1], marks[w := false], comp + [w];
    }
    NotPast(stack, v, i, |rest|);
    AllPopped(stack, onStack, i, comp, marks);
  }

  /** Everything from `k` up is off the stack, unmarked, and in the component. */
  ghost predicate Popped(stack: seq<Ref>, onStack: map<Ref, bool>, k: int, comp: seq<Ref>, marks: map<Ref, bool>)
    requires 0 <= k <= |stack|
  {
    && Elements(comp) == Elements(stack[k..]) && marks.Keys == onStack.Keys
    && forall x :: x in marks ==> marks[x] == (if x in Elements(stack[k..]) then false else onStack[x])
  }

  lemma NonePopped(stack: seq<Ref>, onStack: map<Ref, bool>)
    ensures Popped(stack, onStack, |stack|, [], onStack)
  {
  }

  lemma AllPopped(stack: seq<Ref>, onStack: map<Ref, bool>, k: nat, comp: seq<Ref>, marks: map<Ref, bool>)
    requires k <= |stack| && Popped(stack, onStack, k, comp, marks)
    ensures Elements(comp) == Elements(stack[k..]) && marks.Keys == onStack.Keys
    ensures forall x :: x in marks ==> marks[x] == (if x in Elements(stack[k..]) then false else onStack[x])
  {
    hide Elements;
  }

  lemma NotPast(stack: seq<Ref>, v: Ref, i: nat, k: nat)
    requires LastAt(stack, v, i) && i <= k < |stack|
    ensures stack[k] == v <==> k == i
  {
  }

  lemma PoppedMore(stack: seq<Ref>, onStack: map<Ref, bool>, k: nat, comp: seq<Ref>, marks: map<Ref, bool>)
    requires 0 < k <= |stack| && Popped(stack, onStack, k, comp, marks) && stack[k - 1] in onStack
    ensures Popped(stack, onStack, k - 1, comp + [stack[k - 1]], marks[stack[k - 1] := false])
  {
    var w := stack[k - 1];
    assert stack[k - 1..] == [w] + stack[k..];
    assert Elements(stack[k - 1..]) == Elements(stack[k..]) + {w};
    assert Elements(comp + [w]) == Elements(comp) + {w};
  }

  /** Following one link of the top open rune: `next` moves on, and the rune at its end is
      opened, heard of, or passed over. */
  method Follow(g: Graph, ghost nodes: set<Ref>, index0: map<Ref, int>, low0: map<Ref, int>,
                onStack0: map<Ref, bool>, counter0: int, stack0: seq<Ref>, work0: seq<(Ref, nat)>,
                ghost done: set<Ref>)
      returns (index: map<Ref, int>, low: map<Ref, int>, onStack: map<Ref, bool>, counter: int,
               stack: seq<Ref>, work: seq<(Ref, nat)>)
    requires Closed(g, nodes) && index0.Keys <= nodes
    requires Inv(g, Search(index0, low0, stack0, work0, done), counter0)
    requires Marks(Search(index0, low0, stack0, work0, done), onStack0)
    requires work0 != [] && work0[|work0| - 1].0 in index0
    requires work0[|work0| - 1].1 < |Out(g, work0[|work0| - 1].0)|
    ensures Inv(g, Search(index, low, stack, work, done), counter)
    ensures Marks(Search(index, low, stack, work, done), onStack)
    ensures index0.Keys <= index.Keys <= nodes
    ensures |nodes - index.Keys| < |nodes - index0.Keys|
         || (index.Keys == index0.Keys && Left(g, work) < Left(g, work0))
  {
    hide Inv, Reach, Shape, Closed, Left, Marks;
    index, low, onStack, counter, stack, work := index0, low0, onStack0, counter0, stack0, work0;
    ghost var s := Search(index, low, stack, work, done);
    var n := |work| - 1;
    var v, next := work[n].0, work[n].1;
    LeftDrops(g, s, v);
    work := work[n := (v, next + 1)];
    var w := Out(g, v)[next].to;
    assert AtLink(g, s, v, w);
    assert Advanced(s) == Search(index, low, stack, work, done);
    if w !in index {
      OpenKeeps(g, s, counter, v, w);
      OpenMarks(s, onStack, w, counter);
      StaysInside(g, nodes, index, v, next);
      index, low, onStack := index[w := counter], low[w := counter], onStack[w := true];
      counter := counter + 1;
      stack, work := stack + [w], work + [(w, 0)];
      assert index.Keys == index0.Keys + {w};
    } else {
      SeenKeeps(g, s, counter, v, w);
      SeenMarks(s, onStack, v, w);
      if onStack[w] {
        low := low[v := if index[w] < low[v] then index[w] else low[v]];
      }
    }
  }

  lemma IsAtEnd(g: Graph, s: Search, v: Ref)
    requires s.work != [] && v == s.work[|s.work| - 1].0 && s.work[|s.work| - 1].1 == |Out(g, v)|
    requires v in s.low && v in s.index
    ensures AtEnd(g, s, v)
  {
  }

  lemma RootedIs(g: Graph, s: Search, v: Ref, i: nat)
    requires AtEnd(g, s, v) && s.low[v] == s.index[v] && i < |s.stack| && s.stack[i] == v
    ensures AtRoot(g, s, v, i) && s.work != []
    ensures Rooted(s, i) == Closes(s).(stack := s.stack[..i], done := s.done + Elements(s.stack[i..]))
  {
    hide Closes, Elements;
  }

  lemma ClosesIs(s: Search)
    requires s.work != [] && s.work[|s.work| - 1].0 in s.low
    requires |s.work| > 1 ==> s.work[|s.work| - 2].0 in s.low
    ensures var n, v := |s.work| - 1, s.work[|s.work| - 1].0;
      Closes(s) == Search(s.index,
        if n == 0 then s.low
        else
          s.low[s.work[n - 1].0 := if s.low[v] < s.low[s.work[n - 1].0] then s.low[v] else s.low[s.work[n - 1].0]],
        s.stack, s.work[..n], s.done)
  {
  }

  /** Closing the top open rune, with its component when it is the root of one. */
  method Close(g: Graph, index: map<Ref, int>, low0: map<Ref, int>, onStack0: map<Ref, bool>,
               ghost counter: int, stack0: seq<Ref>, work0: seq<(Ref, nat)>,
               components0: seq<seq<Ref>>, ghost done0: set<Ref>)
      returns (low: map<Ref, int>, onStack: map<Ref, bool>, stack: seq<Ref>, work: seq<(Ref, nat)>,
               components: seq<seq<Ref>>, ghost done: set<Ref>)
    requires Inv(g, Search(index, low0, stack0, work0, done0), counter)
    requires Marks(Search(index, low0, stack0, work0, done0), onStack0) && Listed(g, components0, done0)
    requires work0 != [] && !(work0[|work0| - 1].1 < |Out(g, work0[|work0| - 1].0)|)
    ensures Inv(g, Search(index, low, stack, work, done), counter)
    ensures Marks(Search(index, low, stack, work, done), onStack) && Listed(g, components, done)
    ensures done0 <= done && Left(g, work) < Left(g, work0)
  {
    hide *;
    onStack, stack, components, done := onStack0, stack0, components0, done0;
    ghost var s := Search(index, low0, stack0, work0, done0);
    var v := work0[|work0| - 1].0;
    LeftDrops(g, s, v);
    TopFacts(g, s, counter);
    IsAtEnd(g, s, v);
    low, work := Pop(s, low0, work0);
    if low0[v] == index[v] {
      ghost var i :| LastAt(stack, v, i);
      LastIs(stack, v, i);
      RootedIs(g, s, v, i);
      var comp, rest, marks := CloseRoot(g, s, counter, components, stack, onStack, v, i);
      stack, onStack, components := rest, marks, components + [comp];
      done := done + Elements(s.stack[i..]);
    } else {
      ClosesKeeps(g, s, counter, v);
      ClosesMarks(s, onStack);
    }
  }

  /** The top open rune leaves, telling the one below how low it reached. */
  method Pop(ghost s: Search, low0: map<Ref, int>, work0: seq<(Ref, nat)>)
      returns (low: map<Ref, int>, work: seq<(Ref, nat)>)
    requires s.work == work0 && s.low == low0 && work0 != [] && work0[|work0| - 1].0 in low0
    requires |work0| > 1 ==> work0[|work0| - 2].0 in low0
    ensures work == work0[..|work0| - 1]
    ensures Closes(s) == Search(s.index, low, s.stack, work, s.done)
  {
    hide *;
    ClosesIs(s);
    var n := |work0| - 1;
    var v := work0[n].0;
    low, work := low0, work0[..n];
    if work != [] {
      var parent := work[n - 1].0;
      low := low[parent := if low[v] < low[parent] then low[v] else low[parent]];
    }
  }

  lemma StartMarks(g: Graph, index: map<Ref, int>, low: map<Ref, int>, onStack: map<Ref, bool>, counter: int,
                   done: set<Ref>, start: Ref)
    requires Inv(g, Search(index, low, [], [], done), counter) && start !in index
    requires Marks(Search(index, low, [], [], done), onStack)
    ensures var s := Search(index[start := counter], low[start := counter], [start], [(start, 0)], done);
      Inv(g, s, counter + 1) && Marks(s, onStack[start := true])
  {
    hide Inv, Marks;
    var empty := Search(index, low, [], [], done);
    StartKeeps(g, empty, counter, start);
    OpenMarks(empty, onStack, start, counter);
    assert [] + [start] == [start] && [] + [(start, 0 as nat)] == [(start, 0 as nat)];
    assert Opened(empty, start, counter)
        == Search(index[start := counter], low[start := counter], [start], [(start, 0)], done);
  }

  /** The inner loop, from a rune not numbered yet until nothing is open. */
  method Visit(g: Graph, ghost nodes: set<Ref>, start: Ref, index0: map<Ref, int>, low0: map<Ref, int>,
               onStack0: map<Ref, bool>, counter0: int, components0: seq<seq<Ref>>, ghost done0: set<Ref>)
      returns (index: map<Ref, int>, low: map<Ref, int>, onStack: map<Ref, bool>, counter: int,
               components: seq<seq<Ref>>, ghost done: set<Ref>)
    requires Closed(g, nodes) && start in nodes && start !in index0 && index0.Keys <= nodes
    requires Inv(g, Search(index0, low0, [], [], done0), counter0)
    requires Marks(Search(index0, low0, [], [], done0), onStack0) && Listed(g, components0, done0)
    ensures Inv(g, Search(index, low, [], [], done), counter)
    ensures Marks(Search(index, low, [], [], done), onStack) && Listed(g, components, done)
    ensures index0.Keys <= index.Keys <= nodes && done0 <= done && start in index
  {
    hide Inv, Closed, Listed, Left, Marks, Out;
    StartMarks(g, index0, low0, onStack0, counter0, done0, start);
    index, low, onStack := index0[start := counter0], low0[start := counter0], onStack0[start := true];
    counter, components, done := counter0 + 1, components0, done0;
    var stack: seq<Ref>, work: seq<(Ref, nat)> := [start], [(start, 0)];
    while work != []
      invariant Inv(g, Search(index, low, stack, work, done), counter)
      invariant Marks(Search(index, low, stack, work, done), onStack) && Listed(g, components, done)
      invariant index0.Keys <= index.Keys <= nodes && done0 <= done && start in index
      decreases |nodes - index.Keys|, Left(g, work)
    {
      TopFacts(g, Search(index, low, stack, work, done), counter);
      assert work[|work| - 1].0 in index;
      if work[|work| - 1].1 < |Out(g, work[|work| - 1].0)| {
        index, low, onStack, counter, stack, work :=
          Follow(g, nodes, index, low, onStack, counter, stack, work, done);
      } else {
        low, onStack, stack, work, components, done :=
          Close(g, index, low, onStack, counter, stack, work, components, done);
      }
    }
    EndEmpty(g, Search(index, low, stack, work, done), counter);
  }

  /** The strongly connected components of the runes in `nodes`, whatever order the runes
      are taken in. */
  method Components(g: Graph, nodes: set<Ref>) returns (components: seq<seq<Ref>>)
    requires Closed(g, nodes)
    ensures Listed(g, components, nodes)
  {
    hide Inv, Reach, Shape, Closed, Listed, IsComponent, Elements, Marks;
    var index: map<Ref, int>, low: map<Ref, int>, onStack: map<Ref, bool> := map[], map[], map[];
    var counter := 0;
    components := [];
    ghost var done: set<Ref> := {};
    var todo := nodes;
    BeginInv(g);
    while todo != {}
      invariant todo <= nodes && index.Keys <= nodes && nodes - todo <= index.Keys
      invariant Inv(g, Search(index, low, [], [], done), counter)
      invariant Marks(Search(index, low, [], [], done), onStack) && Listed(g, components, done)
    {
      var start :| start in todo;
      todo := todo - {start};
      ghost var before := index.Keys;
      if start !in index {
        AllDone(g, Search(index, low, [], [], done), counter);
        index, low, onStack, counter, components, done :=
          Visit(g, nodes, start, index, low, onStack, counter, components, done);
        AllDone(g, Search(index, low, [], [], done), counter);
      }
    }
    AllDone(g, Search(index, low, [], [], done), counter);
    assert done == nodes;
  }

  lemma BeginInv(g: Graph)
    ensures Inv(g, Search(map[], map[], [], [], {}), 0)
    ensures Marks(Search(map[], map[], [], [], {}), map[]) && Listed(g, [], {})
  {
  }

  lemma AllDone(g: Graph, s: Search, counter: int)
    requires Inv(g, s, counter) && s.stack == []
    ensures s.index.Keys == s.done
  {
    hide Tree, Mutual, Heard, Lows;
  }

  lemma EndEmpty(g: Graph, s: Search, counter: int)
    requires Inv(g, s, counter) && s.work == []
    ensures s.stack == []
  {
    hide Tree, Mutual, Heard, Lows;
  }

  lemma StaysInside(g: Graph, nodes: set<Ref>, index: map<Ref, int>, v: Ref, i: nat)
    requires Closed(g, nodes) && v in index && index.Keys <= nodes && i < |Out(g, v)|
    requires Out(g, v)[i].to !in index
    ensures Out(g, v)[i].to in nodes
    ensures |nodes - (index.Keys + {Out(g, v)[i].to})| < |nodes - index.Keys|
  {
    var w := Out(g, v)[i].to;
    assert nodes - index.Keys == (nodes - (index.Keys + {w})) + {w};
  }

  lemma SeenMarks(s: Search, onStack: map<Ref, bool>, v: Ref, w: Ref)
    requires Marks(s, onStack) && s.work != [] && v in s.low && w in s.index
    ensures Marks(Seen(s, v, w), onStack) && w in onStack && onStack[w] == (w in s.stack)
  {
  }

  lemma ClosesMarks(s: Search, onStack: map<Ref, bool>)
    requires Marks(s, onStack) && s.work != []
    ensures Marks(Closes(s), onStack)
  {
  }

  /** Popping a component off the stack, at its root. */
  method CloseRoot(g: Graph, ghost s: Search, ghost counter: int, ghost components: seq<seq<Ref>>,
                   stack: seq<Ref>, onStack: map<Ref, bool>, v: Ref, ghost i: nat)
      returns (comp: seq<Ref>, rest: seq<Ref>, marks: map<Ref, bool>)
    requires Inv(g, s, counter) && Marks(s, onStack) && Listed(g, components, s.done) && AtRoot(g, s, v, i)
    requires stack == s.stack && LastAt(stack, v, i)
    ensures Inv(g, Rooted(s, i), counter) && Marks(Rooted(s, i), marks)
    ensures rest == s.stack[..i] && Elements(comp) == Elements(s.stack[i..])
    ensures Listed(g, components + [comp], s.done + Elements(s.stack[i..]))
  {
    hide Reach, Closed, Listed, IsComponent, Elements, Tree, Mutual, Heard, Lows, StackRises, WorkRises;
    comp, rest, marks := PopTo(stack, onStack, v, i);
    RootKeeps(g, s, counter, v, i);
    RootMarks(g, s, onStack, counter, v, i, marks);
    RootIsComponent(g, s, counter, v, i);
    ListedMore(g, components, s.done, comp);
  }
}
