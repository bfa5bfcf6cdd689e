/** How a register that holds more than one value is read: declared joins, applied when
    reading and never when merging. */
module Policies {
  import opened Bytes
  import opened Options
  import opened OrSets
  import opened Tags

  datatype FieldJoin = Conflict | Pick | Max | Latest

  datatype Live = Live(values: seq<Text>, conflicted: bool)

  /** `live_of`: the live values in byte order; more than one of them is a conflict. */
  function LiveOf(s: OrSet<Text>): Live
  {
    Live(Sorted(Values(s)), |Values(s)| > 1)
  }

  /** `m` is the largest number of `vs`, and of equal ones the first in byte order. */
  ghost predicate IsMax(m: Text, vs: set<Text>, number: Text -> Option<real>)
  {
    && m in vs && number(m).Some?
    && forall v :: v in vs && v != m ==>
         (number(v).Some? &&
          (number(v).value < number(m).value || (number(v).value == number(m).value && Less(m, v))))
  }

  ghost predicate Numeric(vs: set<Text>, number: Text -> Option<real>)
  {
    forall v :: v in vs ==> number(v).Some?
  }

  lemma MaxUnique(vs: set<Text>, number: Text -> Option<real>, m: Text, n: Text)
    requires IsMax(m, vs, number) && IsMax(n, vs, number)
    ensures m == n
  {
    if m != n { LessAsymmetric(m, n); }
  }

  lemma {:induction false} MaxExists(vs: set<Text>, number: Text -> Option<real>)
    requires vs != {} && Numeric(vs, number)
    ensures exists m :: IsMax(m, vs, number)
  {
    var v :| v in vs;
    if vs == {v} {
      assert IsMax(v, vs, number);
    } else {
      MaxExists(vs - {v}, number);
      var m :| IsMax(m, vs - {v}, number);
      LessTotal(v, m);
      if number(v).value > number(m).value || (number(v).value == number(m).value && Less(v, m)) {
        forall w | w in vs && w != v
          ensures number(w).value < number(v).value || (number(w).value == number(v).value && Less(v, w))
        {
          if w != m && Less(m, w) && Less(v, m) { LessTransitive(v, m, w); }
        }
        assert IsMax(v, vs, number);
      } else {
        assert IsMax(m, vs, number);
      }
    }
  }

  /** `t` is live and every other live tag has a smaller stamp. */
  ghost predicate IsLatest(t: Text, tags: set<Text>)
  {
    t in tags && forall u :: u in tags && u != t ==> StampLess(StampOf(u), StampOf(t))
  }

  lemma LatestUnique(tags: set<Text>, t: Text, u: Text)
    requires IsLatest(t, tags) && IsLatest(u, tags)
    ensures t == u
  {
    if t != u { StampTotal(StampOf(t), StampOf(u)); }
  }

  lemma {:induction false} LatestExists(tags: set<Text>)
    requires tags != {}
    ensures exists t :: IsLatest(t, tags)
  {
    var u :| u in tags;
    if tags == {u} {
      assert IsLatest(u, tags);
    } else {
      LatestExists(tags - {u});
      var t :| IsLatest(t, tags - {u});
      StampOrder(t, u);
      if StampLess(StampOf(t), StampOf(u)) {
        forall w | w in tags && w != u ensures StampLess(StampOf(w), StampOf(u)) {
          if w != t { StampTransitive(StampOf(w), StampOf(t), StampOf(u)); }
        }
        assert IsLatest(u, tags);
      } else {
        assert IsLatest(t, tags);
      }
    }
  }

  /** Two tags never share a stamp. */
  lemma StampOrder(t: Text, u: Text)
    ensures t == u || StampLess(StampOf(t), StampOf(u)) || StampLess(StampOf(u), StampOf(t))
    ensures !(StampLess(StampOf(t), StampOf(u)) && StampLess(StampOf(u), StampOf(t)))
  {
    StampTotal(StampOf(t), StampOf(u));
    assert StampOf(t).tag == t && StampOf(u).tag == u;
  }

  ghost function LatestTag(tags: set<Text>): (t: Text)
    requires tags != {}
    ensures IsLatest(t, tags)
  {
    LatestExists(tags);
    var t :| IsLatest(t, tags);
    t
  }

  ghost function MaxValue(vs: set<Text>, number: Text -> Option<real>): (m: Text)
    requires vs != {} && Numeric(vs, number)
    ensures IsMax(m, vs, number)
  {
    MaxExists(vs, number);
    var m :| IsMax(m, vs, number);
    m
  }

  /** What a register reads as: a single value stands whatever the policy; two or more are
      settled by it, or stand as a conflict. */
  ghost function Resolve(s: OrSet<Text>, how: FieldJoin, number: Text -> Option<real>): Live
  {
    if |Values(s)| <= 1 || how == Conflict then LiveOf(s)
    else if how == Pick then Live([Sorted(Values(s))[0]], false)
    else if how == Max then
      if Numeric(Values(s), number) then Live([MaxValue(Values(s), number)], false) else LiveOf(s)
    else
      assert LiveTags(s) != {} by { SomeLiveTag(s); }
      Live([s.adds[LatestTag(LiveTags(s))]], false)
  }

  lemma SomeLiveTag(s: OrSet<Text>)
    ensures LiveTags(s) == {} <==> Values(s) == {}
  {
    if t :| t in LiveTags(s) { assert s.adds[t] in Values(s); }
    if v :| v in Values(s) {
      var t :| t in s.adds && t !in s.removes && s.adds[t] == v;
      assert t in LiveTags(s);
    }
  }

  /** The value shown: the first of what the register reads as. */
  ghost function Shown(s: OrSet<Text>, how: FieldJoin, number: Text -> Option<real>): Option<Text>
  {
    var l := Resolve(s, how, number);
    if l.values == [] then None else Some(l.values[0])
  }

  /** A value is shown exactly when one is live; it is one of them, and the only one if
      there is only one. */
  lemma ShownIsLive(s: OrSet<Text>, how: FieldJoin, number: Text -> Option<real>)
    ensures Shown(s, how, number) == None <==> Values(s) == {}
    ensures Shown(s, how, number).Some? ==> Shown(s, how, number).value in Values(s)
    ensures forall v :: Values(s) == {v} ==> Shown(s, how, number) == Some(v)
  {
    hide Values, LiveTags, Sorted, StampOf, StampLess;
    SortedFirst(Values(s));
    SomeLiveTag(s);
    if |Values(s)| > 1 && how == Latest { LatestIsLive(s); }
  }

  lemma SortedFirst(vs: set<Text>)
    ensures Sorted(vs) == [] <==> vs == {}
    ensures vs != {} ==> Sorted(vs)[0] in vs
    ensures |vs| <= 1 && vs != {} ==> vs == {Sorted(vs)[0]}
    ensures |vs| == 0 <==> vs == {}
    ensures forall v :: vs == {v} ==> |vs| == 1
  {
    if vs != {} {
      assert Sorted(vs)[0] in Sorted(vs);
      var rest := vs - {Sorted(vs)[0]};
      assert |rest| == |vs| - 1;
    }
  }

  lemma LatestIsLive(s: OrSet<Text>)
    requires LiveTags(s) != {}
    ensures LatestTag(LiveTags(s)) in s.adds && s.adds[LatestTag(LiveTags(s))] in Values(s)
  {
    var t := LatestTag(LiveTags(s));
    assert t in LiveTags(s);
  }

  /** Left at Conflict or Pick, a register shows its least value. */
  lemma ShownLeast(s: OrSet<Text>, how: FieldJoin, number: Text -> Option<real>)
    requires (how == Conflict || how == Pick) && Values(s) != {}
    ensures Shown(s, how, number) == Some(Least(Values(s)))
  {
    hide Values;
  }

  /** What a register reads as, case by case: nothing when no value is live, the one value when
      one is; of more, what the declared join picks, and all of them in byte order as a conflict
      when none is declared, or when the largest was asked for and some value is no number. */
  lemma ReadsAs(s: OrSet<Text>, how: FieldJoin, number: Text -> Option<real>)
    ensures var l, vs := Resolve(s, how, number), Values(s);
      && (l.conflicted <==> |vs| > 1 && (how == Conflict || (how == Max && exists v :: v in vs && number(v) == None)))
      && (l.conflicted || |vs| <= 1 ==> Ascending(l.values) && forall v :: v in l.values <==> v in vs)
      && (!l.conflicted && |vs| > 1 ==>
            && |l.values| == 1
            && (how == Pick ==> l.values[0] in vs && forall v :: v in vs && v != l.values[0] ==> Less(l.values[0], v))
            && (how == Max ==> IsMax(l.values[0], vs, number))
            && (how == Latest ==> exists t :: IsLatest(t, LiveTags(s)) && l.values[0] == s.adds[t]))
  {
    hide Values, LiveTags, StampOf, StampLess;
    SortedAscending(Values(s));
    SortedHolds(Values(s));
    SomeLiveTag(s);
    var tags := LiveTags(s);
    if |Values(s)| > 1 && how == Latest {
      LatestIsLive(s);
      assert IsLatest(LatestTag(tags), tags);
    }
    var sorted := Sorted(Values(s));
    forall v | v in Values(s) && how == Pick && v != sorted[0] ensures Less(sorted[0], v) {
      assert v in sorted;
      var i :| 0 <= i < |sorted| && sorted[i] == v;
    }
    assert sorted != [] ==> sorted[0] in sorted;
  }

  /** `resolve`, as it runs over the values and over the tags. */
  method ResolveRegister(s: OrSet<Text>, how: FieldJoin, number: Text -> Option<real>) returns (l: Live)
    ensures l == Resolve(s, how, number)
  {
    l := LiveOf(s);
    if !l.conflicted { return; }
    SortedAscending(Values(s));
    SortedHolds(Values(s));
    SomeLiveTag(s);
    match how {
      case Conflict =>
      case Pick => l := Live([l.values[0]], false);
      case Max =>
        var best := Largest(l.values, number);
        if best.Some? {
          assert IsMax(best.value, Values(s), number);
          MaxUnique(Values(s), number, best.value, MaxValue(Values(s), number));
          l := Live([best.value], false);
        }
      case Latest =>
        var best := Newest(s);
        LatestUnique(LiveTags(s), best, LatestTag(LiveTags(s)));
        l := Live([s.adds[best]], false);
    }
  }

  /** The largest number, when every value is one: the first that no later one exceeds. */
  method Largest(values: seq<Text>, number: Text -> Option<real>) returns (best: Option<Text>)
    requires Ascending(values) && values != []
    ensures best.Some? ==> IsMax(best.value, ToSet(values), number)
    ensures best.None? <==> !Numeric(ToSet(values), number)
  {
    best := None;
    var allNumeric := true;
    var k := 0;
    while k < |values|
      invariant k <= |values|
      invariant allNumeric <==> Numeric(ToSet(values[..k]), number)
      invariant best.None? ==> forall i :: 0 <= i < k ==> number(values[i]).None?
      invariant best.Some? ==> number(best.value).Some? && exists i :: 0 <= i < k && values[i] == best.value
      invariant best.Some? ==> forall i :: 0 <= i < k && number(values[i]).Some? && values[i] != best.value ==>
        (number(values[i]).value < number(best.value).value
         || (number(values[i]).value == number(best.value).value && Less(best.value, values[i])))
    {
      var v := values[k];
      assert values[..k + 1] == values[..k] + [v];
      if number(v).None? {
        assert v in ToSet(values[..k + 1]);
        allNumeric := false;
      } else if best.None? || number(v).value > number(best.value).value {
        best := Some(v);
      }
      k := k + 1;
    }
    assert values[..k] == values;
    if !allNumeric {
      best := None;
    } else {
      assert values[0] in ToSet(values);
    }
  }

  /** The live tags among the first `k` of a list. */
  ghost function Seen(s: OrSet<Text>, tags: seq<Text>, k: nat): set<Text>
    requires k <= |tags|
  {
    LiveTags(s) * ToSet(tags[..k])
  }

  lemma SeenStep(s: OrSet<Text>, tags: seq<Text>, k: nat)
    requires k < |tags| && tags[k] in s.adds
    ensures tags[k] in s.removes ==> Seen(s, tags, k + 1) == Seen(s, tags, k)
    ensures tags[k] !in s.removes ==> Seen(s, tags, k + 1) == Seen(s, tags, k) + {tags[k]}
  {
    assert tags[..k + 1] == tags[..k] + [tags[k]];
  }

  lemma SeenEnds(s: OrSet<Text>)
    ensures var tags := Sorted(s.adds.Keys);
      && Seen(s, tags, 0) == {} && Seen(s, tags, |tags|) == LiveTags(s)
      && forall k :: 0 <= k < |tags| ==> tags[k] in s.adds
  {
    var tags := Sorted(s.adds.Keys);
    assert tags[..|tags|] == tags;
    assert forall k :: 0 <= k < |tags| ==> tags[k] in tags;
  }

  lemma OnlyOne(t: Text)
    ensures IsLatest(t, {} + {t})
  {
  }

  /** The live tag with the largest stamp, keeping the best so far. */
  method Newest(s: OrSet<Text>) returns (best: Text)
    requires LiveTags(s) != {}
    ensures best in s.adds && IsLatest(best, LiveTags(s))
  {
    hide *;
    var tags := Sorted(s.adds.Keys);
    SeenEnds(s);
    var found := false;
    best := [];
    for k := 0 to |tags|
      invariant found ==> best in s.adds && IsLatest(best, Seen(s, tags, k))
      invariant !found ==> Seen(s, tags, k) == {}
    {
      var t := tags[k];
      SeenStep(s, tags, k);
      if t in s.removes { continue; }
      if !found {
        OnlyOne(t);
        best, found := t, true;
      } else {
        StampOrder(best, t);
        var take := StampLess(StampOf(best), StampOf(t))
          || (!StampLess(StampOf(t), StampOf(best)) && Less(s.adds[best], s.adds[t]));
        LatestMoves(Seen(s, tags, k), best, t);
        if take { best := t; }
      }
    }
  }

  lemma LatestMoves(tags: set<Text>, t: Text, u: Text)
    requires IsLatest(t, tags)
    ensures t == u || StampLess(StampOf(t), StampOf(u)) ==> IsLatest(u, tags + {u})
    ensures t == u || StampLess(StampOf(u), StampOf(t)) ==> IsLatest(t, tags + {u})
  {
    if StampLess(StampOf(t), StampOf(u)) {
      forall w | w in tags && w != u ensures StampLess(StampOf(w), StampOf(u)) {
        if w != t { StampTransitive(StampOf(w), StampOf(t), StampOf(u)); }
      }
    }
  }
}
