/** The one primitive of the merge layer: a map of tagged adds and a set of retired
    tags, joined by union. */
module OrSets {
  import opened Bytes

  datatype OrSet<V> = OrSet(adds: map<Text, V>, removes: set<Text>)

  const EMPTY_SET: OrSet<Text> := OrSet(map[], {})

  /** Tags added and not retired. */
  function LiveTags<V>(s: OrSet<V>): set<Text>
  {
    s.adds.Keys - s.removes
  }

  /** `values()`: what the live tags hold, each value once. */
  function Values<V>(s: OrSet<V>): set<V>
  {
    set t | t in s.adds && t !in s.removes :: s.adds[t]
  }

  /** `join`: union on both members; the right side wins on a shared tag. */
  function Join<V>(a: OrSet<V>, b: OrSet<V>): OrSet<V>
  {
    OrSet(a.adds + b.adds, a.removes + b.removes)
  }

  /** A tag both sides added names one value. */
  ghost predicate Agree<V>(a: OrSet<V>, b: OrSet<V>)
  {
    forall t :: t in a.adds && t in b.adds ==> a.adds[t] == b.adds[t]
  }

  lemma SetsAssociate<V>(a: OrSet<V>, b: OrSet<V>, c: OrSet<V>)
    ensures Join(Join(a, b), c) == Join(a, Join(b, c))
  {
    assert (a.adds + b.adds) + c.adds == a.adds + (b.adds + c.adds);
    assert (a.removes + b.removes) + c.removes == a.removes + (b.removes + c.removes);
  }

  lemma SetsIdempotent<V>(a: OrSet<V>)
    ensures Join(a, a) == a
  {
    assert a.adds + a.adds == a.adds;
  }

  /** Sets join the same way round or the other exactly when shared tags agree. */
  lemma SetsCommuteIff<V>(a: OrSet<V>, b: OrSet<V>)
    ensures Join(a, b) == Join(b, a) <==> Agree(a, b)
  {
    if Agree(a, b) {
      assert a.adds + b.adds == b.adds + a.adds;
      assert a.removes + b.removes == b.removes + a.removes;
    } else {
      var t :| t in a.adds && t in b.adds && a.adds[t] != b.adds[t];
      assert (a.adds + b.adds)[t] != (b.adds + a.adds)[t];
    }
  }
}
