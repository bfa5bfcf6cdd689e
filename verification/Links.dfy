/** Runes and resolved links, as src/canonical/links.cpp reads them out of a state. */
module Links {
  import opened Bytes

  datatype Ref = Ref(mantle: Text, id: Text)

  /** `RuneRef::operator<`. */
  predicate RefLess(a: Ref, b: Ref)
  {
    if a.mantle != b.mantle then Less(a.mantle, b.mantle) else Less(a.id, b.id)
  }

  lemma RefTotal(a: Ref, b: Ref)
    ensures a == b || RefLess(a, b) || RefLess(b, a)
    ensures !(RefLess(a, b) && RefLess(b, a)) && !RefLess(a, a)
  {
    LessTotal(a.mantle, b.mantle);
    LessTotal(a.id, b.id);
    if Less(a.mantle, b.mantle) { LessAsymmetric(a.mantle, b.mantle); }
    if Less(a.id, b.id) { LessAsymmetric(a.id, b.id); }
    LessIrreflexive(a.id);
  }

  lemma RefTransitive(a: Ref, b: Ref, c: Ref)
    requires RefLess(a, b) && RefLess(b, c)
    ensures RefLess(a, c)
  {
    if a.mantle != b.mantle && b.mantle != c.mantle {
      LessTransitive(a.mantle, b.mantle, c.mantle);
      if a.mantle == c.mantle { LessAsymmetric(a.mantle, b.mantle); }
    }
    if a.mantle == b.mantle == c.mantle { LessTransitive(a.id, b.id, c.id); }
  }

  /** Mantles come first, and runes of one mantle go by id. */
  lemma RefRanks(a: Ref, b: Ref)
    ensures Less(a.mantle, b.mantle) ==> RefLess(a, b)
    ensures a.mantle == b.mantle && Less(a.id, b.id) ==> RefLess(a, b)
  {
    LessIrreflexive(a.mantle);
  }

  datatype Link = Link(from: Ref, to: Ref, relation: Text, bytes: Text)

  /** A relation-label pattern: exact, or a trailing `*` (42) for a prefix. */
  predicate LabelMatches(pattern: Text, relation: Text)
  {
    if pattern != [] && pattern[|pattern| - 1] == 42 then pattern[..|pattern| - 1] <= relation
    else pattern == relation
  }

  /** A pattern takes the one relation it spells, and, ending in a star, every relation that begins
      as it does before the star; so a lone star takes any. */
  lemma LabelMeans(pattern: Text, relation: Text)
    ensures LabelMatches(pattern, relation) <==>
      pattern == relation || exists p, rest :: pattern == p + ['*' as int] && relation == p + rest
  {
    if LabelMatches(pattern, relation) && pattern != relation {
      var p := pattern[..|pattern| - 1];
      assert pattern == p + [42] && relation == p + relation[|p|..];
    }
    if p, rest: Text :| pattern == p + ['*' as int] && relation == p + rest {
      assert pattern[..|pattern| - 1] == p;
    }
  }

  predicate AnyMatches(patterns: seq<Text>, relation: Text)
  {
    exists i :: 0 <= i < |patterns| && LabelMatches(patterns[i], relation)
  }
}
