/** Documents as the trees they are stored as, and the join of two such trees. */
module Trees {
  import opened Bytes
  import opened Options
  import opened OrSets

  /** JSON: text, anything else that is not a container by its printed form, lists, objects. */
  datatype Tree = Str(text: Text) | Other(printed: Text) | List(items: seq<Tree>) | Object(kids: map<Text, Tree>)

  const A: Text := [0x61]
  const R: Text := [0x72]

  // ---------------------------------------------------------------------------
  // Values as lowercase hex
  // ---------------------------------------------------------------------------

  function Digit(n: nat): byte
    requires n < 16
  {
    if n < 10 then 48 + n else 87 + n
  }

  function Nibble(c: byte): int
  {
    if 48 <= c <= 57 then c as int - 48 else if 97 <= c <= 102 then c as int - 87 else -1
  }

  /** `hexify`. */
  function Hex(v: Text): Text
  {
    if v == [] then [] else [Digit(v[0] / 16), Digit(v[0] % 16)] + Hex(v[1..])
  }

  /** `unhex_strict`: lowercase and even, or nothing. */
  function Unhex(h: Text): Option<Text>
  {
    if h == [] then Some([])
    else if |h| == 1 || Nibble(h[0]) < 0 || Nibble(h[1]) < 0 then None
    else match Unhex(h[2..])
      case None => None
      case Some(v) => Some([Nibble(h[0]) * 16 + Nibble(h[1])] + v)
  }

  lemma {:induction false} UnhexHex(v: Text)
    ensures Unhex(Hex(v)) == Some(v)
  {
    if v != [] {
      var h := Hex(v);
      UnhexHex(v[1..]);
      assert h[2..] == Hex(v[1..]);
      TwoDigits(v[0]);
      assert [v[0]] + v[1..] == v;
    }
  }

  /** Read strictly: the one spelling of each value, in lowercase, is read back, and no other text
      is. */
  lemma {:induction false} UnhexIff(h: Text, v: Text)
    ensures Unhex(h) == Some(v) <==> h == Hex(v)
  {
    UnhexHex(v);
    if |h| >= 2 && Unhex(h) == Some(v) {
      UnhexIff(h[2..], v[1..]);
      DigitBack(h[0]);
      DigitBack(h[1]);
      assert h == [h[0], h[1]] + h[2..];
    }
  }

  lemma DigitBack(c: byte)
    ensures Nibble(c) < 16 && (Nibble(c) >= 0 ==> Digit(Nibble(c)) == c)
  {
  }

  /** Two digits a byte, the high half first, `0` to `9` and then `a` to `f`. */
  lemma HexIs(c: byte)
    ensures var digits := "0123456789abcdef"; Hex([c]) == [digits[c / 16] as int, digits[c % 16] as int]
  {
    assert [c][1..] == [];
  }

  lemma TwoDigits(c: byte)
    ensures var a, b := Nibble(Digit(c / 16)), Nibble(Digit(c % 16)); a >= 0 && b >= 0 && a * 16 + b == c as int
  {
  }

  // ---------------------------------------------------------------------------
  // Sets in trees
  // ---------------------------------------------------------------------------

  /** `is_orset`: an object whose `a` is an object and whose `r` is a list. */
  predicate IsSet(t: Tree)
  {
    t.Object? && A in t.kids && t.kids[A].Object? && R in t.kids && t.kids[R].List?
  }

  predicate GoodAdd(key: Text, t: Tree)
  {
    key != [] && t.Str? && Unhex(t.text).Some?
  }

  /** `orset_from_json`: entries that do not read are skipped. */
  function ReadSet(t: Tree): OrSet<Text>
    requires IsSet(t)
  {
    OrSet(map k | k in t.kids[A].kids && GoodAdd(k, t.kids[A].kids[k]) :: Unhex(t.kids[A].kids[k].text).value,
          set x | x in t.kids[R].items && x.Str? && x.text != [] :: x.text)
  }

  function Strings(ts: seq<Text>): (r: seq<Tree>)
    ensures |r| == |ts| && forall i :: 0 <= i < |ts| ==> r[i] == Str(ts[i])
  {
    seq(|ts|, i requires 0 <= i < |ts| => Str(ts[i]))
  }

  /** `orset_to_json`. */
  function WriteSet(s: OrSet<Text>): (t: Tree)
    ensures IsSet(t)
  {
    var adds := Object(map k | k in s.adds :: Str(Hex(s.adds[k])));
    var removes := List(Strings(Sorted(s.removes)));
    assert A != R by { assert A[0] != R[0]; }
    Object(map[A := adds, R := removes])
  }

  ghost predicate Tagged(s: OrSet<Text>)
  {
    [] !in s.adds && [] !in s.removes
  }

  /** A set is read back as it was written. */
  lemma ReadWrite(s: OrSet<Text>)
    requires Tagged(s)
    ensures ReadSet(WriteSet(s)) == s
  {
    var t := WriteSet(s);
    assert A[0] != R[0];
    var adds, removes := t.kids[A].kids, t.kids[R].items;
    forall k | k in s.adds ensures GoodAdd(k, adds[k]) && Unhex(adds[k].text).value == s.adds[k] {
      UnhexHex(s.adds[k]);
    }
    forall x ensures x in ReadSet(t).removes <==> x in s.removes {
      var ts := Sorted(s.removes);
      if x in s.removes {
        var i :| 0 <= i < |ts| && ts[i] == x;
        assert removes[i] == Str(x);
        assert Str(x) in removes;
      }
      if x in ReadSet(t).removes {
        assert Str(x) in removes;
        var i :| 0 <= i < |removes| && removes[i] == Str(x);
        assert ts[i] in ts;
      }
    }
    assert ReadSet(t).adds == s.adds;
  }

  lemma ReadIsTagged(t: Tree)
    requires IsSet(t)
    ensures Tagged(ReadSet(t))
  {
  }

  // ---------------------------------------------------------------------------
  // The join
  // ---------------------------------------------------------------------------

  /** `node_rank`. */
  function Rank(t: Tree): nat
  {
    if IsSet(t) then 2 else if t.Object? then 3 else 1
  }

  /** Printing tells nodes that are not objects apart. */
  ghost predicate Faithful(shown: Tree -> Text)
  {
    forall a, b :: shown(a) == shown(b) ==> a == b
  }

  /** `join_node`: a fixed ranking between kinds, the smaller printed form between two nodes
      that are neither sets nor maps. */
  function JoinNode(a: Tree, b: Tree, shown: Tree -> Text): Tree
    decreases a
  {
    if Rank(a) != Rank(b) then if Rank(a) > Rank(b) then a else b
    else if Rank(a) == 2 then WriteSet(Join(ReadSet(a), ReadSet(b)))
    else if Rank(a) == 3 then
      Object(map k | k in a.kids.Keys + b.kids.Keys ::
        if k !in b.kids then a.kids[k] else if k !in a.kids then b.kids[k] else JoinNode(a.kids[k], b.kids[k], shown))
    else if Less(shown(b), shown(a)) then b
    else a
  }

  /** Of two kinds of node a map stands before a set and a set before anything else, whichever
      side it is on; of two that are neither, the one printed smaller stands. */
  lemma KindsRank(a: Tree, b: Tree, shown: Tree -> Text)
    ensures a.Object? && !IsSet(a) && (IsSet(b) || !b.Object?) ==> JoinNode(a, b, shown) == a == JoinNode(b, a, shown)
    ensures IsSet(a) && !b.Object? ==> JoinNode(a, b, shown) == a == JoinNode(b, a, shown)
    ensures !a.Object? && !b.Object? ==>
      var j := JoinNode(a, b, shown);
      (j == a || j == b) && !Less(shown(a), shown(j)) && !Less(shown(b), shown(j))
  {
    LessIrreflexive(shown(a));
    LessIrreflexive(shown(b));
    if Less(shown(b), shown(a)) { LessAsymmetric(shown(b), shown(a)); }
  }

  /** `normalize_node`: every set written the one way. */
  function Norm(t: Tree): Tree
  {
    if IsSet(t) then WriteSet(ReadSet(t))
    else if t.Object? then Object(map k | k in t.kids :: Norm(t.kids[k]))
    else t
  }

  // ---------------------------------------------------------------------------
  // What a tree means
  // ---------------------------------------------------------------------------

  datatype Meaning = Leaf(tree: Tree) | Set(s: OrSet<Text>) | Node(of: map<Text, Meaning>)

  function Mean(t: Tree): Meaning
  {
    if IsSet(t) then Set(ReadSet(t))
    else if t.Object? then Node(map k | k in t.kids :: Mean(t.kids[k]))
    else Leaf(t)
  }

  function Meet(x: Meaning, y: Meaning, shown: Tree -> Text): Meaning
    decreases x
  {
    match (x, y)
    case (Set(s), Set(u)) => Set(Join(s, u))
    case (Node(m), Node(n)) =>
      Node(map k | k in m.Keys + n.Keys ::
        if k !in n then m[k] else if k !in m then n[k] else Meet(m[k], n[k], shown))
    case (Leaf(a), Leaf(b)) => if Less(shown(b), shown(a)) then y else x
    case _ => if Weight(x) > Weight(y) then x else y
  }

  function Weight(x: Meaning): nat
  {
    match x
    case Leaf(_) => 1
    case Set(_) => 2
    case Node(_) => 3
  }

  /** No object that is not a set holds a list under `r`, so no join of two makes one. */
  predicate WellShaped(t: Tree)
  {
    t.Object? && !IsSet(t) ==>
      (R in t.kids ==> !t.kids[R].List?) && forall k :: k in t.kids ==> WellShaped(t.kids[k])
  }

  /** Joining trees joins what they mean. */
  lemma {:induction false} JoinMeans(a: Tree, b: Tree, shown: Tree -> Text)
    requires WellShaped(a) && WellShaped(b)
    ensures WellShaped(JoinNode(a, b, shown))
    ensures Mean(JoinNode(a, b, shown)) == Meet(Mean(a), Mean(b), shown)
    ensures JoinNode(a, b, shown).List? ==> a.List? || b.List?
    decreases a
  {
    hide ReadSet, WriteSet, Less;
    if Rank(a) != Rank(b) {
    } else if Rank(a) == 2 {
      var s := Join(ReadSet(a), ReadSet(b));
      ReadIsTagged(a);
      ReadIsTagged(b);
      assert Tagged(s);
      ReadWrite(s);
    } else if Rank(a) == 3 {
      forall k | k in a.kids && k in b.kids
        ensures WellShaped(JoinNode(a.kids[k], b.kids[k], shown))
        ensures Mean(JoinNode(a.kids[k], b.kids[k], shown)) == Meet(Mean(a.kids[k]), Mean(b.kids[k]), shown)
        ensures JoinNode(a.kids[k], b.kids[k], shown).List? ==> a.kids[k].List? || b.kids[k].List?
      {
        JoinMeans(a.kids[k], b.kids[k], shown);
      }
      MapMeans(a, b, shown);
    }
  }

  lemma MapMeans(a: Tree, b: Tree, shown: Tree -> Text)
    requires WellShaped(a) && WellShaped(b) && Rank(a) == 3 && Rank(b) == 3
    requires forall k :: k in a.kids && k in b.kids ==>
      && WellShaped(JoinNode(a.kids[k], b.kids[k], shown))
      && Mean(JoinNode(a.kids[k], b.kids[k], shown)) == Meet(Mean(a.kids[k]), Mean(b.kids[k]), shown)
      && (JoinNode(a.kids[k], b.kids[k], shown).List? ==> a.kids[k].List? || b.kids[k].List?)
    ensures WellShaped(JoinNode(a, b, shown))
    ensures Mean(JoinNode(a, b, shown)) == Meet(Mean(a), Mean(b), shown)
    ensures !JoinNode(a, b, shown).List?
  {
    hide JoinNode, Meet, Mean, WellShaped;
    var j := JoinNode(a, b, shown);
    MapJoin(a, b, shown);
    ShapedKids(a);
    ShapedKids(b);
    assert !IsSet(j);
    ShapedWhole(j);
    MeanOfMap(a);
    MeanOfMap(b);
    MeanOfMap(j);
    MeetOfMaps(Mean(a).of, Mean(b).of, shown);
    assert Mean(j).of == Meet(Mean(a), Mean(b), shown).of;
  }

  function JoinKids(a: Tree, b: Tree, shown: Tree -> Text, k: Text): Tree
    requires a.Object? && b.Object? && (k in a.kids || k in b.kids)
  {
    if k !in b.kids then a.kids[k] else if k !in a.kids then b.kids[k] else JoinNode(a.kids[k], b.kids[k], shown)
  }

  lemma MapJoin(a: Tree, b: Tree, shown: Tree -> Text)
    requires Rank(a) == 3 && Rank(b) == 3
    ensures var j := JoinNode(a, b, shown);
      && j.Object? && j.kids.Keys == a.kids.Keys + b.kids.Keys
      && forall k :: k in j.kids ==> j.kids[k] == JoinKids(a, b, shown, k)
  {
  }

  lemma ShapedKids(t: Tree)
    requires WellShaped(t) && Rank(t) == 3
    ensures R in t.kids ==> !t.kids[R].List?
    ensures forall k :: k in t.kids ==> WellShaped(t.kids[k])
  {
  }

  lemma ShapedWhole(t: Tree)
    requires t.Object? && !IsSet(t) && (R in t.kids ==> !t.kids[R].List?)
    requires forall k :: k in t.kids ==> WellShaped(t.kids[k])
    ensures WellShaped(t)
  {
  }

  lemma MeanOfMap(t: Tree)
    requires Rank(t) == 3
    ensures Mean(t).Node? && Mean(t).of.Keys == t.kids.Keys
    ensures forall k :: k in t.kids ==> Mean(t).of[k] == Mean(t.kids[k])
  {
  }

  lemma MeetOfMaps(m: map<Text, Meaning>, n: map<Text, Meaning>, shown: Tree -> Text)
    ensures var x := Meet(Node(m), Node(n), shown);
      && x.Node? && x.of.Keys == m.Keys + n.Keys
      && forall k :: k in x.of ==> x.of[k] == if k !in n then m[k] else if k !in m then n[k] else Meet(m[k], n[k], shown)
  {
  }

  /** The canonical form of a tree depends on what it means, and on nothing else. */
  lemma {:induction false} SameFormIffSameMeaning(a: Tree, b: Tree)
    requires WellShaped(a) && WellShaped(b)
    ensures Norm(a) == Norm(b) <==> Mean(a) == Mean(b)
  {
    FormMeans(a);
    FormMeans(b);
    if Mean(a) == Mean(b) {
      MeaningForms(a);
      MeaningForms(b);
    }
  }

  lemma {:induction false} FormMeans(t: Tree)
    requires WellShaped(t)
    ensures Mean(Norm(t)) == Mean(t) && (Norm(t).List? <==> t.List?)
  {
    hide ReadSet, WriteSet;
    if IsSet(t) {
      ReadIsTagged(t);
      ReadWrite(ReadSet(t));
    } else if t.Object? {
      forall k | k in t.kids ensures Mean(Norm(t.kids[k])) == Mean(t.kids[k]) && (Norm(t.kids[k]).List? <==> t.kids[k].List?) {
        FormMeans(t.kids[k]);
      }
      assert !IsSet(Norm(t));
      assert Mean(Norm(t)).of == Mean(t).of;
    }
  }

  /** A meaning written out as a tree. */
  function Form(x: Meaning): Tree
  {
    match x
    case Leaf(t) => t
    case Set(s) => WriteSet(s)
    case Node(m) => Object(map k | k in m :: Form(m[k]))
  }

  lemma {:induction false} MeaningForms(t: Tree)
    ensures Norm(t) == Form(Mean(t))
  {
    hide ReadSet, WriteSet;
    if !IsSet(t) && t.Object? {
      forall k | k in t.kids ensures Norm(t.kids[k]) == Form(Mean(t.kids[k])) { MeaningForms(t.kids[k]); }
      assert Norm(t).kids == Form(Mean(t)).kids;
    }
  }

  // ---------------------------------------------------------------------------
  // The laws
  // ---------------------------------------------------------------------------

  /** Wherever both hold a set, shared tags agree; different kinds always agree. */
  ghost predicate Agrees(x: Meaning, y: Meaning)
    decreases x
  {
    match (x, y)
    case (Set(s), Set(u)) => Agree(s, u)
    case (Node(m), Node(n)) => forall k :: k in m && k in n ==> Agrees(m[k], n[k])
    case _ => true
  }

  lemma {:induction false} MeetCommutesIff(x: Meaning, y: Meaning, shown: Tree -> Text)
    requires Faithful(shown)
    ensures Meet(x, y, shown) == Meet(y, x, shown) <==> Agrees(x, y)
    decreases x
  {
    hide Agree, Join;
    match (x, y) {
      case (Set(s), Set(u)) => SetsCommuteIff(s, u);
      case (Node(m), Node(n)) =>
        forall k | k in m && k in n ensures Meet(m[k], n[k], shown) == Meet(n[k], m[k], shown) <==> Agrees(m[k], n[k]) {
          MeetCommutesIff(m[k], n[k], shown);
        }
        var l, r := Meet(x, y, shown).of, Meet(y, x, shown).of;
        assert l.Keys == m.Keys + n.Keys && r.Keys == m.Keys + n.Keys;
        assert forall k :: k in m && k in n ==> l[k] == Meet(m[k], n[k], shown) && r[k] == Meet(n[k], m[k], shown);
        if Agrees(x, y) {
          assert l == r;
        } else {
          var k :| k in m && k in n && !Agrees(m[k], n[k]);
          assert l[k] != r[k];
        }
      case (Leaf(a), Leaf(b)) =>
        LessTotal(shown(a), shown(b));
        if Less(shown(a), shown(b)) { LessAsymmetric(shown(a), shown(b)); }
      case _ =>
    }
  }

  lemma {:induction false} MeetAssociates(x: Meaning, y: Meaning, z: Meaning, shown: Tree -> Text)
    requires Faithful(shown)
    ensures Meet(Meet(x, y, shown), z, shown) == Meet(x, Meet(y, z, shown), shown)
    decreases x
  {
    hide Join, Less;
    match (x, y, z) {
      case (Set(s), Set(u), Set(v)) => SetsAssociate(s, u, v);
      case (Node(m), Node(n), Node(o)) =>
        forall k | k in m && k in n && k in o
          ensures Meet(Meet(m[k], n[k], shown), o[k], shown) == Meet(m[k], Meet(n[k], o[k], shown), shown)
        {
          MeetAssociates(m[k], n[k], o[k], shown);
        }
        NodesAssociate(m, n, o, shown);
      case (Leaf(a), Leaf(b), Leaf(c)) => LeavesAssociate(a, b, c, shown);
      case _ => KindsAssociate(x, y, z, shown);
    }
  }

  lemma NodesAssociate(m: map<Text, Meaning>, n: map<Text, Meaning>, o: map<Text, Meaning>, shown: Tree -> Text)
    requires forall k :: k in m && k in n && k in o ==>
      Meet(Meet(m[k], n[k], shown), o[k], shown) == Meet(m[k], Meet(n[k], o[k], shown), shown)
    ensures Meet(Meet(Node(m), Node(n), shown), Node(o), shown) == Meet(Node(m), Meet(Node(n), Node(o), shown), shown)
  {
    var l := Meet(Meet(Node(m), Node(n), shown), Node(o), shown).of;
    var r := Meet(Node(m), Meet(Node(n), Node(o), shown), shown).of;
    assert l.Keys == m.Keys + n.Keys + o.Keys && r.Keys == m.Keys + n.Keys + o.Keys;
    forall k | k in l ensures l[k] == r[k] {}
  }

  lemma LeavesAssociate(a: Tree, b: Tree, c: Tree, shown: Tree -> Text)
    requires Faithful(shown)
    ensures Meet(Meet(Leaf(a), Leaf(b), shown), Leaf(c), shown) == Meet(Leaf(a), Meet(Leaf(b), Leaf(c), shown), shown)
  {
    LessTotal(shown(a), shown(b));
    LessTotal(shown(b), shown(c));
    LessTotal(shown(a), shown(c));
    LessChain(shown(a), shown(b), shown(c));
    LessChain(shown(c), shown(b), shown(a));
  }

  lemma LessChain(a: Text, b: Text, c: Text)
    ensures Less(a, b) && Less(b, c) ==> Less(a, c)
    ensures !(Less(a, b) && Less(b, a))
    ensures !(Less(b, c) && Less(c, b))
    ensures !(Less(a, c) && Less(c, a))
  {
    if Less(a, b) && Less(b, c) { LessTransitive(a, b, c); }
    if Less(a, b) { LessAsymmetric(a, b); }
    if Less(b, c) { LessAsymmetric(b, c); }
    if Less(a, c) { LessAsymmetric(a, c); }
  }

  lemma KindsAssociate(x: Meaning, y: Meaning, z: Meaning, shown: Tree -> Text)
    requires !(Weight(x) == Weight(y) == Weight(z))
    ensures Meet(Meet(x, y, shown), z, shown) == Meet(x, Meet(y, z, shown), shown)
  {
    hide Join, Less;
    MeetWeight(x, y, shown);
    MeetWeight(y, z, shown);
  }

  lemma MeetWeight(x: Meaning, y: Meaning, shown: Tree -> Text)
    ensures Weight(Meet(x, y, shown)) == if Weight(x) > Weight(y) then Weight(x) else Weight(y)
    ensures Weight(x) > Weight(y) ==> Meet(x, y, shown) == x
    ensures Weight(x) < Weight(y) ==> Meet(x, y, shown) == y
  {
  }

  /** Joining two well-shaped trees, kinds mismatched or not, comes to one canonical form
      either way round exactly when the tags they share agree. */
  lemma JoinCommutes(a: Tree, b: Tree, shown: Tree -> Text)
    requires WellShaped(a) && WellShaped(b) && Faithful(shown)
    ensures Norm(JoinNode(a, b, shown)) == Norm(JoinNode(b, a, shown)) <==> Agrees(Mean(a), Mean(b))
  {
    hide Norm, Mean, Meet, JoinNode, WellShaped;
    JoinMeans(a, b, shown);
    JoinMeans(b, a, shown);
    MeetCommutesIff(Mean(a), Mean(b), shown);
    SameFormIffSameMeaning(JoinNode(a, b, shown), JoinNode(b, a, shown));
  }

  lemma JoinGroups(a: Tree, b: Tree, c: Tree, shown: Tree -> Text)
    requires WellShaped(a) && WellShaped(b) && WellShaped(c) && Faithful(shown)
    ensures Norm(JoinNode(JoinNode(a, b, shown), c, shown)) == Norm(JoinNode(a, JoinNode(b, c, shown), shown))
  {
    hide Norm, Mean, Meet, JoinNode, WellShaped;
    JoinMeans(a, b, shown);
    JoinMeans(b, c, shown);
    JoinMeans(JoinNode(a, b, shown), c, shown);
    JoinMeans(a, JoinNode(b, c, shown), shown);
    MeetAssociates(Mean(a), Mean(b), Mean(c), shown);
    SameFormIffSameMeaning(JoinNode(JoinNode(a, b, shown), c, shown), JoinNode(a, JoinNode(b, c, shown), shown));
  }

  /** Joining a tree with itself keeps its kind. */
  lemma {:induction false} RepeatKeepsKind(t: Tree, shown: Tree -> Text)
    ensures var j := JoinNode(t, t, shown);
      j.List? == t.List? && j.Object? == t.Object? && IsSet(j) == IsSet(t)
  {
    hide ReadSet, WriteSet, Less;
    if Rank(t) == 3 {
      MapJoin(t, t, shown);
      forall k | k in t.kids
        ensures JoinNode(t.kids[k], t.kids[k], shown).List? == t.kids[k].List?
        ensures JoinNode(t.kids[k], t.kids[k], shown).Object? == t.kids[k].Object?
      {
        RepeatKeepsKind(t.kids[k], shown);
      }
    }
  }

  /** Joining any tree with itself, well shaped or not, changes nothing up to the canonical
      form. */
  lemma {:induction false} JoinRepeats(t: Tree, shown: Tree -> Text)
    ensures Norm(JoinNode(t, t, shown)) == Norm(t)
  {
    hide ReadSet, WriteSet, Less;
    RepeatKeepsKind(t, shown);
    if Rank(t) == 2 {
      ReadIsTagged(t);
      ReadWrite(ReadSet(t));
      SetsIdempotent(ReadSet(t));
    } else if Rank(t) == 3 {
      MapJoin(t, t, shown);
      forall k | k in t.kids ensures Norm(JoinNode(t.kids[k], t.kids[k], shown)) == Norm(t.kids[k]) {
        JoinRepeats(t.kids[k], shown);
      }
      assert Norm(JoinNode(t, t, shown)).kids == Norm(t).kids;
    }
  }

  /** The laws do not hold of any input whatever. A map holding only `a` joined with one
      holding only a list under `r` is read as a set, and then the grouping of three joins
      shows. */
  lemma MapsBecomeASet(shown: Tree -> Text)
    ensures var a, b, x := Object(map[A := Object(map[])]), Object(map[R := List([])]), Object(map[[0x78] := Str([])]);
      && Rank(a) == 3 && Rank(b) == 3 && Rank(JoinNode(a, b, shown)) == 2
      && Norm(JoinNode(JoinNode(a, b, shown), x, shown)) != Norm(JoinNode(a, JoinNode(b, x, shown), shown))
  {
    var X: Text := [0x78];
    var x := Object(map[X := Str([])]);
    assert A[0] != R[0] && A[0] != X[0] && R[0] != X[0];
    var a, b := Object(map[A := Object(map[])]), Object(map[R := List([])]);
    var ab := JoinNode(a, b, shown);
    assert ab.kids[A] == Object(map[]) && ab.kids[R] == List([]);
    assert JoinNode(ab, x, shown) == x;
    assert X in Norm(x).kids;
    var bx := JoinNode(b, x, shown);
    assert bx.kids.Keys == {R, X} && bx.kids[R] == List([]) && !IsSet(bx);
    var abx := JoinNode(a, bx, shown);
    assert abx.kids[A] == Object(map[]) && abx.kids[R] == List([]);
    assert IsSet(abx);
    assert X !in WriteSet(ReadSet(abx)).kids;
  }

  /** Nor when two sets add one tag with different values: the right side wins. */
  lemma RightSideWins(t: Text, v: Text, w: Text, shown: Tree -> Text)
    requires t != [] && v != w
    ensures var a, b := WriteSet(OrSet(map[t := v], {})), WriteSet(OrSet(map[t := w], {}));
      && Mean(JoinNode(a, b, shown)) == Set(OrSet(map[t := w], {}))
      && Mean(JoinNode(b, a, shown)) == Set(OrSet(map[t := v], {}))
  {
    hide ReadSet, WriteSet;
    var s, u: OrSet<Text> := OrSet(map[t := v], {}), OrSet(map[t := w], {});
    ReadWrite(s);
    ReadWrite(u);
    assert Join(s, u) == u && Join(u, s) == s;
    SetsMean(WriteSet(s), WriteSet(u), shown);
    SetsMean(WriteSet(u), WriteSet(s), shown);
  }

  lemma SetsMean(a: Tree, b: Tree, shown: Tree -> Text)
    requires IsSet(a) && IsSet(b)
    ensures Mean(JoinNode(a, b, shown)) == Set(Join(ReadSet(a), ReadSet(b)))
  {
    hide ReadSet, WriteSet;
    ReadIsTagged(a);
    ReadIsTagged(b);
    ReadWrite(Join(ReadSet(a), ReadSet(b)));
  }
}
