/** One device's copy: its document, the id it mints tags under, and its counter. */
module Replicas {
  import opened Bytes
  import opened Conflicts
  import opened Docs
  import Editors
  import opened Edits
  import opened Options
  import opened OrSets
  import PlaceNames
  import opened Policies
  import opened Spelling
  import opened Tags

  datatype MergeResult = Merged | Invalid | IdentityCollision

  /** What an application hands over: a state, or one that turned out unreadable after some
      tags had been minted. */
  datatype Input = Readable(state: State) | Broken(burnt: nat)

  /** `2^53`, the largest counter a saved replica may carry. */
  const MAX_COUNTER := 0x20_0000_0000_0000

  // ---------------------------------------------------------------------------
  // What a tag names
  // ---------------------------------------------------------------------------

  /** Every add of one tag is a reading of what it names; a document well kept has one. */
  ghost predicate MayDiffer(d: Doc, remote: Doc, t: Text)
  {
    exists p, v :: Added(remote, p, t, v) && DiffersFrom(d, t, NamedText(p, v))
  }

  ghost predicate DiffersFrom(d: Doc, t: Text, named: Text)
  {
    !Names(d, t) || exists q, w :: Added(d, q, t, w) && NamedText(q, w) != named
  }

  ghost predicate MayMatch(d: Doc, remote: Doc, t: Text)
  {
    exists p, v, q, w :: Added(remote, p, t, v) && Added(d, q, t, w) && NamedText(q, w) == NamedText(p, v)
  }

  /** A tag of `id`'s the replica never minted, or minted for something else. */
  ghost predicate Betrays(d: Doc, remote: Doc, id: Text, t: Text)
  {
    HasTag(remote, t) && OwnCounter(t, id).Some? && (!HasTag(d, t) || MayDiffer(d, remote, t))
  }

  ghost predicate Vouched(d: Doc, remote: Doc, t: Text)
  {
    HasTag(d, t) && (Names(remote, t) ==> MayMatch(d, remote, t))
  }

  /** When each document gives every tag one name, a tag betrays exactly when it is not
      vouched for. */
  lemma VouchedOrBetrays(d: Doc, remote: Doc, id: Text, t: Text)
    requires OneName(d, d) && OneName(remote, remote) && HasTag(remote, t) && OwnCounter(t, id).Some?
    ensures Betrays(d, remote, id, t) <==> !Vouched(d, remote, t)
  {
    hide Added, NamedText, OwnCounter, HasTag;
    if Names(remote, t) && !MayMatch(d, remote, t) {
      var p, v :| Added(remote, p, t, v);
      assert DiffersFrom(d, t, NamedText(p, v)) by {
        if Names(d, t) {
          var q, w :| Added(d, q, t, w);
          assert NamedText(q, w) != NamedText(p, v);
        }
      }
    }
  }

  ghost predicate Refuses(d: Doc, remote: Doc, id: Text)
  {
    exists t :: Betrays(d, remote, id, t)
  }

  /** What the replica takes in, by vouching for each tag of its own, is what is not refused. */
  lemma VouchedIsTaken(d: Doc, remote: Doc, id: Text)
    requires OneName(d, d) && OneName(remote, remote)
    ensures !Refuses(d, remote, id) <==>
      forall t :: HasTag(remote, t) && OwnCounter(t, id).Some? ==> Vouched(d, remote, t)
  {
    hide OneName, HasTag, Vouched, OwnCounter, MayDiffer;
    forall t | HasTag(remote, t) && OwnCounter(t, id).Some?
      ensures Betrays(d, remote, id, t) <==> !Vouched(d, remote, t)
    {
      VouchedOrBetrays(d, remote, id, t);
    }
  }

  /** A tag of `id`'s the replica has no record of, or that names another place or value here. */
  ghost predicate Reused(d: Doc, remote: Doc, id: Text, t: Text)
  {
    && HasTag(remote, t) && OwnCounter(t, id).Some?
    && (!HasTag(d, t) || exists p, v :: Added(remote, p, t, v) && !Added(d, p, t, v))
  }

  ghost predicate PlainDoc(d: Doc)
  {
    forall p :: p in d ==> PlainPlace(p)
  }

  /** Each tag names one place and one value, and names are plain. */
  ghost predicate WellNamed(d: Doc)
  {
    OneName(d, d) && PlainDoc(d)
  }

  /** Where names are plain, the spelled comparison notices every reused tag and no other. */
  lemma ReuseIsNoticed(d: Doc, remote: Doc, id: Text, t: Text)
    requires OneName(d, d) && PlainDoc(d) && PlainDoc(remote)
    ensures Betrays(d, remote, id, t) <==> Reused(d, remote, id, t)
  {
    hide NamedText, PlainPlace, OwnCounter, HasTag;
    forall p, v | Added(remote, p, t, v)
      ensures DiffersFrom(d, t, NamedText(p, v)) <==> !Added(d, p, t, v)
    {
      forall q, w | Added(d, q, t, w)
        ensures NamedText(q, w) == NamedText(p, v) <==> q == p && w == v
      {
        NamesTellApart(q, w, p, v);
      }
    }
  }

  lemma RefusedIffReused(d: Doc, remote: Doc, id: Text)
    requires OneName(d, d) && PlainDoc(d) && PlainDoc(remote)
    ensures Refuses(d, remote, id) <==> exists t :: Reused(d, remote, id, t)
  {
    hide Betrays, Reused, OneName, PlainDoc;
    forall t ensures Betrays(d, remote, id, t) <==> Reused(d, remote, id, t) { ReuseIsNoticed(d, remote, id, t); }
  }

  /** Without plain names reuse can go unnoticed: a tag given to a rune here, and there to a mantle
      named after that rune's path, is taken for one change. Both documents are valid and name
      each tag once. */
  lemma ReuseGoesUnnoticed(id: Text, n: nat, x: Text, y: Text, v: Text)
    requires ValidId(id) && n / 10 <= DIGIT_LIMIT && x != [] && y != []
    ensures var t := Mint(id, n);
      var d := map[Place(Rune(x, y), Present) := OrSet(map[t := v], {})];
      var remote := map[Place(Mantle(x + PlaceNames.Chars("/runes/") + y), Present) := OrSet(map[t := v], {})];
      && Validate(d) && Validate(remote) && OneName(d, d) && OneName(remote, remote)
      && Reused(d, remote, id, t) && !Refuses(d, remote, id)
  {
    hide NamedText, Mint, OwnCounter, PlaceNames.Chars, ValidId;
    var t := Mint(id, n);
    var p, q := Place(Rune(x, y), Present), Place(Mantle(x + PlaceNames.Chars("/runes/") + y), Present);
    var d, remote := map[p := OrSet(map[t := v], {})], map[q := OrSet(map[t := v], {})];
    OwnMint(id, id, n);
    MintParts(id, n);
    PathsCollide(x, y, Present, v);
    assert Added(d, p, t, v) && Added(remote, q, t, v) && !Added(d, q, t, v);
    forall u, a, b | Added(remote, a, u, b) ensures u == t && !DiffersFrom(d, u, NamedText(a, b)) {}
  }

  /** `collect_adds`: for every add, the tag and what it names. */
  method CollectAdds(d: Doc) returns (named: map<Text, Text>)
    ensures forall t :: t in named <==> Names(d, t)
    ensures forall t :: t in named ==> exists p, v :: Added(d, p, t, v) && named[t] == NamedText(p, v)
  {
    hide NamedText;
    named := map[];
    var places := d.Keys;
    while places != {}
      invariant places <= d.Keys
      invariant forall t :: t in named <==> exists p, v :: Added(d, p, t, v) && p !in places
      invariant forall t :: t in named ==> exists p, v :: Added(d, p, t, v) && named[t] == NamedText(p, v)
    {
      var p :| p in places;
      var more := map t | t in d[p].adds :: NamedText(p, d[p].adds[t]);
      MoreNamed(d, places, p, named, more);
      named := named + more;
      places := places - {p};
    }
    forall t ensures t in named <==> Names(d, t) {
      if Names(d, t) {
        var p, v :| Added(d, p, t, v);
        assert p !in places;
      }
    }
  }

  lemma MoreNamed(d: Doc, places: set<Place>, p: Place, named: map<Text, Text>, more: map<Text, Text>)
    requires p in places && p in d && more == map t | t in d[p].adds :: NamedText(p, d[p].adds[t])
    requires forall t :: t in named <==> exists q, v :: Added(d, q, t, v) && q !in places
    requires forall t :: t in named ==> exists q, v :: Added(d, q, t, v) && named[t] == NamedText(q, v)
    ensures forall t :: t in named + more <==> exists q, v :: Added(d, q, t, v) && q !in places - {p}
    ensures forall t :: t in named + more ==> exists q, v :: Added(d, q, t, v) && (named + more)[t] == NamedText(q, v)
  {
    hide NamedText;
    forall t ensures t in named + more <==> exists q, v :: Added(d, q, t, v) && q !in places - {p} {
      if t in more {
        assert Added(d, p, t, d[p].adds[t]) && p !in places - {p};
      } else if t in named {
        var q, v :| Added(d, q, t, v) && q !in places;
        assert q !in places - {p};
      }
      if q, v :| Added(d, q, t, v) && q !in places - {p} {
        assert q == p || q !in places;
      }
    }
    forall t | t in named + more ensures exists q, v :: Added(d, q, t, v) && (named + more)[t] == NamedText(q, v) {
      if t in more { assert Added(d, p, t, d[p].adds[t]); }
    }
  }

  /** `highest_counter`. */
  method HighestOf(d: Doc) returns (n: nat)
    ensures n == HighestCounter(d) && n <= 0x100_0000_0000
    ensures forall t :: HasTag(d, t) && StampOf(t).n <= 0x100_0000_0000 ==> StampOf(t).n <= n
    ensures n > 0 ==> exists t :: HasTag(d, t) && StampOf(t).n == n
  {
    hide StampOf, AllTags, HasTag;
    forall t ensures t in AllTags(d) <==> HasTag(d, t) { AllTagsAre(d, t); }
    var tags := AllTags(d);
    var todo := tags;
    n := 0;
    while todo != {}
      invariant todo <= tags && IsHighest(n, tags - todo)
    {
      var t :| t in todo;
      var c := StampOf(t).n;
      HigherWith(n, tags - todo, t);
      if c <= LAMPORT_CEILING && c > n { n := c; }
      assert tags - (todo - {t}) == tags - todo + {t};
      todo := todo - {t};
    }
    assert tags - {} == tags;
    HighestUnique(tags, n, HighestCounter(d));
  }

  lemma HigherWith(n: nat, tags: set<Text>, t: Text)
    requires IsHighest(n, tags)
    ensures var c := StampOf(t).n;
      IsHighest(if c <= LAMPORT_CEILING && c > n then c else n, tags + {t})
  {
    hide StampOf;
    var all := tags + {t};
    assert t in all;
    if u :| u in tags && StampOf(u).n == n <= LAMPORT_CEILING { assert u in all; }
  }

  /** Refusing and vouching settle the same question, read either way. */
  lemma Verdict(d: Doc, remote: Doc, id: Text)
    ensures OneName(d, d) && OneName(remote, remote) ==>
      (!Refuses(d, remote, id) <==> forall t :: HasTag(remote, t) && OwnCounter(t, id).Some? ==> Vouched(d, remote, t))
    ensures OneName(d, d) && PlainDoc(d) && PlainDoc(remote) ==>
      (Refuses(d, remote, id) <==> exists t :: Reused(d, remote, id, t))
  {
    hide *;
    if OneName(d, d) && OneName(remote, remote) { VouchedIsTaken(d, remote, id); }
    if OneName(d, d) && PlainDoc(d) && PlainDoc(remote) { RefusedIffReused(d, remote, id); }
  }

  lemma ClashBetrays(d: Doc, remote: Doc, id: Text, t: Text, mine: map<Text, Text>, theirs: map<Text, Text>)
    requires HasTag(remote, t) && OwnCounter(t, id).Some?
    requires forall u :: u in mine <==> Names(d, u)
    requires t in mine ==> exists p, v :: Added(d, p, t, v) && mine[t] == NamedText(p, v)
    requires t in theirs ==> exists p, v :: Added(remote, p, t, v) && theirs[t] == NamedText(p, v)
    requires !HasTag(d, t) || (t in theirs && (t !in mine || mine[t] != theirs[t]))
    ensures Betrays(d, remote, id, t) && Refuses(d, remote, id)
  {
    hide NamedText, Added, HasTag, OwnCounter;
    if HasTag(d, t) {
      var p, v :| Added(remote, p, t, v) && theirs[t] == NamedText(p, v);
      assert DiffersFrom(d, t, NamedText(p, v));
    }
  }

  lemma MatchVouches(d: Doc, remote: Doc, t: Text, mine: map<Text, Text>, theirs: map<Text, Text>)
    requires HasTag(d, t) && (forall u :: u in theirs <==> Names(remote, u))
    requires t in mine ==> exists p, v :: Added(d, p, t, v) && mine[t] == NamedText(p, v)
    requires t in theirs ==> exists p, v :: Added(remote, p, t, v) && theirs[t] == NamedText(p, v)
    requires t in theirs ==> t in mine && mine[t] == theirs[t]
    ensures Vouched(d, remote, t)
  {
    hide NamedText, Added, HasTag;
  }

  lemma FreshLater(d: Doc, id: Text, n: nat, m: nat)
    requires FreshAbove(d, id, n) && n <= m
    ensures FreshAbove(d, id, m)
  {
    hide Mint, HasTag;
  }

  lemma RacedIsGone(d: Doc, r: Reading, c: Conflict)
    requires IsConflict(d, r, c) && c.DeletedWhileEdited?
    ensures !Alive(d, c.thing)
  {
    hide LiveBeneath;
  }

  /** No tag minted under `id` here has a counter too long to be read back. */
  ghost predicate Legible(d: Doc, id: Text)
  {
    forall k: nat :: k / 10 > DIGIT_LIMIT ==> !HasTag(d, Mint(id, k))
  }

  /** A merge that vouched for every tag of the replica's own leaves none past its counter. */
  lemma MergeStaysFresh(d: Doc, remote: Doc, id: Text, n: nat, m: nat)
    requires ValidId(id) && FreshAbove(d, id, n) && n <= m && Legible(remote, id)
    requires forall t :: HasTag(remote, t) && OwnCounter(t, id).Some? ==> Vouched(d, remote, t)
    ensures FreshAbove(JoinDocs(d, remote), id, m)
  {
    hide Mint, HasTag, OwnCounter, ValidId;
    forall k: nat | k > m ensures !HasTag(JoinDocs(d, remote), Mint(id, k)) {
      TagsOfJoin(d, remote, Mint(id, k));
      OwnMint(id, id, k);
    }
  }

  /** What a merge of two documents may hold under an id. */
  lemma TagsOfJoin(a: Doc, b: Doc, t: Text)
    ensures HasTag(JoinDocs(a, b), t) ==> HasTag(a, t) || HasTag(b, t)
  {
    JoinHolds(a, b);
  }

  // ---------------------------------------------------------------------------
  // The replica
  // ---------------------------------------------------------------------------

  class Replica {
    const id: Text
    var issued: nat
    var revision: nat
    var doc: Doc
    var reading: Reading

    /** No tag of this replica's own lies past its counter. */
    ghost predicate Valid()
      reads this
    {
      ValidId(id) && FreshAbove(doc, id, issued)
    }

    constructor (id: Text, issued: nat, doc: Doc, reading: Reading)
      ensures this.id == id && this.issued == issued && this.doc == doc && this.reading == reading && revision == 0
    {
      this.id := id;
      this.issued := issued;
      this.doc := doc;
      this.reading := reading;
      revision := 0;
    }

    /** `create`. */
    static method Create(id: Text, reading: Reading) returns (r: Replica?)
      ensures r != null <==> ValidId(id)
      ensures r != null ==> fresh(r) && r.Valid() && r.id == id && r.issued == 0 && r.doc == EMPTY_DOC
    {
      if !ValidId(id) { return null; }
      r := new Replica(id, 0, EMPTY_DOC, reading);
    }

    /** `fork`: the same document under a new id, the counter past every counter in it. */
    method Fork(newId: Text) returns (r: Replica?)
      ensures r != null <==> ValidId(newId) && newId != id
      ensures r != null ==> fresh(r) && r.id == newId && r.doc == doc && r.issued == HighestCounter(doc)
      ensures r != null && (forall k: nat :: !HasTag(doc, Mint(newId, k))) ==> r.Valid()
    {
      hide Mint, HighestCounter;
      if !ValidId(newId) || newId == id { return null; }
      var n := HighestOf(doc);
      r := new Replica(newId, n, doc, reading);
    }

    /** `observe`: the state recorded as this replica's own act, with its delta; or, of a state
        that cannot be read, nothing but the tags burnt on it. */
    method Observe(input: Input) returns (ok: bool, delta: Doc)
      requires Valid() && (input.Readable? ==> WellFormed(input.state))
      modifies this
      ensures Valid() && old(issued) <= issued && reading == old(reading)
      ensures ok <==> input.Readable?
      ensures ok ==> Observation(old(doc), doc, input.state, reading, id, old(issued), issued)
      ensures ok ==> JoinDocs(old(doc), delta) == doc && Below(delta, doc) && Editors.IsDelta(old(doc), delta, doc)
      ensures !ok ==> doc == old(doc) && issued == old(issued) + input.burnt
      ensures revision == old(revision) <==> doc == old(doc)
    {
      hide FreshAbove, Observation, JoinDocs, Below, WellFormed, ValidId, EditOf, Editors.OnlyNew, Editors.IsDelta;
      if input.Broken? {
        FreshLater(doc, id, issued, issued + input.burnt);
        issued := issued + input.burnt;
        return false, EMPTY_DOC;
      }
      var e := new Editors.Editor(doc, id, issued, reading);
      e.ObserveInto(input.state);
      StaysFresh(e.base, e.work, id, e.start, e.issued);
      Editors.EditIsAbove(e.base, e.work, id, e.start, e.issued);
      Editors.DeltaIsExact(e.base, e.delta, e.work);
      doc, issued := e.work, e.issued;
      if e.changes > 0 { revision := revision + 1; }
      return true, e.delta;
    }

    /** `merge`: nothing on a document that is not valid or betrays a reused identity;
        otherwise the join, and the counter moved past every counter seen. */
    method Merge(remote: Doc) returns (r: MergeResult)
      modifies this
      ensures reading == old(reading)
      ensures r == Invalid <==> !Validate(remote)
      ensures r != Merged ==> doc == old(doc) && issued == old(issued) && revision == old(revision)
      ensures r == IdentityCollision ==> Refuses(old(doc), remote, id)
      ensures r == Merged ==>
        forall t :: HasTag(remote, t) && OwnCounter(t, id).Some? ==> Vouched(old(doc), remote, t)
      ensures OneName(old(doc), old(doc)) && OneName(remote, remote) && Validate(remote) ==>
        (r == IdentityCollision <==> Refuses(old(doc), remote, id))
      ensures WellNamed(old(doc)) && WellNamed(remote) && Validate(remote) ==>
        (r == IdentityCollision <==> exists t :: Reused(old(doc), remote, id, t))
      ensures r == Merged ==> doc == JoinDocs(old(doc), remote) && revision == old(revision) + 1
      ensures r == Merged ==>
        issued == if HighestCounter(remote) > old(issued) then HighestCounter(remote) else old(issued)
      ensures old(Valid()) && (r == Merged ==> Legible(remote, id)) ==> Valid()
    {
      hide Legible, ValidId, FreshAbove, Validate, Names, HasTag, NamedText, OwnCounter, JoinDocs, HighestCounter,
        AllTags, OneName, PlainDoc, Reused, Betrays, Refuses, Vouched;
      if !Validate(remote) { return Invalid; }
      var mine, theirs := AllTags(doc), AllTags(remote);
      var myAdds := CollectAdds(doc);
      var theirAdds := CollectAdds(remote);
      forall t ensures (t in mine <==> HasTag(doc, t)) && (t in theirs <==> HasTag(remote, t)) {
        AllTagsAre(doc, t);
        AllTagsAre(remote, t);
      }
      var todo := theirs;
      while todo != {}
        invariant todo <= theirs
        invariant doc == old(doc) && issued == old(issued) && revision == old(revision) && reading == old(reading)
        invariant forall t :: t in theirs - todo && OwnCounter(t, id).Some? ==> Vouched(doc, remote, t)
      {
        var t :| t in todo;
        todo := todo - {t};
        if OwnCounter(t, id) == None { continue; }
        if t !in mine || (t in theirAdds && (t !in myAdds || myAdds[t] != theirAdds[t])) {
          ClashBetrays(doc, remote, id, t, myAdds, theirAdds);
          Verdict(doc, remote, id);
          return IdentityCollision;
        }
        MatchVouches(doc, remote, t, myAdds, theirAdds);
      }
      Verdict(doc, remote, id);
      var seen := HighestOf(remote);
      if Valid() && Legible(remote, id) {
        MergeStaysFresh(doc, remote, id, issued, if seen > issued then seen else issued);
      }
      doc := JoinDocs(doc, remote);
      if seen > issued { issued := seen; }
      revision := revision + 1;
      return Merged;
    }

    /** `resolve`, with its delta: nothing if the conflict is no longer there as given. */
    method Resolve(c: Conflict, choice: Choice) returns (ok: bool, delta: Doc)
      requires Valid()
      modifies this
      ensures Valid() && old(issued) <= issued && reading == old(reading)
      ensures ok <==> Fits(c, choice) && IsConflict(old(doc), reading, c)
      ensures ok ==> Settles(old(doc), doc, c, choice, id, old(issued), issued)
      ensures ok ==> JoinDocs(old(doc), delta) == doc && Below(delta, doc) && Editors.IsDelta(old(doc), delta, doc)
      ensures !ok ==> doc == old(doc) && issued == old(issued)
    {
      hide FreshAbove, IsConflict, EditOf, ValidId, LiveBeneath, JoinDocs, Below, Editors.OnlyNew, Editors.IsDelta;
      if !Fits(c, choice) { return false, EMPTY_DOC; }
      var now := ConflictsOf(doc, reading);
      if c !in now { return false, EMPTY_DOC; }
      var e := new Editors.Editor(doc, id, issued, reading);
      var p := PlaceOf(c);
      match choice {
        case Value(side) =>
          e.Overwrite(p, c.sides[side]);
        case Kept =>
          RacedIsGone(doc, reading, c);
          e.MakePresent(c.thing);
        case Deleted =>
          e.Remove(c.thing, true);
      }
      StaysFresh(e.base, e.work, id, e.start, e.issued);
      Editors.EditIsAbove(e.base, e.work, id, e.start, e.issued);
      Editors.DeltaIsExact(e.base, e.delta, e.work);
      doc, issued := e.work, e.issued;
      revision := revision + 1;
      return true, e.delta;
    }

    /** `from_bytes`: refused when the parts do not fit together, the counter behind the
        document above all. */
    static method Restore(id: Text, issued: nat, doc: Doc, reading: Reading) returns (r: Replica?)
      ensures r != null <==> ValidId(id) && issued <= MAX_COUNTER && Validate(doc) && !Behind(doc, id, issued)
      ensures r != null ==> fresh(r) && r.id == id && r.issued == issued && r.doc == doc
    {
      hide Validate, AllTags, OwnCounter, HasTag;
      if !ValidId(id) || issued > MAX_COUNTER || !Validate(doc) { return null; }
      var tags := AllTags(doc);
      forall t ensures t in tags <==> HasTag(doc, t) { AllTagsAre(doc, t); }
      if t :| t in tags && OwnCounter(t, id).Some? && OwnCounter(t, id).value > issued { return null; }
      r := new Replica(id, issued, doc, reading);
    }
  }

  /** A tag of the replica's own whose counter is past its counter. */
  ghost predicate Behind(d: Doc, id: Text, issued: nat)
  {
    exists t :: HasTag(d, t) && OwnCounter(t, id).Some? && OwnCounter(t, id).value > issued
  }
}
