/** What leaves a device, set by set, and what reaches a peer that joins it in. */
module ExportLaws {
  import opened Bytes
  import opened Codec
  import opened Docs
  import opened Edits
  import opened Exports
  import opened Options
  import opened OrSets
  import PlaceNames

  // ---------------------------------------------------------------------------
  // What reaches a peer
  // ---------------------------------------------------------------------------

  /** A removal travels, even that of a withheld thing: once the exporter retired every presence
      a peer still had, the thing is gone at the peer too. */
  lemma RemovalTravels(d: Doc, y: Doc, share: ExportSet, r: Reading, thing: Thing)
    requires !Alive(d, thing) && (thing.Rune? ==> share(Mantle(thing.mantle)))
    requires forall t :: t in LiveTags(At(y, Place(thing, Present))) ==> t in At(d, Place(thing, Present)).removes
    ensures !Alive(JoinDocs(y, Export(d, share, r)), thing)
  {
    hide Leaks, Exists, JoinDocs;
    var p := Place(thing, Present);
    JoinedAt(y, Export(d, share, r));
    assert At(d, p).removes != {} ==> At(Export(d, share, r), p) == At(d, p);
    Retired(At(y, p), At(d, p));
    Retired(At(y, p), At(Export(d, share, r), p));
  }

  lemma Retired(s: OrSet<Text>, u: OrSet<Text>)
    ensures (forall t :: t in LiveTags(s) ==> t in u.removes) && Values(u) == {} ==> Values(Join(s, u)) == {}
  {
    if (forall t :: t in LiveTags(s) ==> t in u.removes) && Values(u) == {} {
      forall t | t in Join(s, u).adds ensures t in Join(s, u).removes {
        if t in u.adds && t !in u.removes { assert u.adds[t] in Values(u); }
        if t in s.adds { assert t in LiveTags(s) || t in s.removes; }
      }
    }
  }

  /** What is shared arrives whole: a peer that joins the export in holds the join of both sets. */
  lemma SharedArrives(d: Doc, y: Doc, share: ExportSet, r: Reading, p: Place)
    requires PlaceAllowed(p) && p.slot != EdgeSet
    requires p.thing.Glyph? || (share(p.thing) && (p.thing.Rune? ==> share(Mantle(p.thing.mantle))))
    ensures At(JoinDocs(y, Export(d, share, r)), p) == Join(At(y, p), At(d, p))
  {
    hide Leaks, Values, JoinDocs, PlaceAllowed;
    SetLeavesIff(d, share, r, p);
    JoinedAt(y, Export(d, share, r));
  }

  /** Nothing of a withheld thing is shown by what leaves, nor of anything in a withheld mantle. */
  lemma WithheldShowsNothing(d: Doc, share: ExportSet, r: Reading, p: Place)
    requires !p.thing.Glyph? && (share(p.thing) ==> p.thing.Rune? && !share(Mantle(p.thing.mantle)))
    ensures Values(At(Export(d, share, r), p)) == {}
  {
    hide Leaks;
    EmptyHasNone();
  }

  // ---------------------------------------------------------------------------
  // What an edge gives away
  // ---------------------------------------------------------------------------

  /** A thing is in a document when a set is stored at its path or below it. */
  lemma ExistsMeans(d: Doc, thing: Thing)
    ensures Exists(d, thing) <==> exists p :: p in d && PlaceNames.ThingKeys(thing) <= PlaceNames.PathOf(p)
  {
    hide PlaceNames.PathOf, PlaceNames.ThingKeys;
    if p :| p in d && (p.thing == thing || (thing.Mantle? && p.thing.Rune? && p.thing.mantle == thing.name)) {
      PathStarts(thing, p);
    }
    if p :| p in d && PlaceNames.ThingKeys(thing) <= PlaceNames.PathOf(p) { PathStarts(thing, p); }
  }

  lemma PathStarts(thing: Thing, p: Place)
    ensures PlaceNames.ThingKeys(thing) <= PlaceNames.PathOf(p) <==>
      p.thing == thing || (thing.Mantle? && p.thing.Rune? && p.thing.mantle == thing.name)
  {
    BeneathIsPath(thing, p);
  }

  /** The first member under a key, as `cJSON` finds it. */
  ghost predicate FirstUnder(pairs: seq<Member<Value>>, key: Text, v: Value)
  {
    exists i :: 0 <= i < |pairs| && pairs[i] == Member(key, v) && forall j :: 0 <= j < i ==> pairs[j].key != key
  }

  lemma {:induction false} LookupIsFirst(pairs: seq<Member<Value>>, key: Text, v: Value)
    ensures Lookup(pairs, key) == Some(v) <==> FirstUnder(pairs, key, v)
  {
    if pairs != [] && pairs[0].key != key {
      var rest := pairs[1..];
      LookupIsFirst(rest, key, v);
      if i :| 0 <= i < |rest| && rest[i] == Member(key, v) && forall j :: 0 <= j < i ==> rest[j].key != key {
        forall j | 0 <= j < i + 1 ensures pairs[j].key != key {
          if j > 0 { assert pairs[j] == rest[j - 1]; }
        }
        assert pairs[i + 1] == Member(key, v);
      }
      if i :| 0 <= i < |pairs| && pairs[i] == Member(key, v) && forall j :: 0 <= j < i ==> pairs[j].key != key {
        assert rest[i - 1] == Member(key, v);
        forall j | 0 <= j < i - 1 ensures rest[j].key != key { assert rest[j] == pairs[j + 1]; }
      }
    } else if pairs != [] {
      if FirstUnder(pairs, key, v) {
        var i :| 0 <= i < |pairs| && pairs[i] == Member(key, v) && forall j :: 0 <= j < i ==> pairs[j].key != key;
        assert i == 0;
      }
    }
  }

  /** Does some withheld rune of the mantle show this name? */
  ghost predicate HiddenName(d: Doc, share: ExportSet, r: Reading, mantle: Text, name: Text)
  {
    exists p ::
      p in d && p.thing.Rune? && p.thing.mantle == mantle && !share(p.thing) && NameShown(d, r, p.thing) == name
  }

  lemma HiddenIsWithheld(d: Doc, share: ExportSet, r: Reading, mantle: Text, name: Text)
    requires share(Mantle(mantle))
    ensures HiddenName(d, share, r, mantle, name) <==> WithheldName(d, share, r, mantle, name)
  {
    hide NameShown;
    if p :| p in d && p.thing.Rune? && p.thing.mantle == mantle && !share(p.thing) && NameShown(d, r, p.thing) == name {
      assert Exists(d, Rune(mantle, p.thing.id));
    }
  }

  /** An edge between two runes of its own shared mantle leaves unless one of the two names is
      one a withheld rune there shows. */
  lemma PlainEdgeLeavesIff(d: Doc, share: ExportSet, r: Reading, own: Text, t: Text, edge: Text,
                           pairs: seq<Member<Value>>, a: Text, b: Text)
    requires Added(d, Place(Mantle(own), EdgeSet), t, edge) && share(Mantle(own)) && Decode(edge) == Some(Map(pairs))
    requires FirstUnder(pairs, PlaceNames.Chars("from"), Str(a)) && FirstUnder(pairs, PlaceNames.Chars("to"), Str(b))
    ensures Added(Export(d, share, r), Place(Mantle(own), EdgeSet), t, edge) <==>
      !HiddenName(d, share, r, own, a) && !HiddenName(d, share, r, own, b)
  {
    hide WithheldName, HiddenName, PlaceNames.Chars, Decode, FirstUnder, Lookup, Exists;
    LookupIsFirst(pairs, PlaceNames.Chars("from"), Str(a));
    LookupIsFirst(pairs, PlaceNames.Chars("to"), Str(b));
    var ends := EndsOf(edge, own);
    assert ends == [(own, a), (own, b)];
    assert ends[0] == (own, a) && ends[1] == (own, b);
    HiddenIsWithheld(d, share, r, own, a);
    HiddenIsWithheld(d, share, r, own, b);
    LeavesUnlessLeaks(d, share, r, own, t, edge);
  }

  lemma LeavesUnlessLeaks(d: Doc, share: ExportSet, r: Reading, own: Text, t: Text, edge: Text)
    requires Added(d, Place(Mantle(own), EdgeSet), t, edge) && share(Mantle(own))
    ensures Added(Export(d, share, r), Place(Mantle(own), EdgeSet), t, edge) <==> !Leaks(d, share, r, own, edge)
  {
    hide Leaks, WasRemoved;
  }

  /** The text an object gives under a key: that of the first member under it, or `otherwise`
      when there is none or it is no text. */
  ghost predicate Gives(end: seq<Member<Value>>, key: Text, otherwise: Text, given: Text)
  {
    if exists s :: FirstUnder(end, key, Str(s)) then FirstUnder(end, key, Str(given)) else given == otherwise
  }

  lemma GivesText(end: seq<Member<Value>>, key: Text, otherwise: Text, given: Text)
    requires Gives(end, key, otherwise, given)
    ensures var x := Lookup(end, key); given == if x.Some? && x.value.Str? then x.value.text else otherwise
  {
    hide FirstUnder, Lookup;
    LookupIsFirst(end, key, Str(given));
    forall s ensures Lookup(end, key) == Some(Str(s)) <==> FirstUnder(end, key, Str(s)) {
      LookupIsFirst(end, key, Str(s));
    }
    var x := Lookup(end, key);
    assert x.Some? && x.value.Str? ==> FirstUnder(end, key, Str(x.value.text));
  }

  /** An edge with an end that is an object stays back when the mantle it gives, its own if it
      gives none, is withheld, or is shared and has a withheld rune that shows the name given. */
  lemma FarEdgeStays(d: Doc, share: ExportSet, r: Reading, own: Text, t: Text, edge: Text,
                     pairs: seq<Member<Value>>, from: bool, end: seq<Member<Value>>, mantle: Text, name: Text)
    requires Added(d, Place(Mantle(own), EdgeSet), t, edge) && share(Mantle(own)) && Decode(edge) == Some(Map(pairs))
    requires FirstUnder(pairs, PlaceNames.Chars(if from then "from" else "to"), Map(end))
    requires Gives(end, PlaceNames.Chars("mantle"), own, mantle) && Gives(end, PlaceNames.Chars("rune"), [], name)
    requires if share(Mantle(mantle)) then HiddenName(d, share, r, mantle, name)
      else exists p :: p in d && PlaceNames.ThingKeys(Mantle(mantle)) <= PlaceNames.PathOf(p)
    ensures !Added(Export(d, share, r), Place(Mantle(own), EdgeSet), t, edge)
  {
    hide WithheldName, HiddenName, PlaceNames.Chars, Decode, FirstUnder, Lookup, Exists, PlaceNames.PathOf;
    hide PlaceNames.ThingKeys, Gives;
    var key := PlaceNames.Chars(if from then "from" else "to");
    LookupIsFirst(pairs, key, Map(end));
    GivesText(end, PlaceNames.Chars("mantle"), own, mantle);
    GivesText(end, PlaceNames.Chars("rune"), [], name);
    var given := (mantle, name);
    assert EndUnder(pairs, key, own) == [given];
    var ends := EndsOf(edge, own);
    var i := if from then 0 else |ends| - 1;
    assert ends[i] == given;
    ExistsMeans(d, Mantle(mantle));
    if share(Mantle(mantle)) { HiddenIsWithheld(d, share, r, mantle, name); }
    assert EndLeaks(d, share, r, ends[i]);
    LeavesUnlessLeaks(d, share, r, own, t, edge);
  }
}
