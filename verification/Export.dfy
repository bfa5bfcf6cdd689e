/** The shareable projection of a document: what may leave a device, and what may not. */
module Exports {
  import opened Bytes
  import opened Codec
  import opened Docs
  import opened Edits
  import opened Options
  import opened OrSets
  import PlaceNames
  import Policies

  /** Which mantles and runes the host shares. */
  type ExportSet = Thing -> bool

  /** The first member of an object under a key. */
  function Lookup(pairs: seq<Member<Value>>, key: Text): Option<Value>
  {
    if pairs == [] then None
    else if pairs[0].key == key then Some(pairs[0].value)
    else Lookup(pairs[1..], key)
  }

  /** `shown_name`: the name a rune shows, or the empty text. */
  ghost function NameShown(d: Doc, r: Reading, rune: Thing): Text
  {
    NameIn(FieldShown(d, r, rune, SpiritName))
  }

  function NameIn(shown: Option<Text>): Text
  {
    match shown
    case None => []
    case Some(v) =>
      match Decode(v)
      case Some(Str(name)) => name
      case _ => []
  }

  /** An endpoint of an edge in mantle `own`: the mantle and the rune name it gives, if it
      gives any. */
  function EndpointOf(end: Value, own: Text): Option<(Text, Text)>
  {
    match end
    case Str(rune) => Some((own, rune))
    case Map(pairs) =>
      var m := Lookup(pairs, PlaceNames.Chars("mantle"));
      var x := Lookup(pairs, PlaceNames.Chars("rune"));
      Some((if m.Some? && m.value.Str? then m.value.text else own,
            if x.Some? && x.value.Str? then x.value.text else []))
    case _ => None
  }

  /** Both ends of an edge value. */
  function EndsOf(edge: Text, own: Text): seq<(Text, Text)>
  {
    match Decode(edge)
    case Some(Map(pairs)) =>
      EndUnder(pairs, PlaceNames.Chars("from"), own) + EndUnder(pairs, PlaceNames.Chars("to"), own)
    case _ => []
  }

  function EndUnder(pairs: seq<Member<Value>>, key: Text, own: Text): seq<(Text, Text)>
  {
    match Lookup(pairs, key)
    case None => []
    case Some(end) => if EndpointOf(end, own).Some? then [EndpointOf(end, own).value] else []
  }

  /** A document holds a mantle or a rune when it holds any set of it, or of a rune in it. */
  predicate Exists(d: Doc, thing: Thing)
  {
    exists p :: p in d && (p.thing == thing || (thing.Mantle? && p.thing.Rune? && p.thing.mantle == thing.name))
  }

  predicate WasRemoved(d: Doc, thing: Thing)
  {
    var present := At(d, Place(thing, Present));
    Values(present) == {} && present.removes != {}
  }

  /** Is `name` one a withheld rune of this shared mantle shows? */
  ghost predicate WithheldName(d: Doc, share: ExportSet, r: Reading, mantle: Text, name: Text)
  {
    share(Mantle(mantle)) &&
    exists id :: Exists(d, Rune(mantle, id)) && !share(Rune(mantle, id)) && NameShown(d, r, Rune(mantle, id)) == name
  }

  predicate WithheldMantle(d: Doc, share: ExportSet, mantle: Text)
  {
    !share(Mantle(mantle)) && Exists(d, Mantle(mantle))
  }

  /** `names_withheld`, for an edge value: one of its ends gives a withheld mantle, or a name
      some withheld rune shows. */
  ghost predicate Leaks(d: Doc, share: ExportSet, r: Reading, own: Text, edge: Text)
  {
    exists i :: 0 <= i < |EndsOf(edge, own)| && EndLeaks(d, share, r, EndsOf(edge, own)[i])
  }

  ghost predicate EndLeaks(d: Doc, share: ExportSet, r: Reading, end: (Text, Text))
  {
    WithheldMantle(d, share, end.0) || WithheldName(d, share, r, end.0, end.1)
  }

  /** Which sets leave at all. Of a withheld thing only its removal does. */
  predicate Leaves(d: Doc, share: ExportSet, p: Place)
  {
    match p.thing
    case Glyph(_) => true
    case Mantle(_) =>
      if share(p.thing) then !p.slot.TagSet? else p.slot.Present? && WasRemoved(d, p.thing)
    case Rune(mantle, _) =>
      share(Mantle(mantle)) && (share(p.thing) || (p.slot.Present? && WasRemoved(d, p.thing)))
  }

  ghost function KeptEdges(d: Doc, share: ExportSet, r: Reading, own: Text, s: OrSet<Text>): OrSet<Text>
  {
    OrSet(map t | t in s.adds && !Leaks(d, share, r, own, s.adds[t]) :: s.adds[t], s.removes)
  }

  ghost function SetOut(d: Doc, share: ExportSet, r: Reading, p: Place): OrSet<Text>
    requires p in d
  {
    if p.thing.Mantle? && p.slot.EdgeSet? then KeptEdges(d, share, r, p.thing.name, d[p]) else d[p]
  }

  /** `exportable`. */
  ghost function Export(d: Doc, share: ExportSet, r: Reading): Doc
  {
    map p | p in d && Leaves(d, share, p) :: SetOut(d, share, r, p)
  }

  /** A thing that was removed and has not come back. */
  predicate Gone(d: Doc, thing: Thing)
  {
    !Alive(d, thing) && At(d, Place(thing, Present)).removes != {}
  }

  /** The sets that leave: every glyph's, a shared mantle's, a shared rune's of a shared mantle,
      and the presence of what was removed, be it a withheld mantle or a withheld rune of a
      shared one. Each leaves as it is, but for a mantle's edges. */
  lemma SetLeavesIff(d: Doc, share: ExportSet, r: Reading, p: Place)
    requires PlaceAllowed(p)
    ensures p in Export(d, share, r) <==>
      && p in d
      && (p.thing.Rune? ==> share(Mantle(p.thing.mantle)))
      && (p.thing.Glyph? || share(p.thing) || (p.slot == Present && Gone(d, p.thing)))
    ensures p in Export(d, share, r) && p.slot != EdgeSet ==> Export(d, share, r)[p] == d[p]
    ensures p in Export(d, share, r) ==> Export(d, share, r)[p].removes == d[p].removes
  {
    hide Leaks, Values;
  }

  /** Nothing leaves that is not in the document: joined back in, an export adds no tag. */
  lemma ExportIsBelow(d: Doc, share: ExportSet, r: Reading)
    ensures Below(Export(d, share, r), d)
    ensures JoinDocs(d, Export(d, share, r)) == d
  {
    hide Leaks, Leaves;
    JoinAbsorbs(Export(d, share, r), d);
  }

  /** An edge leaves exactly when it is in the document, of a shared mantle, and neither end
      gives a withheld mantle or a name a withheld rune shows. */
  lemma EdgeLeavesIff(d: Doc, share: ExportSet, r: Reading, own: Text, t: Text, edge: Text)
    ensures Added(Export(d, share, r), Place(Mantle(own), EdgeSet), t, edge) <==>
      Added(d, Place(Mantle(own), EdgeSet), t, edge) && share(Mantle(own))
      && forall i :: 0 <= i < |EndsOf(edge, own)| ==>
           (var end := EndsOf(edge, own)[i];
            && !WithheldMantle(d, share, end.0)
            && !(share(Mantle(end.0)) &&
                 (exists id :: Exists(d, Rune(end.0, id)) && !share(Rune(end.0, id))
                   && NameShown(d, r, Rune(end.0, id)) == end.1)))
  {
    hide EndsOf, WithheldMantle, NameShown, Exists;
  }

  /** Only the name a withheld rune shows is kept back. One it holds in a conflict, and does
      not show, leaves with the edge that gives it. */
  lemma HeldNameLeaves(d: Doc, share: ExportSet, r: Reading, own: Text, id: Text, t: Text, edge: Text, held: Text)
    requires Added(d, Place(Mantle(own), EdgeSet), t, edge) && share(Mantle(own))
    requires Exists(d, Rune(own, id)) && !share(Rune(own, id))
    requires held in Values(At(d, Place(Rune(own, id), Register(SpiritName))))
    requires EndsOf(edge, own) == [(own, NameIn(Some(held))), (own, NameIn(Some(held)))]
    requires !WithheldName(d, share, r, own, NameIn(Some(held)))
    ensures NameShown(d, r, Rune(own, id)) != NameIn(Some(held))
    ensures Added(Export(d, share, r), Place(Mantle(own), EdgeSet), t, edge)
  {
    hide EndsOf, NameIn, Exists, Values;
    assert !EndLeaks(d, share, r, EndsOf(edge, own)[0]) && !EndLeaks(d, share, r, EndsOf(edge, own)[1]);
  }

  /** Sets that do not leave and on which nothing that leaves depends, save for the names
      withheld runes show. */
  predicate Private(share: ExportSet, p: Place)
  {
    match p.thing
    case Glyph(_) => false
    case Mantle(_) => !share(p.thing) && p.slot != Present
    case Rune(mantle, _) => !share(Mantle(mantle)) || (!share(p.thing) && p.slot != Present)
  }

  ghost predicate SameOutside(d: Doc, e: Doc, share: ExportSet)
  {
    forall p :: !Private(share, p) ==> (p in d <==> p in e) && (p in d ==> d[p] == e[p])
  }

  /** The same withheld mantles, and the same names shown by withheld runes, whatever else
      they hold. */
  ghost predicate SameNames(d: Doc, e: Doc, share: ExportSet, r: Reading)
  {
    && (forall m :: !share(Mantle(m)) ==> (Exists(d, Mantle(m)) <==> Exists(e, Mantle(m))))
    && (forall m, id :: share(Mantle(m)) && !share(Rune(m, id)) ==>
          (Exists(d, Rune(m, id)) <==> Exists(e, Rune(m, id)))
          && (Exists(d, Rune(m, id)) ==> NameShown(d, r, Rune(m, id)) == NameShown(e, r, Rune(m, id))))
  }

  /** Changing the fields, tags or edges of what is withheld, and all of what lies inside a
      withheld mantle, changes nothing that leaves, as long as the withheld runes show the
      names they showed. */
  lemma PrivateStaysPrivate(d: Doc, e: Doc, share: ExportSet, r: Reading)
    requires SameOutside(d, e, share) && SameNames(d, e, share, r)
    ensures Export(d, share, r) == Export(e, share, r)
  {
    hide Leaks, Exists, NameShown, Values, KeptEdges;
    forall p ensures (p in d && Leaves(d, share, p)) <==> (p in e && Leaves(e, share, p)) {
      LeavesAlike(d, e, share, p);
    }
    forall p | p in d && Leaves(d, share, p) ensures p in e && SetOut(d, share, r, p) == SetOut(e, share, r, p) {
      LeavesAlike(d, e, share, p);
      if p.thing.Mantle? && p.slot.EdgeSet? { EdgesAlike(d, e, share, r, p.thing.name, d[p]); }
    }
  }

  lemma LeavesAlike(d: Doc, e: Doc, share: ExportSet, p: Place)
    requires SameOutside(d, e, share)
    ensures (p in d && Leaves(d, share, p)) <==> (p in e && Leaves(e, share, p))
    ensures p in d && Leaves(d, share, p) ==> !Private(share, p) && p in e && d[p] == e[p]
  {
    hide Values;
    var present := Place(p.thing, Present);
    if !Private(share, present) {
      assert At(d, present) == At(e, present);
      assert WasRemoved(d, p.thing) <==> WasRemoved(e, p.thing);
    }
  }

  lemma EdgesAlike(d: Doc, e: Doc, share: ExportSet, r: Reading, own: Text, s: OrSet<Text>)
    requires SameNames(d, e, share, r)
    ensures KeptEdges(d, share, r, own, s) == KeptEdges(e, share, r, own, s)
  {
    hide EndsOf, SameNames, WithheldMantle, WithheldName;
    forall edge: Text ensures Leaks(d, share, r, own, edge) <==> Leaks(e, share, r, own, edge) {
      forall i | 0 <= i < |EndsOf(edge, own)|
        ensures EndLeaks(d, share, r, EndsOf(edge, own)[i]) <==> EndLeaks(e, share, r, EndsOf(edge, own)[i])
      {
        EndsAlike(d, e, share, r, EndsOf(edge, own)[i]);
      }
    }
  }

  lemma EndsAlike(d: Doc, e: Doc, share: ExportSet, r: Reading, end: (Text, Text))
    requires SameNames(d, e, share, r)
    ensures EndLeaks(d, share, r, end) <==> EndLeaks(e, share, r, end)
  {
    hide Exists, NameShown;
    if id :| Exists(d, Rune(end.0, id)) && !share(Rune(end.0, id)) && NameShown(d, r, Rune(end.0, id)) == end.1 {
      assert share(Mantle(end.0)) ==> Exists(e, Rune(end.0, id)) && NameShown(e, r, Rune(end.0, id)) == end.1;
    }
    if id :| Exists(e, Rune(end.0, id)) && !share(Rune(end.0, id)) && NameShown(e, r, Rune(end.0, id)) == end.1 {
      assert share(Mantle(end.0)) ==> Exists(d, Rune(end.0, id)) && NameShown(d, r, Rune(end.0, id)) == end.1;
    }
  }

  /** With everything shared, a document whose sets are where the shape allows leaves whole. */
  lemma EverythingLeaves(d: Doc, share: ExportSet, r: Reading)
    requires (forall thing :: share(thing)) && (forall p :: p in d ==> PlaceAllowed(p))
    ensures Export(d, share, r) == d
  {
    hide EndsOf, Exists, NameShown;
    forall own, edge: Text ensures !Leaks(d, share, r, own, edge) {}
    forall p | p in d ensures SetOut(d, share, r, p) == d[p] && Leaves(d, share, p) {
      if p.thing.Mantle? && p.slot.EdgeSet? {
        assert KeptEdges(d, share, r, p.thing.name, d[p]).adds == d[p].adds;
      }
    }
  }

  // ---------------------------------------------------------------------------
  // The two passes
  // ---------------------------------------------------------------------------

  function MantlesOf(d: Doc): (ms: set<Text>)
    ensures forall m :: m in ms <==> Exists(d, Mantle(m))
  {
    var ms := (set p | p in d && p.thing.Mantle? :: p.thing.name) + (set p | p in d && p.thing.Rune? :: p.thing.mantle);
    assert forall m :: Exists(d, Mantle(m)) ==> m in ms by {
      forall m | Exists(d, Mantle(m)) ensures m in ms {
        var p :| p in d && (p.thing == Mantle(m) || (p.thing.Rune? && p.thing.mantle == m));
      }
    }
    ms
  }

  function RunesOf(d: Doc, m: Text): (ids: set<Text>)
    ensures forall id :: id in ids <==> Exists(d, Rune(m, id))
  {
    set p | p in d && p.thing.Rune? && p.thing.mantle == m :: p.thing.id
  }

  /** The names the withheld runes of one mantle show. */
  method NamesWithheld(d: Doc, share: ExportSet, r: Reading, m: Text) returns (names: set<Text>)
    ensures forall x :: x in names <==>
      exists id :: Exists(d, Rune(m, id)) && !share(Rune(m, id)) && NameShown(d, r, Rune(m, id)) == x
  {
    hide Exists, Policies.Resolve, NameIn;
    names := {};
    var ids := RunesOf(d, m);
    var todo := ids;
    while todo != {}
      invariant todo <= ids
      invariant forall x :: x in names <==>
        exists id :: id in ids - todo && !share(Rune(m, id)) && NameShown(d, r, Rune(m, id)) == x
    {
      var id :| id in todo;
      ghost var before := ids - todo;
      todo := todo - {id};
      assert ids - todo == before + {id};
      var rune := Rune(m, id);
      if !share(rune) {
        var l := Policies.ResolveRegister(At(d, Place(rune, Register(SpiritName))), r.join(SpiritName), r.number);
        var name := NameIn(if l.values == [] then None else Some(l.values[0]));
        assert name == NameShown(d, r, rune);
        names := names + {name};
      }
    }
    assert ids - {} == ids;
  }

  method EndsLeak(d: Doc, share: ExportSet, ghost r: Reading, ends: seq<(Text, Text)>,
                  mantles: set<Text>, names: map<Text, set<Text>>) returns (b: bool)
    requires forall m :: m in mantles <==> WithheldMantle(d, share, m)
    requires forall m, x :: (m in names && x in names[m]) <==> WithheldName(d, share, r, m, x)
    ensures b <==> exists i :: 0 <= i < |ends| && EndLeaks(d, share, r, ends[i])
  {
    hide WithheldMantle, WithheldName;
    for i := 0 to |ends|
      invariant forall j :: 0 <= j < i ==> !EndLeaks(d, share, r, ends[j])
    {
      var m, x := ends[i].0, ends[i].1;
      if m in mantles || (m in names && x in names[m]) { return true; }
    }
    return false;
  }

  /** The edges of one mantle that may leave; every retired tag does. */
  method KeepEdges(d: Doc, share: ExportSet, ghost r: Reading, own: Text, s: OrSet<Text>,
                   mantles: set<Text>, names: map<Text, set<Text>>) returns (kept: OrSet<Text>)
    requires forall m :: m in mantles <==> WithheldMantle(d, share, m)
    requires forall m, x :: (m in names && x in names[m]) <==> WithheldName(d, share, r, m, x)
    ensures kept == KeptEdges(d, share, r, own, s)
  {
    hide WithheldMantle, WithheldName, EndsOf, EndLeaks;
    var adds: map<Text, Text> := map[];
    var todo := s.adds.Keys;
    while todo != {}
      invariant todo <= s.adds.Keys
      invariant forall t :: t in adds <==> t in s.adds && t !in todo && !Leaks(d, share, r, own, s.adds[t])
      invariant forall t :: t in adds ==> adds[t] == s.adds[t]
    {
      var t :| t in todo;
      todo := todo - {t};
      var leaks := EndsLeak(d, share, r, EndsOf(s.adds[t], own), mantles, names);
      if !leaks { adds := adds[t := s.adds[t]]; }
    }
    kept := OrSet(adds, s.removes);
    assert adds == KeptEdges(d, share, r, own, s).adds;
  }

  /** `exportable`: first what is withheld and the names it shows, then what may leave. */
  method Exportable(d: Doc, share: ExportSet, r: Reading) returns (out: Doc)
    ensures out == Export(d, share, r)
    ensures forall p :: PlaceAllowed(p) ==>
      (p in out <==>
        && p in d
        && (p.thing.Rune? ==> share(Mantle(p.thing.mantle)))
        && (p.thing.Glyph? || share(p.thing) || (p.slot == Present && Gone(d, p.thing))))
    ensures forall p :: PlaceAllowed(p) && p in out && p.slot != EdgeSet ==> out[p] == d[p]
  {
    hide Leaves, KeptEdges, Exists, NameShown, Gone, PlaceAllowed;
    forall p | PlaceAllowed(p) { SetLeavesIff(d, share, r, p); }
    var mantles := set m | m in MantlesOf(d) && !share(Mantle(m));
    var names := NamesByMantle(d, share, r);
    out := map[];
    var todo := d.Keys;
    while todo != {}
      invariant todo <= d.Keys
      invariant forall p :: p in out <==> p in d && p !in todo && Leaves(d, share, p)
      invariant forall p :: p in out ==> p in d && out[p] == SetOut(d, share, r, p)
    {
      var p :| p in todo;
      todo := todo - {p};
      if !Leaves(d, share, p) { continue; }
      if p.thing.Mantle? && p.slot.EdgeSet? {
        var kept := KeepEdges(d, share, r, p.thing.name, d[p], mantles, names);
        out := out[p := kept];
      } else {
        out := out[p := d[p]];
      }
    }
  }

  method NamesByMantle(d: Doc, share: ExportSet, r: Reading) returns (names: map<Text, set<Text>>)
    ensures forall m, x :: (m in names && x in names[m]) <==> WithheldName(d, share, r, m, x)
  {
    hide Exists, NameShown;
    names := map[];
    var shared := set m | m in MantlesOf(d) && share(Mantle(m));
    var todo := shared;
    while todo != {}
      invariant todo <= shared
      invariant forall m :: m in names ==> m in shared - todo
      invariant forall m, x :: m in shared - todo ==> ((m in names && x in names[m]) <==> WithheldName(d, share, r, m, x))
    {
      var m :| m in todo;
      todo := todo - {m};
      var of := NamesWithheld(d, share, r, m);
      names := names[m := of];
    }
    forall m, x | m !in shared ensures !WithheldName(d, share, r, m, x) {
      RuneMeansMantle(d, m);
    }
  }

  lemma RuneMeansMantle(d: Doc, m: Text)
    ensures forall id :: Exists(d, Rune(m, id)) ==> Exists(d, Mantle(m))
  {
  }
}
