/** Reading a document back as the state it shows. */
module Flattening {
  import opened Bytes
  import opened Docs
  import opened Edits
  import opened Options
  import OrSets
  import Policies

  /** One field: read without the policy if it is a glyph's declaration, as `null` if it is
      fixed and holds nothing, and not at all if it shows the default it stands for. */
  method FlattenField(d: Doc, r: Reading, thing: Thing, f: Field) returns (v: Option<Text>)
    ensures v == FieldFlat(d, r, thing, f)
  {
    hide Policies.Resolve, OrSets.Values, EMPTY_LIST;
    var s := At(d, Place(thing, Register(f)));
    if thing.Glyph? && f.Descriptor? {
      return if OrSets.Values(s) == {} then None else Some(Bytes.Least(OrSets.Values(s)));
    }
    var l := Policies.ResolveRegister(s, r.join(f), r.number);
    var shown := if l.values == [] then None else Some(l.values[0]);
    if Fixed(thing, f) { return if shown == None then Some(NOTHING) else shown; }
    if Optional(thing, f) && shown == Some(EMPTY_LIST) { return None; }
    return if Sparse(thing, f) then shown else None;
  }

  method FlattenThing(d: Doc, r: Reading, thing: Thing) returns (s: Showing)
    ensures s == Flat(d, r, thing)
  {
    hide FieldFlat, OrSets.Values, FieldsHeld, FixedFields;
    var fields: map<Field, Text> := map[];
    var names := FixedFields(thing) + FieldsHeld(d, thing);
    var todo := names;
    while todo != {}
      invariant todo <= names
      invariant forall f :: f in fields <==> f in names && f !in todo && FieldFlat(d, r, thing, f).Some?
      invariant forall f :: f in fields ==> fields[f] == FieldFlat(d, r, thing, f).value
    {
      var f :| f in todo;
      todo := todo - {f};
      var v := FlattenField(d, r, thing, f);
      if v.Some? { fields := fields[f := v.value]; }
    }
    s := Showing(fields,
      if thing.Rune? then OrSets.Values(At(d, Place(thing, TagSet))) else {},
      if thing.Mantle? then OrSets.Values(At(d, Place(thing, EdgeSet))) else {});
    assert fields == Flat(d, r, thing).fields;
  }

  /** `flatten`. */
  method FlattenDoc(d: Doc, r: Reading) returns (state: State)
    ensures state == Flatten(d, r)
  {
    hide Flat, Emitted;
    state := map[];
    var things := set p | p in d :: p.thing;
    var todo := things;
    while todo != {}
      invariant todo <= things
      invariant forall t :: t in state <==> t in things && t !in todo && Emitted(d, t)
      invariant forall t :: t in state ==> state[t] == Flat(d, r, t)
    {
      var t :| t in todo;
      todo := todo - {t};
      var emitted := IsEmitted(d, t);
      if emitted {
        var s := FlattenThing(d, r, t);
        state := state[t := s];
      }
    }
  }

  method IsEmitted(d: Doc, thing: Thing) returns (b: bool)
    ensures b <==> Emitted(d, thing)
  {
    hide OrSets.Values;
    b := Alive(d, thing) && InParent(d, thing)
      && (!thing.Glyph? || OrSets.Values(At(d, Place(thing, Register(Descriptor)))) != {});
  }
}
