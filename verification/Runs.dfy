/** Whole runs of many replicas: create, edit, save, send, merge, fork, crash.

    What every step keeps: all documents that stand anywhere agree on what each tag names and
    are fit to merge, a replica's own tags elsewhere are backed by every save it may still
    return to, and the counter of each replica covers its own tags and every stamp it has
    seen. */
module Runs {
  import opened Bytes
  import opened Docs
  import opened Edits
  import opened Replicas
  import Spelling
  import opened Tags

  datatype Rep = Rep(issued: nat, doc: Doc)

  /** Replicas as they run, the saves each may still return to, oldest first, and every
      document ever sent. */
  datatype System = System(live: map<Text, Rep>, saved: map<Text, seq<Rep>>, sent: set<Doc>)

  const START := System(map[], map[], {})

  datatype Act =
    | Create(id: Text)
    | Edit(id: Text)
    | Merge(id: Text, remote: Doc)
    | Fork(id: Text, newId: Text)
    | Save(id: Text)
    | Send(id: Text, doc: Doc, k: nat)
    | Crash(id: Text, k: nat)

  /** A replica's own act, and counters burnt on a state it could not read. What it writes is
      fit to merge. */
  ghost predicate Acts(a: Rep, b: Rep, id: Text)
  {
    && (exists n: nat :: n <= b.issued && EditOf(a.doc, b.doc, id, a.issued, n))
    && (Validate(a.doc) ==> Validate(b.doc))
  }

  /** `merge` as a function of what the replica holds. */
  ghost function Absorbed(a: Rep, id: Text, remote: Doc): Rep
  {
    if !Validate(remote) || Refuses(a.doc, remote, id) then a
    else Rep(if HighestCounter(remote) > a.issued then HighestCounter(remote) else a.issued, JoinDocs(a.doc, remote))
  }

  /** Sending needs a saved replica: whatever leaves is held by every save the replica may
      return to from then on. A fork leaves too. */
  ghost predicate Step(s: System, act: Act, s': System)
  {
    match act
    case Create(id) =>
      ValidId(id) && id !in s.live && s' == Placed(s, id, Rep(0, EMPTY_DOC))
    case Edit(id) =>
      && id in s.live && id in s'.live && s' == s.(live := s.live[id := s'.live[id]])
      && Acts(s.live[id], s'.live[id], id)
    case Merge(id, remote) =>
      id in s.live && remote in s.sent && s' == s.(live := s.live[id := Absorbed(s.live[id], id, remote)])
    case Fork(id, newId) =>
      && id in s.live && IsSaved(s, id) && ValidId(newId) && newId !in s.live
      && s' == Placed(Kept(s, id, [s.live[id]]), newId, Rep(HighestCounter(s.live[id].doc), s.live[id].doc))
    case Save(id) =>
      id in s.live && id in s.saved && s' == Kept(s, id, s.saved[id] + [s.live[id]])
    case Send(id, d, k) =>
      && id in s.saved && k < |s.saved[id]| && Below(d, s.saved[id][k].doc)
      && s' == Kept(s, id, s.saved[id][k..]).(sent := s.sent + {d})
    case Crash(id, k) =>
      && id in s.saved && k < |s.saved[id]|
      && s' == Kept(s, id, s.saved[id][..k + 1]).(live := s.live[id := s.saved[id][k]])
  }

  ghost function Placed(s: System, id: Text, r: Rep): System
  {
    s.(live := s.live[id := r], saved := s.saved[id := [r]])
  }

  ghost function Kept(s: System, id: Text, saves: seq<Rep>): System
  {
    s.(saved := s.saved[id := saves])
  }

  /** The latest save is the replica as it runs. */
  ghost predicate IsSaved(s: System, id: Text)
    requires id in s.live
  {
    id in s.saved && s.saved[id] != [] && s.live[id] == s.saved[id][|s.saved[id]| - 1]
  }

  // ---------------------------------------------------------------------------
  // What every run keeps
  // ---------------------------------------------------------------------------

  /** Documents running or sent; every save is below one of them. */
  ghost predicate Stands(s: System, d: Doc)
  {
    d in s.sent || exists v :: v in s.live && s.live[v].doc == d
  }

  /** Documents running, saved or sent. */
  ghost predicate Holds(s: System, d: Doc)
  {
    Stands(s, d) || exists v, k :: v in s.saved && 0 <= k < |s.saved[v]| && s.saved[v][k].doc == d
  }

  /** Documents standing that are not `w`'s own running one. */
  ghost predicate Elsewhere(s: System, w: Text, d: Doc)
  {
    d in s.sent || exists v :: v in s.live && v != w && s.live[v].doc == d
  }

  ghost predicate OwnNamed(d: Doc, id: Text)
  {
    forall n: nat :: HasTag(d, Mint(id, n)) ==> Names(d, Mint(id, n))
  }

  /** The counter is at or past every counter in the document, up to the ceiling. */
  ghost predicate Lamport(r: Rep)
  {
    forall t :: HasTag(r.doc, t) && StampOf(t).n <= LAMPORT_CEILING ==> StampOf(t).n <= r.issued
  }

  ghost predicate RepOk(id: Text, r: Rep)
  {
    FreshAbove(r.doc, id, r.issued) && OwnNamed(r.doc, id) && Lamport(r)
  }

  ghost predicate Authored(ids: set<Text>, d: Doc)
  {
    forall t :: HasTag(d, t) ==> MintedBy(ids, t)
  }

  ghost predicate MintedBy(ids: set<Text>, t: Text)
  {
    exists w, n: nat :: w in ids && t == Mint(w, n)
  }

  /** Every tag of `w`'s in this document is in every save `w` may return to. */
  ghost predicate Backed(s: System, w: Text, d: Doc)
    requires w in s.saved && s.saved[w] != []
  {
    forall n: nat :: HasTag(d, Mint(w, n)) ==> HasTag(s.saved[w][0].doc, Mint(w, n))
  }

  /** Saves in the order they were made, each holding what the one before held. */
  ghost predicate Rises(saves: seq<Rep>, r: Rep)
  {
    && saves != []
    && (forall i, j :: 0 <= i <= j < |saves| ==>
          Below(saves[i].doc, saves[j].doc) && saves[i].issued <= saves[j].issued)
    && Below(saves[|saves| - 1].doc, r.doc) && saves[|saves| - 1].issued <= r.issued
  }

  ghost predicate SavesOk(id: Text, saves: seq<Rep>, r: Rep)
  {
    Rises(saves, r) && forall k :: 0 <= k < |saves| ==> RepOk(id, saves[k])
  }

  ghost predicate Identities(s: System)
  {
    && s.saved.Keys == s.live.Keys
    && (forall w :: w in s.live ==> s.saved[w] != [])
    && forall w :: w in s.live ==> ValidId(w) && RepOk(w, s.live[w]) && SavesOk(w, s.saved[w], s.live[w])
  }

  ghost predicate Inv(s: System)
  {
    && Identities(s)
    && (forall d, e :: Stands(s, d) && Stands(s, e) ==> OneName(d, e))
    && (forall d :: Stands(s, d) ==> Authored(s.live.Keys, d) && Validate(d))
    && (forall w, d :: w in s.live && Elsewhere(s, w, d) ==> Backed(s, w, d))
  }

  lemma StartInv()
    ensures Inv(START)
  {
    assert forall d :: !Stands(START, d);
  }

  lemma BelowTags(d: Doc, e: Doc)
    requires Below(d, e)
    ensures forall t :: HasTag(d, t) ==> HasTag(e, t)
    ensures forall t :: Names(d, t) ==> Names(e, t)
  {
  }

  lemma OneNameBelow(d: Doc, d': Doc, e: Doc)
    requires Below(d, d') && OneName(d', e)
    ensures OneName(d, e) && OneName(e, d)
  {
  }

  lemma Symmetric(d: Doc, e: Doc)
    requires OneName(d, e)
    ensures OneName(e, d)
  {
  }

  lemma JoinOneName(a: Doc, b: Doc, e: Doc)
    requires OneName(a, b) && OneName(a, e) && OneName(b, e)
    ensures OneName(JoinDocs(a, b), e)
  {
    OneNameAgrees(a, b);
    JoinHoldsBoth(a, b);
    hide Added;
  }

  lemma OneNameAgrees(a: Doc, b: Doc)
    requires OneName(a, b)
    ensures AgreeAt(a, b)
  {
  }

  lemma BelowSelf(d: Doc)
    ensures Below(d, d)
  {
  }

  /** A save is below the running replica, and above the oldest. */
  lemma SaveBetween(s: System, id: Text, k: nat)
    requires Inv(s) && id in s.live && k < |s.saved[id]|
    ensures Below(s.saved[id][k].doc, s.live[id].doc) && Below(s.saved[id][0].doc, s.saved[id][k].doc)
    ensures s.saved[id][k].issued <= s.live[id].issued
    ensures RepOk(id, s.saved[id][k])
  {
    hide RepOk, Below, OneName, Authored, Backed, Validate, ValidId;
    var saves := s.saved[id];
    assert SavesOk(id, saves, s.live[id]);
    BelowTransitive(saves[k].doc, saves[|saves| - 1].doc, s.live[id].doc);
  }

  lemma HeldBelow(s: System, d: Doc) returns (e: Doc)
    requires Inv(s) && Holds(s, d)
    ensures Stands(s, e) && Below(d, e)
  {
    hide Inv, Below;
    BelowSelf(d);
    if Stands(s, d) { return d; }
    var v, k :| v in s.saved && 0 <= k < |s.saved[v]| && s.saved[v][k].doc == d;
    IdsMatch(s);
    SaveBetween(s, v, k);
    e := s.live[v].doc;
  }

  lemma IdsMatch(s: System)
    requires Inv(s)
    ensures s.saved.Keys == s.live.Keys
  {
  }

  // ---------------------------------------------------------------------------
  // Merging
  // ---------------------------------------------------------------------------

  /** A merge of anything ever sent never meets a tag it has to refuse. */
  lemma NeverCollides(s: System, id: Text, remote: Doc)
    requires Inv(s) && id in s.live && remote in s.sent
    ensures !Refuses(s.live[id].doc, remote, id)
  {
    hide HasTag, Spelling.NamedText, OwnCounter, Mint, RepOk, Below, ValidId, MintedBy, Validate, SavesOk;
    var d := s.live[id].doc;
    assert Stands(s, d) && Stands(s, remote) && Elsewhere(s, id, remote);
    forall t ensures !Betrays(d, remote, id, t) {
      if HasTag(remote, t) && OwnCounter(t, id).Some? {
        var n := OwnTag(s, id, remote, t);
        FloorHeld(s, id, remote, n);
        OwnIsNamed(id, s.live[id], n);
        OneMeaning(d, remote, t);
      }
    }
  }

  /** A tag of `id`'s anywhere else is in its running document and in every save. */
  lemma FloorHeld(s: System, id: Text, d: Doc, n: nat)
    requires Inv(s) && id in s.live && Elsewhere(s, id, d) && HasTag(d, Mint(id, n))
    ensures HasTag(s.live[id].doc, Mint(id, n))
    ensures forall k :: 0 <= k < |s.saved[id]| ==> HasTag(s.saved[id][k].doc, Mint(id, n))
  {
    hide HasTag, Mint, RepOk, OneName, Authored, Validate, ValidId, Rises, Below;
    assert SavesOk(id, s.saved[id], s.live[id]) && Backed(s, id, d);
    forall k | 0 <= k < |s.saved[id]|
      ensures HasTag(s.saved[id][k].doc, Mint(id, n)) && HasTag(s.live[id].doc, Mint(id, n))
    {
      SaveBetween(s, id, k);
      BelowTags(s.saved[id][0].doc, s.saved[id][k].doc);
      BelowTags(s.saved[id][k].doc, s.live[id].doc);
    }
    SaveBetween(s, id, 0);
    BelowTags(s.saved[id][0].doc, s.live[id].doc);
  }

  lemma OwnTag(s: System, id: Text, d: Doc, t: Text) returns (n: nat)
    requires Inv(s) && id in s.live && Stands(s, d) && HasTag(d, t) && OwnCounter(t, id).Some?
    ensures t == Mint(id, n)
  {
    hide HasTag, OwnCounter, Mint, RepOk, OneName, Stands, Elsewhere, Backed, ValidId, SavesOk, Validate;
    assert MintedBy(s.live.Keys, t);
    var w, k: nat :| w in s.live.Keys && t == Mint(w, k);
    OwnMint(id, w, k);
    n := k;
  }

  lemma OwnIsNamed(id: Text, r: Rep, n: nat)
    requires RepOk(id, r) && HasTag(r.doc, Mint(id, n))
    ensures Names(r.doc, Mint(id, n))
  {
    hide HasTag, Names, Mint;
  }

  lemma OneMeaning(d: Doc, remote: Doc, t: Text)
    requires OneName(d, remote) && Names(d, t)
    ensures !MayDiffer(d, remote, t)
  {
    hide Added, Spelling.NamedText;
    var q, w :| Added(d, q, t, w);
    forall p, v | Added(remote, p, t, v) ensures !DiffersFrom(d, t, Spelling.NamedText(p, v)) {
      assert p == q && v == w;
    }
  }

  lemma HighestCovers(d: Doc, t: Text)
    requires HasTag(d, t) && StampOf(t).n <= LAMPORT_CEILING
    ensures StampOf(t).n <= HighestCounter(d)
  {
    hide HasTag, StampOf, AllTags;
    AllTagsAre(d, t);
  }

  lemma MergeRepOk(s: System, id: Text, remote: Doc)
    requires Inv(s) && id in s.live && remote in s.sent
    ensures RepOk(id, Absorbed(s.live[id], id, remote))
    ensures Below(s.live[id].doc, Absorbed(s.live[id], id, remote).doc)
    ensures Absorbed(s.live[id], id, remote).doc == JoinDocs(s.live[id].doc, remote)
    ensures Validate(Absorbed(s.live[id], id, remote).doc)
  {
    hide HasTag, Mint, StampOf, HighestCounter, JoinDocs, Below, OneName, Validate, Refuses, MintedBy, Names, ValidId,
      SavesOk;
    NeverCollides(s, id, remote);
    var a := s.live[id];
    assert Stands(s, a.doc) && Stands(s, remote) && Elsewhere(s, id, remote);
    var b := Absorbed(a, id, remote);
    OneNameAgrees(a.doc, remote);
    JoinIsLeast(a.doc, remote, b.doc);
    JoinStaysValid(a.doc, remote);
    BelowTags(a.doc, b.doc);
    assert RepOk(id, a);
    forall n: nat | HasTag(b.doc, Mint(id, n)) ensures HasTag(a.doc, Mint(id, n)) {
      TagsOfJoin(a.doc, remote, Mint(id, n));
      if HasTag(remote, Mint(id, n)) { FloorHeld(s, id, remote, n); }
    }
    forall t | HasTag(b.doc, t) && StampOf(t).n <= LAMPORT_CEILING ensures StampOf(t).n <= b.issued {
      TagsOfJoin(a.doc, remote, t);
      if HasTag(remote, t) { HighestCovers(remote, t); }
    }
  }

  // ---------------------------------------------------------------------------
  // Editing
  // ---------------------------------------------------------------------------

  lemma EditTags(a: Doc, b: Doc, id: Text, lo: nat, hi: nat, t: Text)
    requires EditOf(a, b, id, lo, hi) && HasTag(b, t)
    ensures HasTag(a, t) || (MintedIn(t, id, lo, hi) && Names(b, t))
  {
    hide Mint, Added, Removed;
    if Names(b, t) {
      var p, v :| Added(b, p, t, v);
      if !Added(a, p, t, v) { assert NewIn(a, b, p, t, v); }
    } else {
      var p :| Removed(b, p, t);
      assert Removed(a, p, t);
    }
  }

  lemma StampBound(id: Text, n: nat)
    requires ValidId(id)
    ensures StampOf(Mint(id, n)).n <= n
  {
    StampMint(id, n);
  }

  lemma EditRepOk(id: Text, a: Rep, b: Rep)
    requires ValidId(id) && RepOk(id, a) && Acts(a, b, id)
    ensures RepOk(id, b) && Below(a.doc, b.doc) && a.issued <= b.issued
  {
    hide Mint, HasTag, StampOf, Names, Below, NewIn, Uses, ValidId, Validate;
    var m: nat :| m <= b.issued && EditOf(a.doc, b.doc, id, a.issued, m);
    StaysFresh(a.doc, b.doc, id, a.issued, m);
    FreshLater(b.doc, id, m, b.issued);
    BelowTags(a.doc, b.doc);
    forall n: nat | HasTag(b.doc, Mint(id, n)) ensures Names(b.doc, Mint(id, n)) {
      EditTags(a.doc, b.doc, id, a.issued, m, Mint(id, n));
    }
    forall t | HasTag(b.doc, t) && StampOf(t).n <= LAMPORT_CEILING ensures StampOf(t).n <= b.issued {
      EditTags(a.doc, b.doc, id, a.issued, m, t);
      if !HasTag(a.doc, t) {
        var n: nat :| a.issued < n <= m && t == Mint(id, n);
        StampBound(id, n);
      }
    }
  }

  /** A tag an edit mints is in no document of the system. */
  lemma MintedIsNew(s: System, id: Text, b: Rep, d: Doc, n: nat)
    requires Inv(s) && id in s.live && Acts(s.live[id], b, id) && n > s.live[id].issued
    requires Elsewhere(s, id, d) || d == s.live[id].doc
    ensures !HasTag(d, Mint(id, n))
  {
    hide Mint, HasTag, OwnNamed, Lamport, OneName, Authored, Acts, ValidId, Elsewhere, Rises, Validate;
    assert RepOk(id, s.live[id]);
    if Elsewhere(s, id, d) && HasTag(d, Mint(id, n)) { FloorHeld(s, id, d, n); }
  }

  lemma EditOneName(s: System, id: Text, b: Rep, d: Doc)
    requires Inv(s) && id in s.live && Acts(s.live[id], b, id)
    requires Elsewhere(s, id, d)
    ensures OneName(b.doc, d) && OneName(d, b.doc)
  {
    hide Mint, HasTag, Added, Removed, Identities, Authored, Backed, Below, ValidId, Validate;
    var a := s.live[id];
    var m: nat :| m <= b.issued && EditOf(a.doc, b.doc, id, a.issued, m);
    assert Stands(s, a.doc) && Stands(s, d);
    forall p, q, t, v, w | Added(b.doc, p, t, v) && Added(d, q, t, w) ensures p == q && v == w {
      if !Added(a.doc, p, t, v) {
        assert NewIn(a.doc, b.doc, p, t, v);
        var n: nat :| a.issued < n <= m && t == Mint(id, n);
        MintedIsNew(s, id, b, d, n);
        AddedIsTag(d, q, t, w);
      }
    }
  }

  lemma AddedIsTag(d: Doc, p: Place, t: Text, v: Text)
    requires Added(d, p, t, v)
    ensures HasTag(d, t)
  {
  }

  lemma EditOneNameSelf(s: System, id: Text, b: Rep)
    requires Inv(s) && id in s.live && Acts(s.live[id], b, id)
    ensures OneName(b.doc, b.doc)
  {
    hide Mint, HasTag, Added, Removed, Identities, Authored, Backed, Below, ValidId, Elsewhere, Validate;
    var a := s.live[id];
    var m: nat :| m <= b.issued && EditOf(a.doc, b.doc, id, a.issued, m);
    assert Stands(s, a.doc);
    forall p, q, t, v, w | Added(b.doc, p, t, v) && Added(b.doc, q, t, w) ensures p == q && v == w {
      if Added(a.doc, p, t, v) != Added(a.doc, q, t, w) {
        assert NewIn(a.doc, b.doc, p, t, v) || NewIn(a.doc, b.doc, q, t, w);
        var n: nat :| a.issued < n <= m && t == Mint(id, n);
        MintedIsNew(s, id, b, a.doc, n);
        OneAdded(a.doc, p, q, t, v, w);
      } else if !Added(a.doc, p, t, v) {
        assert NewIn(a.doc, b.doc, p, t, v) && NewIn(a.doc, b.doc, q, t, w);
      }
    }
  }

  lemma OneAdded(d: Doc, p: Place, q: Place, t: Text, v: Text, w: Text)
    requires Added(d, p, t, v) || Added(d, q, t, w)
    ensures HasTag(d, t)
  {
  }

  // ---------------------------------------------------------------------------
  // One replica's running copy replaced
  // ---------------------------------------------------------------------------

  /** What it takes of a new running copy, and of the saves below it, for the system to stay
      sound. */
  ghost predicate Fitting(s: System, id: Text, r: Rep, saves: seq<Rep>)
    requires Inv(s) && id in s.live
  {
    && RepOk(id, r) && saves != [] && SavesOk(id, saves, r) && Below(s.saved[id][0].doc, saves[0].doc)
    && OneName(r.doc, r.doc) && Authored(s.live.Keys, r.doc) && Validate(r.doc)
    && (forall d :: Elsewhere(s, id, d) ==> OneName(r.doc, d) && OneName(d, r.doc))
    && (forall w :: w in s.live && w != id ==> Backed(s, w, r.doc))
  }

  lemma ReplaceKeeps(s: System, id: Text, r: Rep, saves: seq<Rep>)
    requires Inv(s) && id in s.live && Fitting(s, id, r, saves)
    ensures Inv(Kept(s, id, saves).(live := s.live[id := r]))
  {
    hide RepOk, OneName, Authored, Backed, Below, ValidId, Validate, Stands, Elsewhere, SavesOk;
    var s' := Kept(s, id, saves).(live := s.live[id := r]);
    assert s'.live.Keys == s.live.Keys;
    StandsAfter(s, id, r, saves);
    forall d, e | Stands(s', d) && Stands(s', e) ensures OneName(d, e) {
      if d != r.doc && e != r.doc { ElsewhereStands(s, id, d); ElsewhereStands(s, id, e); }
    }
    forall d | Stands(s', d) ensures Authored(s'.live.Keys, d) && Validate(d) {
      if d != r.doc { ElsewhereStands(s, id, d); }
    }
    forall w, d | w in s'.live && Elsewhere(s', w, d) ensures Backed(s', w, d) {
      if Elsewhere(s, w, d) {
        assert Backed(s, w, d);
      } else {
        assert w != id && d == r.doc;
      }
      BackedMore(s, s', w, d);
    }
  }

  lemma BackedMore(s: System, s': System, w: Text, d: Doc)
    requires w in s.saved && w in s'.saved && s.saved[w] != [] && s'.saved[w] != []
    requires s'.saved[w] == s.saved[w] || Below(s.saved[w][0].doc, s'.saved[w][0].doc)
    requires Backed(s, w, d)
    ensures Backed(s', w, d)
  {
    hide Mint, HasTag, Below;
    if s'.saved[w] != s.saved[w] { BelowTags(s.saved[w][0].doc, s'.saved[w][0].doc); }
  }

  lemma StandsAfter(s: System, id: Text, r: Rep, saves: seq<Rep>)
    requires id in s.live
    ensures var s' := Kept(s, id, saves).(live := s.live[id := r]);
      && (forall d :: Stands(s', d) ==> d == r.doc || Elsewhere(s, id, d))
      && (forall w, d :: Elsewhere(s', w, d) ==> Elsewhere(s, w, d) || (w != id && d == r.doc))
  {
    var s' := Kept(s, id, saves).(live := s.live[id := r]);
    forall d | Stands(s', d) ensures d == r.doc || Elsewhere(s, id, d) {
      if v :| v in s'.live && s'.live[v].doc == d { assert v == id || s.live[v].doc == d; }
    }
    forall w, d | Elsewhere(s', w, d) ensures Elsewhere(s, w, d) || (w != id && d == r.doc) {
      if v :| v in s'.live && v != w && s'.live[v].doc == d { assert v == id || s.live[v].doc == d; }
    }
  }

  lemma ElsewhereStands(s: System, w: Text, d: Doc)
    requires Elsewhere(s, w, d)
    ensures Stands(s, d)
  {
  }

  lemma LiveStands(s: System, id: Text)
    requires id in s.live
    ensures Stands(s, s.live[id].doc)
    ensures forall w :: w != id ==> Elsewhere(s, w, s.live[id].doc)
  {
  }

  /** The saves below a running copy are below one that has grown. */
  lemma SavesStay(s: System, id: Text, r: Rep)
    requires Inv(s) && id in s.live && Below(s.live[id].doc, r.doc) && s.live[id].issued <= r.issued
    ensures SavesOk(id, s.saved[id], r) && Below(s.saved[id][0].doc, s.saved[id][0].doc)
  {
    hide RepOk, Below, OneName, Authored, Backed, Validate, ValidId;
    var saves := s.saved[id];
    assert SavesOk(id, saves, s.live[id]);
    BelowTransitive(saves[|saves| - 1].doc, s.live[id].doc, r.doc);
    BelowSelf(saves[0].doc);
  }

  lemma EditFits(s: System, id: Text, b: Rep)
    requires Inv(s) && id in s.live && Acts(s.live[id], b, id)
    ensures Fitting(s, id, b, s.saved[id])
  {
    hide RepOk, OneName, Below, EditOf, HasTag, Mint, MintedBy, Elsewhere, Stands, ValidId, Validate, SavesOk;
    var a := s.live[id];
    assert ValidId(id) && RepOk(id, a);
    EditRepOk(id, a, b);
    SavesStay(s, id, b);
    EditOneNameSelf(s, id, b);
    forall d | Elsewhere(s, id, d) ensures OneName(b.doc, d) && OneName(d, b.doc) { EditOneName(s, id, b, d); }
    LiveStands(s, id);
    forall t | HasTag(b.doc, t) ensures MintedBy(s.live.Keys, t) { EditAuthored(s, id, b, t); }
    forall w, n: nat | w in s.live && w != id && HasTag(b.doc, Mint(w, n))
      ensures HasTag(s.saved[w][0].doc, Mint(w, n))
    {
      OthersTagsOld(s, id, b, w, n);
      assert Backed(s, w, a.doc);
    }
  }

  lemma EditAuthored(s: System, id: Text, b: Rep, t: Text)
    requires Inv(s) && id in s.live && Acts(s.live[id], b, id) && HasTag(b.doc, t)
    ensures MintedBy(s.live.Keys, t)
  {
    hide HasTag, Mint, EditOf, Identities, Backed, OneName, Elsewhere, Validate;
    var a := s.live[id];
    var m: nat :| m <= b.issued && EditOf(a.doc, b.doc, id, a.issued, m);
    EditTags(a.doc, b.doc, id, a.issued, m, t);
    assert Authored(s.live.Keys, a.doc);
    if !HasTag(a.doc, t) {
      var n: nat :| a.issued < n <= m && t == Mint(id, n);
      assert id in s.live.Keys && t == Mint(id, n);
    }
  }

  lemma OthersTagsOld(s: System, id: Text, b: Rep, w: Text, n: nat)
    requires Inv(s) && id in s.live && w in s.live && w != id && Acts(s.live[id], b, id)
    requires HasTag(b.doc, Mint(w, n))
    ensures HasTag(s.live[id].doc, Mint(w, n))
  {
    hide HasTag, Mint, EditOf, Backed, OneName, Elsewhere, Stands, RepOk, Below, ValidId, Validate, SavesOk;
    var a := s.live[id];
    var m: nat :| m <= b.issued && EditOf(a.doc, b.doc, id, a.issued, m);
    EditTags(a.doc, b.doc, id, a.issued, m, Mint(w, n));
    if k: nat :| a.issued < k <= m && Mint(w, n) == Mint(id, k) {
      MintInjective(w, n, id, k);
    }
  }

  lemma MergeFits(s: System, id: Text, remote: Doc)
    requires Inv(s) && id in s.live && remote in s.sent
    ensures Fitting(s, id, Absorbed(s.live[id], id, remote), s.saved[id])
  {
    hide RepOk, OneName, Below, HasTag, Mint, MintedBy, Validate, Absorbed, JoinDocs, ValidId, SavesOk;
    var a, b := s.live[id], Absorbed(s.live[id], id, remote);
    MergeRepOk(s, id, remote);
    MergeIssued(a, id, remote);
    SavesStay(s, id, b);
    LiveStands(s, id);
    assert Stands(s, remote) && forall w :: Elsewhere(s, w, remote);
    forall d | Elsewhere(s, id, d) ensures OneName(b.doc, d) && OneName(d, b.doc) {
      ElsewhereStands(s, id, d);
      JoinOneName(a.doc, remote, d);
      Symmetric(b.doc, d);
    }
    JoinOneName(a.doc, remote, a.doc);
    JoinOneName(a.doc, remote, remote);
    Symmetric(b.doc, a.doc);
    Symmetric(b.doc, remote);
    JoinOneName(a.doc, remote, b.doc);
    forall t | HasTag(b.doc, t) ensures MintedBy(s.live.Keys, t) {
      TagsOfJoin(a.doc, remote, t);
      assert Authored(s.live.Keys, a.doc) && Authored(s.live.Keys, remote);
    }
    forall w, n: nat | w in s.live && w != id && HasTag(b.doc, Mint(w, n))
      ensures HasTag(s.saved[w][0].doc, Mint(w, n))
    {
      TagsOfJoin(a.doc, remote, Mint(w, n));
      assert Backed(s, w, a.doc) && Backed(s, w, remote);
    }
  }

  lemma MergeIssued(a: Rep, id: Text, remote: Doc)
    ensures a.issued <= Absorbed(a, id, remote).issued
  {
    hide HighestCounter, Refuses, Validate, JoinDocs;
  }

  // ---------------------------------------------------------------------------
  // Saving, sending, falling back, joining in
  // ---------------------------------------------------------------------------

  /** A copy below the running one says nothing the running one did not. */
  lemma BelowFits(s: System, id: Text, d: Doc)
    requires Inv(s) && id in s.live && Below(d, s.live[id].doc)
    ensures OneName(d, d) && Authored(s.live.Keys, d) && Validate(d)
    ensures forall e :: Stands(s, e) ==> OneName(d, e) && OneName(e, d)
    ensures forall w :: w in s.live && w != id ==> Backed(s, w, d)
  {
    hide RepOk, OneName, HasTag, Mint, Below, MintedBy, ValidId, Validate, Rises;
    var y := s.live[id].doc;
    LiveStands(s, id);
    BelowTags(d, y);
    BelowIsValid(d, y);
    forall e | Stands(s, e) ensures OneName(d, e) && OneName(e, d) { OneNameBelow(d, y, e); }
    OneNameBelow(d, y, d);
    assert Authored(s.live.Keys, y);
    forall w | w in s.live && w != id ensures Backed(s, w, d) { assert Backed(s, w, y); }
  }

  /** Back to a save: later ones are gone for good. */
  lemma CrashFits(s: System, id: Text, k: nat)
    requires Inv(s) && id in s.live && k < |s.saved[id]|
    ensures Fitting(s, id, s.saved[id][k], s.saved[id][..k + 1])
  {
    hide RepOk, OneName, Below, Authored, Backed, Validate, ValidId, SavesOk;
    var saves := s.saved[id];
    SaveBetween(s, id, k);
    assert SavesOk(id, saves, s.live[id]);
    SavesBefore(id, saves, s.live[id], k);
    BelowFits(s, id, saves[k].doc);
    BelowSelf(saves[0].doc);
    forall d | Elsewhere(s, id, d) ensures Stands(s, d) { ElsewhereStands(s, id, d); }
  }

  lemma SavesBefore(id: Text, saves: seq<Rep>, r: Rep, k: nat)
    requires SavesOk(id, saves, r) && k < |saves|
    ensures SavesOk(id, saves[..k + 1], saves[k])
  {
    hide RepOk, Below;
    BelowSelf(saves[k].doc);
  }

  lemma SavesAfter(id: Text, saves: seq<Rep>, r: Rep, k: nat)
    requires SavesOk(id, saves, r) && k < |saves|
    ensures SavesOk(id, saves[k..], r)
  {
    hide RepOk, Below;
  }

  lemma SaveKeeps(s: System, id: Text)
    requires Inv(s) && id in s.live
    ensures Inv(Kept(s, id, s.saved[id] + [s.live[id]]))
  {
    hide Inv, Below, SavesOk;
    NeverUnsaved(s, id);
    SaveFits(s, id);
    ReplaceKeeps(s, id, s.live[id], s.saved[id] + [s.live[id]]);
    assert s.live[id := s.live[id]] == s.live;
  }

  lemma SaveFits(s: System, id: Text)
    requires Inv(s) && id in s.live
    ensures s.saved[id] != [] && Fitting(s, id, s.live[id], s.saved[id] + [s.live[id]])
  {
    hide RepOk, OneName, Below, Authored, Backed, Validate, ValidId;
    var saves, r := s.saved[id], s.live[id];
    assert SavesOk(id, saves, r) && RepOk(id, r);
    BelowSelf(r.doc);
    BelowSelf(saves[0].doc);
    forall i | 0 <= i < |saves| ensures Below(saves[i].doc, r.doc) && saves[i].issued <= r.issued {
      SaveBetween(s, id, i);
    }
    LiveStands(s, id);
    forall d | Elsewhere(s, id, d) ensures Stands(s, d) { ElsewhereStands(s, id, d); }
  }

  /** Only the saves that hold what leaves remain. */
  lemma TrimKeeps(s: System, id: Text, k: nat)
    requires Inv(s) && id in s.live && k < |s.saved[id]|
    ensures Inv(Kept(s, id, s.saved[id][k..]))
  {
    hide Inv, Below, SavesOk;
    NeverUnsaved(s, id);
    TrimFits(s, id, k);
    ReplaceKeeps(s, id, s.live[id], s.saved[id][k..]);
    assert s.live[id := s.live[id]] == s.live;
  }

  lemma TrimFits(s: System, id: Text, k: nat)
    requires Inv(s) && id in s.live && k < |s.saved[id]|
    ensures Fitting(s, id, s.live[id], s.saved[id][k..])
  {
    hide RepOk, OneName, Below, Authored, Backed, Validate, ValidId, SavesOk;
    var saves, r := s.saved[id], s.live[id];
    assert SavesOk(id, saves, r) && RepOk(id, r);
    SavesAfter(id, saves, r, k);
    SaveBetween(s, id, k);
    LiveStands(s, id);
    forall d | Elsewhere(s, id, d) ensures Stands(s, d) { ElsewhereStands(s, id, d); }
  }

  lemma SendKeeps(s: System, id: Text, x: Doc)
    requires Inv(s) && id in s.live && s.saved[id] != [] && Below(x, s.saved[id][0].doc)
    ensures Inv(s.(sent := s.sent + {x}))
  {
    hide RepOk, OneName, HasTag, Mint, Below, MintedBy, ValidId, Validate, Rises, Authored;
    var s' := s.(sent := s.sent + {x});
    SaveBetween(s, id, 0);
    BelowTransitive(x, s.saved[id][0].doc, s.live[id].doc);
    BelowTags(x, s.saved[id][0].doc);
    BelowFits(s, id, x);
    forall d | Stands(s', d) && d != x ensures Stands(s, d) {}
    forall w, d | w in s'.live && Elsewhere(s', w, d) ensures Backed(s', w, d) {
      assert d == x || Elsewhere(s, w, d);
      assert d == x || Backed(s, w, d);
    }
  }

  /** A new id has minted nothing anybody holds. */
  lemma NewIdUnused(s: System, id: Text, d: Doc, n: nat)
    requires Inv(s) && ValidId(id) && id !in s.live && Stands(s, d)
    ensures !HasTag(d, Mint(id, n))
  {
    hide HasTag, Mint, RepOk, OneName, Backed, ValidId, SavesOk, Validate;
    assert Authored(s.live.Keys, d);
    if HasTag(d, Mint(id, n)) {
      var w, m: nat :| w in s.live.Keys && Mint(id, n) == Mint(w, m);
      MintInjective(id, n, w, m);
    }
  }

  /** A replica that joins in holding what stands already, or nothing. */
  lemma PlaceKeeps(s: System, id: Text, r: Rep)
    requires Inv(s) && ValidId(id) && id !in s.live && RepOk(id, r)
    requires OneName(r.doc, r.doc) && Authored(s.live.Keys, r.doc) && Validate(r.doc)
    requires forall d :: Stands(s, d) ==> OneName(r.doc, d) && OneName(d, r.doc)
    requires forall w :: w in s.live ==> Backed(s, w, r.doc)
    ensures Inv(Placed(s, id, r))
  {
    hide RepOk, OneName, HasTag, Mint, Below, MintedBy, ValidId, Validate;
    var s' := Placed(s, id, r);
    BelowSelf(r.doc);
    PlacedStands(s, id, r);
    forall d | Stands(s', d) ensures Authored(s'.live.Keys, d) {
      AuthoredMore(s.live.Keys, s'.live.Keys, d);
    }
    forall w, d | w in s'.live && Elsewhere(s', w, d) ensures Backed(s', w, d) {
      if w == id {
        forall n: nat ensures !HasTag(d, Mint(id, n)) { NewIdUnused(s, id, d, n); }
      } else {
        assert Backed(s, w, d);
      }
    }
  }

  lemma AuthoredMore(ids: set<Text>, more: set<Text>, d: Doc)
    requires Authored(ids, d) && ids <= more
    ensures Authored(more, d)
  {
    hide HasTag, Mint;
    forall t | HasTag(d, t) ensures MintedBy(more, t) {
      assert MintedBy(ids, t);
    }
  }

  lemma PlacedStands(s: System, id: Text, r: Rep)
    requires id !in s.live
    ensures forall d :: Stands(Placed(s, id, r), d) ==> Stands(s, d) || d == r.doc
    ensures forall w, d :: w != id && Elsewhere(Placed(s, id, r), w, d) ==> Elsewhere(s, w, d) || d == r.doc
    ensures forall d :: Elsewhere(Placed(s, id, r), id, d) ==> Stands(s, d)
  {
    var s' := Placed(s, id, r);
    forall d | Stands(s', d) ensures Stands(s, d) || d == r.doc {
      if v :| v in s'.live && s'.live[v].doc == d { assert v == id || s.live[v].doc == d; }
    }
    forall w, d | Elsewhere(s', w, d)
      ensures (w == id ==> Stands(s, d)) && (w != id ==> Elsewhere(s, w, d) || d == r.doc)
    {
      if v :| v in s'.live && v != w && s'.live[v].doc == d { assert v == id || s.live[v].doc == d; }
    }
  }

  lemma EmptyNames(e: Doc)
    ensures OneName(EMPTY_DOC, e) && OneName(e, EMPTY_DOC)
  {
  }

  lemma CreateKeeps(s: System, id: Text)
    requires Inv(s) && ValidId(id) && id !in s.live
    ensures Inv(Placed(s, id, Rep(0, EMPTY_DOC)))
  {
    hide Identities, OneName, ValidId, Mint, StampOf, Stands, Elsewhere;
    forall t ensures !HasTag(EMPTY_DOC, t) {}
    forall d ensures OneName(EMPTY_DOC, d) && OneName(d, EMPTY_DOC) { EmptyNames(d); }
    IdsMatch(s);
    forall w | w in s.live ensures s.saved[w] != [] { NeverUnsaved(s, w); }
    PlaceKeeps(s, id, Rep(0, EMPTY_DOC));
  }

  lemma NeverUnsaved(s: System, w: Text)
    requires Inv(s) && w in s.live
    ensures w in s.saved && s.saved[w] != []
  {
  }

  lemma ForkKeeps(s: System, id: Text, newId: Text)
    requires Inv(s) && id in s.live && IsSaved(s, id) && ValidId(newId) && newId !in s.live
    ensures Inv(Placed(Kept(s, id, [s.live[id]]), newId, Rep(HighestCounter(s.live[id].doc), s.live[id].doc)))
  {
    hide Inv, RepOk, HighestCounter;
    var n := |s.saved[id]| - 1;
    assert s.saved[id][n..] == [s.live[id]];
    TrimKeeps(s, id, n);
    ForkPlaced(Kept(s, id, [s.live[id]]), id, newId);
  }

  lemma ForkPlaced(s: System, id: Text, newId: Text)
    requires Inv(s) && id in s.live && id in s.saved && s.saved[id] == [s.live[id]]
    requires ValidId(newId) && newId !in s.live
    ensures Inv(Placed(s, newId, Rep(HighestCounter(s.live[id].doc), s.live[id].doc)))
  {
    hide HasTag, Mint, StampOf, HighestCounter, OneName, Below, Authored, ValidId, Validate, SavesOk;
    var d := s.live[id].doc;
    var r := Rep(HighestCounter(d), d);
    LiveStands(s, id);
    forall n: nat ensures !HasTag(d, Mint(newId, n)) { NewIdUnused(s, newId, d, n); }
    forall t | HasTag(d, t) && StampOf(t).n <= LAMPORT_CEILING ensures StampOf(t).n <= r.issued {
      HighestCovers(d, t);
    }
    assert RepOk(newId, r);
    forall w | w in s.live ensures s.saved[w] != [] && Backed(s, w, d) { NeverUnsaved(s, w); }
    PlaceKeeps(s, newId, r);
  }

  /** Every act keeps the system sound. */
  lemma StepKeeps(s: System, act: Act, s': System)
    requires Inv(s) && Step(s, act, s')
    ensures Inv(s')
  {
    hide Inv, Placed, Absorbed, Acts, Below, ValidId, Fitting, IsSaved;
    IdsMatch(s);
    match act {
      case Create(id) => CreateKeeps(s, id);
      case Edit(id) =>
        EditFits(s, id, s'.live[id]);
        ReplaceKeeps(s, id, s'.live[id], s.saved[id]);
        assert Kept(s, id, s.saved[id]) == s;
      case Merge(id, remote) =>
        MergeFits(s, id, remote);
        ReplaceKeeps(s, id, Absorbed(s.live[id], id, remote), s.saved[id]);
        assert Kept(s, id, s.saved[id]) == s;
      case Fork(id, newId) => ForkKeeps(s, id, newId);
      case Save(id) => SaveKeeps(s, id);
      case Send(id, d, k) =>
        TrimKeeps(s, id, k);
        SendKeeps(Kept(s, id, s.saved[id][k..]), id, d);
      case Crash(id, k) =>
        CrashFits(s, id, k);
        ReplaceKeeps(s, id, s.saved[id][k], s.saved[id][..k + 1]);
    }
  }
}
