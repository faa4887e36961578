/** Single acts on documents and dossiers, told from the tables before and after: which moves the
    trail allows, what joining and leaving a dossier records, when a copy is accepted, what a
    deletion takes, and which of two documents is the older. */
module Acts {
  import opened Mappings
  import opened States
  import opened Lifecycle
  import opened Deletion
  import opened Memberships
  import opened Runs
  import Registry

  // ----- states -----

  /** The states a document can come from into `t`; `None` is a document that is new. */
  function Sources(t: State): set<Option<State>> {
    match t
    case Registered => {None}
    case Extractable => {Some(Registered), Some(Unprocessable)}
    case Unprocessable => {Some(Registered)}
    case Extracted => {Some(Extractable)}
    case Anonymized => {Some(Extracted)}
    case Indexed => {Some(Anonymized)}
    case Failed => {Some(Registered), Some(Extractable), Some(Extracted), Some(Anonymized)}
    case Superseded => {Some(Registered), Some(Extractable), Some(Unprocessable), Some(Extracted), Some(Anonymized),
                        Some(Indexed), Some(Failed)}
    case Deleted => {Some(Registered), Some(Extractable), Some(Unprocessable), Some(Extracted), Some(Anonymized),
                     Some(Indexed), Some(Failed), Some(Superseded)}
  }

  lemma SourcesExactly(f: Option<State>, t: State)
    ensures Allowed(f, t) <==> f in Sources(t)
  {
    match f
    case None =>
    case Some(s) => match s case _ =>
  }

  /** A document in `s` was in `from` before, when there is no other way into `s`. */
  lemma {:induction false} CameFrom(t: seq<Rec>, id: Id, s: State, from: State) returns (q: nat)
    requires Path(t) && StateOf(t, id) == Some(s) && forall f :: Allowed(f, s) ==> f == Some(from)
    ensures q < |t| && StateOf(t[..q], id) == Some(from) && Path(t[..q])
  {
    var front, r := t[..|t| - 1], t[|t| - 1];
    if r.doc == id && r.from == Some(from) {
      q := |t| - 1;
    } else {
      q := CameFrom(front, id, s, from);
      assert front[..q] == t[..q];
    }
  }

  /** Nothing is found that has not come all the way: a document in the index was anonymized before,
      extracted before that, and extractable before that. */
  lemma IndexedCameThrough(t: seq<Rec>, id: Id) returns (a: nat, b: nat, c: nat)
    requires Path(t) && StateOf(t, id) == Some(Indexed)
    ensures c < b < a < |t| && StateOf(t[..a], id) == Some(Anonymized)
    ensures StateOf(t[..b], id) == Some(Extracted) && StateOf(t[..c], id) == Some(Extractable)
  {
    forall f: Option<State>, s: State ensures Allowed(f, s) <==> f in Sources(s) { SourcesExactly(f, s); }
    a := CameFrom(t, id, Indexed, Anonymized);
    b := CameFrom(t[..a], id, Anonymized, Extracted);
    assert t[..a][..b] == t[..b];
    c := CameFrom(t[..b], id, Extracted, Extractable);
    assert t[..b][..c] == t[..c];
  }

  /** A transition fails exactly when the document is elsewhere and the move is not allowed; made
      twice, it is made once; and it moves no other document. */
  lemma TransitionExactly(t: seq<Rec>, id: Id, to: State)
    ensures Transition(t, id, to).None? <==> StateOf(t, id) != Some(to) && !Allowed(StateOf(t, id), to)
    ensures var r := Transition(t, id, to);
            r.Some? ==>
              && StateOf(r.value, id) == Some(to) && (Path(t) ==> Path(r.value)) && t <= r.value
              && (forall x :: x != id ==> StateOf(r.value, x) == StateOf(t, x))
              && Transition(r.value, id, to) == r
  {
    var f := StateOf(t, id);
    forall x ensures StateOf(t + [Rec(id, f, to)], x) == if x == id then Some(to) else StateOf(t, x) {
      StateOfAppend(t, Rec(id, f, to), x);
    }
    StateOfAppend(t, Rec(id, f, to), id);
  }

  // ----- dossiers -----

  /** One event was recorded for the document; it is in the state it was in. */
  ghost predicate OneEvent(db: Db, db': Db, id: Id) {
    StateOf(db.trail, id).Some?
    && db'.trail == db.trail + [Rec(id, StateOf(db.trail, id), StateOf(db.trail, id).value)]
  }

  /** A retired copy is refused, a member stays one, and anyone else joins with an event. */
  lemma JoinIs(w: World, d: DossierId, id: Id)
    requires id in w.db.docs && StateOf(w.db.trail, id).Some?
    ensures var w' := Do(w, Join(d, id));
            if w.db.docs[id].supersededBy.Some? || (d, id) in w.db.members then w' == w
            else
              && w'.db.members == w.db.members + {(d, id)} && OneEvent(w.db, w'.db, id)
              && w' == w.(db := w.db.(members := w'.db.members, trail := w'.db.trail))
  {}

  /** A member leaves with an event, and nobody else. */
  lemma LeaveIs(w: World, d: DossierId, id: Id)
    requires StateOf(w.db.trail, id).Some?
    ensures var w' := Do(w, Leave(d, id));
            if (d, id) !in w.db.members then w' == w
            else
              && w'.db.members == w.db.members - {(d, id)} && OneEvent(w.db, w'.db, id)
              && w' == w.(db := w.db.(members := w'.db.members, trail := w'.db.trail))
  {}

  lemma NotedOne(t: seq<Rec>, id: Id)
    requires StateOf(t, id).Some?
    ensures |Noted(t, id)| == |t| + 1 && forall x :: StateOf(Noted(t, id), x) == StateOf(t, x)
  {
    NotedQuiet(t, id);
  }

  /** Every membership that ends with a dossier is recorded. */
  lemma {:induction false} ReleasesRecorded(w: World, d: DossierId, ids: seq<Id>, deleted: set<Id>)
    requires forall id :: id in ids ==> StateOf(w.db.trail, id).Some?
    ensures |ReleaseAll(w, d, ids, deleted).db.trail| == |w.db.trail| + |ids|
    decreases |ids|
  {
    if ids != [] {
      NotedOne(w.db.trail, ids[0]);
      ReleaseNotes(w, d, ids[0], ids[0] in deleted);
      ReleasesRecorded(Release(w, d, ids[0], ids[0] in deleted), d, ids[1..], deleted);
    }
  }

  lemma ReleaseNotes(w: World, d: DossierId, id: Id, deleted: bool)
    ensures Release(w, d, id, deleted).db.trail == Noted(w.db.trail, id)
  {}

  /** The dossiers of `ds` that the survivor joins. */
  function Joins(db: Db, ds: seq<DossierId>, survivor: Id): set<DossierId> {
    set d | d in ds && (d, survivor) !in db.members
  }

  lemma MoveNotes(db: Db, d: DossierId, copy: Id, survivor: Id)
    requires Live(db, survivor) && copy != survivor && (d, copy) in db.members
    requires StateOf(db.trail, copy).Some? && StateOf(db.trail, survivor).Some?
    ensures |Move(db, d, copy, survivor).trail|
         == |db.trail| + 1 + if (d, survivor) in db.members then 0 else 1
  {
    NotedOne(db.trail, survivor);
    NotedOne(Add(db, d, survivor).value.trail, copy);
  }

  /** Each dossier a copy leaves is recorded, and each one its survivor joins. */
  lemma {:induction false} MovesRecorded(db: Db, ds: seq<DossierId>, copy: Id, survivor: Id)
    requires Live(db, survivor) && copy != survivor && Distinct(ds)
    requires forall d :: d in ds ==> (d, copy) in db.members
    requires StateOf(db.trail, copy).Some? && StateOf(db.trail, survivor).Some?
    ensures |MoveAll(db, ds, copy, survivor).trail| == |db.trail| + |ds| + |Joins(db, ds, survivor)|
    decreases |ds|
  {
    if ds != [] {
      var db1 := Move(db, ds[0], copy, survivor);
      MoveFacts(db, ds[0], copy, survivor);
      MoveNotes(db, ds[0], copy, survivor);
      assert forall i :: 0 <= i < |ds| - 1 ==> ds[1..][i] == ds[i + 1];
      MovesRecorded(db1, ds[1..], copy, survivor);
      JoinsRest(db, db1, ds, copy, survivor);
    } else {
      assert Joins(db, ds, survivor) == {};
    }
  }

  lemma JoinsRest(db: Db, db1: Db, ds: seq<DossierId>, copy: Id, survivor: Id)
    requires ds != [] && Distinct(ds) && copy != survivor
    requires db1.members == db.members - {(ds[0], copy)} + {(ds[0], survivor)}
    ensures |Joins(db, ds, survivor)|
         == |Joins(db1, ds[1..], survivor)| + if (ds[0], survivor) in db.members then 0 else 1
  {
    var rest := Joins(db1, ds[1..], survivor);
    forall d ensures d in ds[1..] <==> d in ds && d != ds[0] {
      if d in ds && d != ds[0] {
        var i :| 0 <= i < |ds| && ds[i] == d;
        assert ds[1..][i - 1] == d;
      }
      if d in ds[1..] {
        var i :| 0 <= i < |ds| - 1 && ds[1..][i] == d;
        assert ds[i + 1] == d;
      }
    }
    assert forall d :: d in rest <==> d in ds && d != ds[0] && (d, survivor) !in db.members;
    assert Joins(db, ds, survivor) == rest + if (ds[0], survivor) in db.members then {} else {ds[0]};
  }

  // ----- copies -----

  /** A copy is accepted exactly when both documents are there and are two, the survivor has the
      bytes in question and is not retired itself, and the copy is not deleted, and either not
      retired or retired in favour of this survivor. */
  lemma AcceptedExactly(db: Db, copy: Id, survivor: Id, asObject: Option<ObjectKey>, ds: seq<DossierId>)
    requires Sound(db) && DossiersOf(db, copy, ds) && Distinct(ds)
    ensures Supersede(db, copy, survivor, asObject, ds).Some? <==>
              && copy in db.docs && survivor in db.docs && copy != survivor
              && db.docs[survivor].key == (match asObject case None => db.docs[copy].key case Some(key) => key)
              && db.docs[survivor].supersededBy.None?
              && (db.docs[copy].supersededBy == Some(survivor)
                  || (db.docs[copy].supersededBy.None? && StateOf(db.trail, copy) != Some(Deleted)))
  {
    if MaySupersede(db, copy, survivor, asObject) && db.docs[copy].supersededBy.None? {
      SupersedeFacts(db, copy, survivor, asObject, ds);
    }
  }

  // ----- what a deletion takes -----

  /** A deletion takes the entry first, then the object, and the tables last. */
  lemma DeleteStages(w: World, id: Id)
    requires id in w.db.docs
    ensures Delete(w, id, Nowhere) == w
    ensures Delete(w, id, OutOfIndex) == w.(index := w.index - {id})
    ensures var w2 := Delete(w, id, OutOfStore);
            w2.db == w.db && w2.index == w.index - {id} && w2.objects == Delete(w, id, Committed).objects
  {}

  /** The object goes exactly when no other document has its key. */
  lemma ObjectGoesExactly(w: World, id: Id, key: ObjectKey)
    requires Fine(w) && id in w.db.docs && key in w.objects
    ensures key !in Delete(w, id, Committed).objects <==>
              key == w.db.docs[id].key && forall o :: o in w.db.docs && o != id ==> w.db.docs[o].key != key
  {
    DeleteRemoves(w, id, key, "");
  }

  /** A mapping goes exactly when this document registered its token, and no other did. */
  lemma MappingGoesExactly(w: World, id: Id, t: string)
    requires id in w.db.docs && t in w.db.mappings
    ensures t !in Delete(w, id, Committed).db.mappings <==>
              (id, t) in w.db.tokens && forall x :: x != id ==> (x, t) !in w.db.tokens
  {
    var other := exists x :: x != id && (x, t) in w.db.tokens;
    assert SharedToken(w.db, id, t) <==> other by {
      if other {
        var x :| x != id && (x, t) in w.db.tokens;
        assert (x, t).1 == t && (x, t).0 != id;
      }
      if SharedToken(w.db, id, t) {
        var y :| y in w.db.tokens && y.1 == t && y.0 != id;
        assert (y.0, t) == y;
      }
    }
  }

  /** With a dossier goes exactly each document that no other dossier holds. */
  lemma MemberGoesExactly(w: World, d: DossierId, ids: seq<Id>, o: Id)
    requires Fine(w) && MembersOf(w.db, d, ids) && o in w.db.docs && StateOf(w.db.trail, o) != Some(Deleted)
    ensures StateOf(DeleteDossier(w, d, ids).db.trail, o) == Some(Deleted) <==>
              (d, o) in w.db.members && forall e :: (e, o) in w.db.members ==> e == d
  {
    DossierDocuments(w, d, ids, o);
    var other := exists e :: e != d && (e, o) in w.db.members;
    assert Elsewhere(w.db, o, d) <==> other by {
      if other {
        var e :| e != d && (e, o) in w.db.members;
        assert (e, o).1 == o && (e, o).0 != d;
      }
      if Elsewhere(w.db, o, d) {
        var m :| m in w.db.members && m.1 == o && m.0 != d;
        assert (m.0, o) == m;
      }
    }
  }

  /** A deletion of a dossier that is cut while it deletes has touched no document that another
      dossier holds, or that is no member: its object, its entry and all it has in the tables are
      there. */
  lemma CutSparesShared(w: World, d: DossierId, ids: seq<Id>, n: nat, reached: Reached, o: Id)
    requires Fine(w) && MembersOf(w.db, d, ids) && n < |ids|
    requires o in w.db.docs && StateOf(w.db.trail, o) != Some(Deleted)
    requires (d, o) !in w.db.members || exists e :: e != d && (e, o) in w.db.members
    ensures Untouched(w, DeleteTo(w, d, ids, Deleting(n, reached)), o)
  {
    MembersExist(w.db, d, ids);
    if e :| e != d && (e, o) in w.db.members { assert (e, o).1 == o && (e, o).0 != d; }
    OrphansGone(w, d, ids[..n], o);
    var w1 := DeleteOrphans(w, d, ids[..n]);
    assert Elsewhere(w1.db, ids[n], d) <==> Elsewhere(w.db, ids[n], d);
    if !Elsewhere(w1.db, ids[n], d) {
      assert ids[n] in ids && ids[n] != o;
      DeleteSpares(w1, ids[n], reached, o);
    }
  }

  // ----- age -----

  /** At `p` the document was registered, for the first time. */
  ghost predicate FirstAt(t: seq<Rec>, id: Id, p: nat) {
    p < |t| && Registers(t, id, p) && forall q :: 0 <= q < p ==> !Registers(t, id, q)
  }

  predicate Registers(t: seq<Rec>, id: Id, p: int) { 0 <= p < |t| && t[p].doc == id && t[p].from.None? }

  lemma {:induction false} RegisteredAtIs(t: seq<Rec>, id: Id)
    ensures match Registry.RegisteredAt(t, id)
            case Some(p) => FirstAt(t, id, p)
            case None => forall q :: !Registers(t, id, q)
  {
    if t != [] {
      var front := t[..|t| - 1];
      RegisteredAtIs(front, id);
      assert forall q :: Registers(front, id, q) <==> q < |t| - 1 && Registers(t, id, q);
    }
  }

  lemma {:induction false} WasRegistered(t: seq<Rec>, id: Id) returns (p: nat)
    requires Path(t) && StateOf(t, id).Some?
    ensures Registers(t, id, p)
  {
    var front, r := t[..|t| - 1], t[|t| - 1];
    if r.doc == id && r.from.None? {
      p := |t| - 1;
    } else {
      p := WasRegistered(front, id);
      assert front[p] == t[p];
    }
  }

  lemma RegistrationOf(db: Db, id: Id) returns (p: nat)
    requires Tracked(db) && id in db.docs
    ensures FirstAt(db.trail, id, p) && Registry.RegisteredAt(db.trail, id) == Some(p)
  {
    RegisteredAtIs(db.trail, id);
    var q := WasRegistered(db.trail, id);
    p := Registry.RegisteredAt(db.trail, id).value;
  }

  /** `a` was registered before `b`. */
  ghost predicate Earlier(db: Db, a: Id, b: Id) {
    exists p: nat, q: nat :: FirstAt(db.trail, a, p) && FirstAt(db.trail, b, q) && p < q
  }

  lemma OlderExactly(db: Db, a: Id, b: Id)
    requires Tracked(db) && a in db.docs && b in db.docs && a != b
    ensures Registry.Older(db, a, b) <==> Earlier(db, a, b)
  {
    var p := RegistrationOf(db, a);
    var q := RegistrationOf(db, b);
    assert p != q;
    assert forall x: nat :: FirstAt(db.trail, a, x) ==> x == p;
    assert forall x: nat :: FirstAt(db.trail, b, x) ==> x == q;
  }

  /** What dedupe keeps of an object is the live document that was registered first. */
  lemma OldestExactly(db: Db, id: Id)
    requires Tracked(db)
    ensures Registry.Oldest(db, id) <==>
              Live(db, id)
              && forall x :: Live(db, x) && x != id && db.docs[x].key == db.docs[id].key ==> Earlier(db, id, x)
  {
    forall x | Live(db, id) && Live(db, x) && x != id ensures Registry.Older(db, id, x) <==> Earlier(db, id, x) {
      OlderExactly(db, id, x);
    }
  }
}
