/** Forgetting a document, and a dossier. The index and the object store do not roll
    back with the tables, so a deletion can be cut between any two of its effects. */
module Deletion {
  import opened Mappings
  import opened States
  import opened Lifecycle

  datatype Entry = Entry(text: string, key: ObjectKey, dossiers: set<DossierId>)

  /** The tables, and what outlives a rollback. */
  datatype World = World(db: Db, index: map<Id, Entry>, objects: set<ObjectKey>)

  // ----- deleting a document -----

  /** Another document that is not deleted names the object. */
  predicate Claimed(db: Db, id: Id, key: ObjectKey) {
    exists o :: o in db.docs && o != id && db.docs[o].key == key && StateOf(db.trail, o) != Some(Deleted)
  }

  predicate SharedToken(db: Db, id: Id, t: string) { exists x :: x in db.tokens && x.1 == t && x.0 != id }

  function Unindexed(w: World, id: Id): World { w.(index := w.index - {id}) }

  function ObjectGone(w: World, id: Id): World
    requires id in w.db.docs
  {
    if Claimed(w.db, id, w.db.docs[id].key) then w else w.(objects := w.objects - {w.db.docs[id].key})
  }

  /** The work on the tables: text, tokens, mappings nobody else needs, grants, the
      key, and the record. */
  function Emptying(db: Db, id: Id): Db
    requires id in db.docs
  {
    var f := StateOf(db.trail, id);
    db.(texts := db.texts - {id},
        tokens := (set x | x in db.tokens && x.0 != id),
        mappings := (set t | t in db.mappings && !((id, t) in db.tokens && !SharedToken(db, id, t))),
        grants := (set g | g in db.grants && g.1 != id),
        docs := if f == Some(Deleted) then db.docs else db.docs[id := db.docs[id].(key := Released(id))],
        trail := if f == Some(Deleted) then db.trail else db.trail + [Rec(id, f, Deleted)])
  }

  /** How far a deletion came: its external effects in order, then the commit. */
  datatype Reached = Nowhere | OutOfIndex | OutOfStore | Committed

  /** `delete_document`, cut where `c` says; only `Committed` changes the tables. */
  function Delete(w: World, id: Id, c: Reached): World {
    if id !in w.db.docs || c == Nowhere then w
    else
      var w1 := Unindexed(w, id);
      if c == OutOfIndex then w1
      else
        var w2 := ObjectGone(w1, id);
        if c == OutOfStore then w2 else w2.(db := Emptying(w2.db, id))
  }

  /** The world is sound: so are the tables, and no deleted document can be found. */
  ghost predicate Fine(w: World) {
    Sound(w.db) && forall id :: id in w.index ==> StateOf(w.db.trail, id) != Some(Deleted)
  }

  lemma EmptyingSound(db: Db, id: Id)
    requires Sound(db) && id in db.docs
    ensures var db' := Emptying(db, id);
            && Sound(db') && Later(db, db') && (OneLive(db) ==> OneLive(db'))
            && (forall x :: StateOf(db'.trail, x) == if x == id then Some(Deleted) else StateOf(db.trail, x))
  {
    var db' := Emptying(db, id);
    if StateOf(db.trail, id) == Some(Deleted) {
      AlreadyEmpty(db, db', id);
    } else {
      EmptyingStep(db, db', id);
      if OneLive(db) { ReleasedOneLive(db, db', id); }
    }
  }

  lemma EmptyingStep(db: Db, db': Db, id: Id)
    requires Sound(db) && id in db.docs && StateOf(db.trail, id) != Some(Deleted) && db' == Emptying(db, id)
    ensures Sound(db') && Later(db, db')
    ensures forall x :: StateOf(db'.trail, x) == if x == id then Some(Deleted) else StateOf(db.trail, x)
  {
    StepFacts(db, id, Deleted);
    StepRetired(db, db', id, Deleted);
    LaterSame(db, db');
    EmptyingTables(db, db', id);
  }

  lemma EmptyingTables(db: Db, db': Db, id: Id)
    requires Housed(db) && Emptied(db) && id in db.docs && db' == Emptying(db, id)
    requires forall x :: StateOf(db'.trail, x) == if x == id then Some(Deleted) else StateOf(db.trail, x)
    ensures Housed(db') && Emptied(db')
  {}

  lemma AlreadyEmpty(db: Db, db': Db, id: Id)
    requires Sound(db) && id in db.docs && StateOf(db.trail, id) == Some(Deleted) && db' == Emptying(db, id)
    ensures db' == db.(grants := db'.grants) && Sound(db') && Later(db, db') && (OneLive(db) ==> OneLive(db'))
  {
    assert db'.texts == db.texts && db'.tokens == db.tokens && db'.mappings == db.mappings;
    forall x | x in db'.docs && db'.docs[x].supersededBy.Some? ensures Points(db', x, db'.docs[x].supersededBy.value) {
      assert Points(db, x, db.docs[x].supersededBy.value);
    }
    LaterSame(db, db');
    forall a, b | OneLive(db) && Live(db', a) && Live(db', b) && db'.docs[a].key == db'.docs[b].key ensures a == b {
      assert Live(db, a) && Live(db, b);
    }
  }

  lemma ReleasedOneLive(db: Db, db': Db, id: Id)
    requires Sound(db) && OneLive(db) && id in db.docs && StateOf(db.trail, id) != Some(Deleted)
    requires db'.docs == db.docs[id := db.docs[id].(key := Released(id))]
    ensures OneLive(db')
  {
    forall a, b | Live(db', a) && Live(db', b) && db'.docs[a].key == db'.docs[b].key ensures a == b {
      assert Live(db, a) && Live(db, b);
      assert a != id ==> db.docs[a].key != Released(id);
      assert b != id ==> db.docs[b].key != Released(id);
    }
  }

  lemma DeleteIs(w: World, id: Id)
    requires id in w.db.docs
    ensures var w' := Delete(w, id, Committed); w'.db == Emptying(w.db, id) && w'.index == w.index - {id}
  {}

  lemma DeleteFine(w: World, id: Id)
    requires Fine(w) && id in w.db.docs
    ensures var w' := Delete(w, id, Committed);
            && Fine(w') && Later(w.db, w'.db) && (OneLive(w.db) ==> OneLive(w'.db))
            && (forall x :: StateOf(w'.db.trail, x) == if x == id then Some(Deleted) else StateOf(w.db.trail, x))
  {
    EmptyingSound(w.db, id);
    DeleteIs(w, id);
  }

  /** A completed deletion leaves no index entry, no text, no token and no grant, and
      gives the key up. */
  lemma DeleteEmpties(w: World, id: Id)
    requires Fine(w) && id in w.db.docs
    ensures var w' := Delete(w, id, Committed);
            && StateOf(w'.db.trail, id) == Some(Deleted) && w'.db.docs[id].key == Released(id)
            && id !in w'.index && id !in w'.db.texts && (forall t :: (id, t) !in w'.db.tokens)
            && (forall g :: g in w'.db.grants ==> g.1 != id)
  {
    DeleteFine(w, id);
  }

  /** A cut deletion keeps the tables, and everything sound. */
  lemma CutKeeps(w: World, id: Id, c: Reached)
    requires Fine(w) && c != Committed
    ensures Fine(Delete(w, id, c)) && Delete(w, id, c).db == w.db
  {}

  /** Cut anywhere, any number of times: the run that completes ends as if it had been
      the only one. */
  function Attempts(w: World, id: Id, cuts: seq<Reached>): World
    decreases |cuts|
  {
    if cuts == [] then w else Attempts(Delete(w, id, cuts[0]), id, cuts[1..])
  }

  lemma CutThenDone(w: World, id: Id, c: Reached)
    requires c != Committed
    ensures Delete(Delete(w, id, c), id, Committed) == Delete(w, id, Committed)
  {
    if id in w.db.docs && c != Nowhere {
      assert (w.index - {id}) - {id} == w.index - {id};
      var k := w.db.docs[id].key;
      assert (w.objects - {k}) - {k} == w.objects - {k};
    }
  }

  lemma {:induction false} DeleteResumes(w: World, id: Id, cuts: seq<Reached>)
    requires forall k :: 0 <= k < |cuts| ==> cuts[k] != Committed
    ensures Delete(Attempts(w, id, cuts), id, Committed) == Delete(w, id, Committed)
    decreases |cuts|
  {
    if cuts != [] {
      DeleteResumes(Delete(w, id, cuts[0]), id, cuts[1..]);
      CutThenDone(w, id, cuts[0]);
    }
  }

  /** Wherever a deletion is cut, no other document loses its object, text, tokens,
      mappings, memberships, grants or index entry. */
  ghost predicate Untouched(w: World, w': World, o: Id) {
    && (o in w'.db.docs && o in w.db.docs && w'.db.docs[o] == w.db.docs[o])
    && StateOf(w'.db.trail, o) == StateOf(w.db.trail, o)
    && (w.db.docs[o].key in w.objects ==> w.db.docs[o].key in w'.objects)
    && (o in w.db.texts <==> o in w'.db.texts) && (o in w.db.texts ==> w'.db.texts[o] == w.db.texts[o])
    && (forall t :: (o, t) in w.db.tokens <==> (o, t) in w'.db.tokens)
    && (forall t :: (o, t) in w.db.tokens && t in w.db.mappings ==> t in w'.db.mappings)
    && (forall g :: (g, o) in w.db.grants <==> (g, o) in w'.db.grants)
    && (o in w.index <==> o in w'.index) && (o in w.index ==> w'.index[o] == w.index[o])
  }

  lemma EmptyingSpares(db: Db, id: Id, o: Id)
    requires Sound(db) && id in db.docs && o in db.docs && o != id
    ensures var db' := Emptying(db, id);
            && o in db'.docs && db'.docs[o] == db.docs[o] && StateOf(db'.trail, o) == StateOf(db.trail, o)
            && (o in db.texts <==> o in db'.texts) && (o in db.texts ==> db'.texts[o] == db.texts[o])
            && (forall t :: (o, t) in db.tokens <==> (o, t) in db'.tokens)
            && (forall t :: (o, t) in db.tokens && t in db.mappings ==> t in db'.mappings)
            && (forall g :: (g, o) in db.grants <==> (g, o) in db'.grants)
  {
    EmptyingSound(db, id);
    forall t | (o, t) in db.tokens && t in db.mappings ensures t in Emptying(db, id).mappings {
      assert (o, t).1 == t && (o, t).0 != id;
    }
  }

  lemma DeleteShape(w: World, id: Id, c: Reached)
    ensures var w' := Delete(w, id, c);
            && (w'.index == w.index || w'.index == w.index - {id})
            && (w'.db == w.db || (id in w.db.docs && w'.db == Emptying(w.db, id)))
  {}

  lemma SparedBy(w: World, w': World, id: Id, o: Id)
    requires Sound(w.db) && o in w.db.docs && o != id
    requires w'.index == w.index || w'.index == w.index - {id}
    requires w'.db == w.db || (id in w.db.docs && w'.db == Emptying(w.db, id))
    requires w.db.docs[o].key in w.objects ==> w.db.docs[o].key in w'.objects
    ensures Untouched(w, w', o) && w'.db.members == w.db.members
  {
    if w'.db != w.db { EmptyingSpares(w.db, id, o); }
  }

  lemma DeleteSpares(w: World, id: Id, c: Reached, o: Id)
    requires Fine(w) && o in w.db.docs && o != id && StateOf(w.db.trail, o) != Some(Deleted)
    ensures Untouched(w, Delete(w, id, c), o) && Delete(w, id, c).db.members == w.db.members
  {
    ObjectSpared(w, id, c, o);
    DeleteShape(w, id, c);
    SparedBy(w, Delete(w, id, c), id, o);
  }

  lemma ObjectSpared(w: World, id: Id, c: Reached, o: Id)
    requires o in w.db.docs && o != id && StateOf(w.db.trail, o) != Some(Deleted)
    ensures w.db.docs[o].key in w.objects ==> w.db.docs[o].key in Delete(w, id, c).objects
  {
    if id in w.db.docs {
      assert w.db.docs[o].key == w.db.docs[id].key ==> Claimed(w.db, id, w.db.docs[id].key);
    }
  }

  /** The object goes exactly when no other document that is not deleted names it, the
      mapping exactly when no other document registers it. */
  lemma DeleteRemoves(w: World, id: Id, key: ObjectKey, t: string)
    requires id in w.db.docs
    ensures var w' := Delete(w, id, Committed);
            && (key in w.objects && key !in w'.objects <==>
                  key in w.objects && key == w.db.docs[id].key && !Claimed(w.db, id, key))
            && (t in w.db.mappings && t !in w'.db.mappings <==>
                  t in w.db.mappings && (id, t) in w.db.tokens && !SharedToken(w.db, id, t))
  {}

  // ----- deleting a dossier -----

  predicate Elsewhere(db: Db, id: Id, d: DossierId) { exists m :: m in db.members && m.1 == id && m.0 != d }

  function Dossiers(db: Db, id: Id): set<DossierId> { set m | m in db.members && m.1 == id :: m.0 }

  /** The first pass: each member of no other dossier is deleted. */
  function DeleteOrphans(w: World, d: DossierId, ids: seq<Id>): World
    decreases |ids|
  {
    if ids == [] then w
    else DeleteOrphans(if Elsewhere(w.db, ids[0], d) then w else Delete(w, ids[0], Committed), d, ids[1..])
  }

  /** One membership ended; a document another dossier holds stays indexed under those. */
  function Release(w: World, d: DossierId, id: Id, deleted: bool): World {
    var db := w.db.(members := w.db.members - {(d, id)});
    World(db.(trail := Noted(db.trail, id)),
          if !deleted && id in w.index then w.index[id := w.index[id].(dossiers := Dossiers(db, id))] else w.index,
          w.objects)
  }

  function ReleaseAll(w: World, d: DossierId, ids: seq<Id>, deleted: set<Id>): World
    decreases |ids|
  {
    if ids == [] then w else ReleaseAll(Release(w, d, ids[0], ids[0] in deleted), d, ids[1..], deleted)
  }

  /** The members a deletion of `d` deletes; the others it releases. */
  function Orphans(db: Db, d: DossierId, ids: seq<Id>): (r: set<Id>)
    ensures r == set id | id in ids && !Elsewhere(db, id, d)
  {
    set id | id in ids && !Elsewhere(db, id, d)
  }

  /** `delete_dossier`; `ids` are the members in the order they are read. */
  function DeleteDossier(w: World, d: DossierId, ids: seq<Id>): World {
    var w1 := DeleteOrphans(w, d, ids);
    var w2 := ReleaseAll(w1, d, ids, Orphans(w.db, d, ids));
    w2.(db := w2.db.(topics := (set t | t in w2.db.topics && t.1 != d), dossiers := w2.db.dossiers - {d}))
  }

  ghost predicate MembersOf(db: Db, d: DossierId, ids: seq<Id>) {
    (forall id :: id in ids <==> (d, id) in db.members) && forall i, j :: 0 <= i < j < |ids| ==> ids[i] != ids[j]
  }

  lemma DeleteKeepsMembers(w: World, id: Id, c: Reached)
    ensures Delete(w, id, c).db.members == w.db.members && Delete(w, id, c).db.topics == w.db.topics
    ensures Delete(w, id, c).db.dossiers == w.db.dossiers && Delete(w, id, c).db.docs.Keys == w.db.docs.Keys
  {}

  /** The first pass deletes exactly the members no other dossier holds. */
  lemma {:induction false} OrphansGone(w: World, d: DossierId, ids: seq<Id>, o: Id)
    requires Fine(w) && forall id :: id in ids ==> id in w.db.docs
    ensures var w' := DeleteOrphans(w, d, ids);
            && Fine(w') && w'.db.members == w.db.members && w'.db.topics == w.db.topics
            && w'.db.dossiers == w.db.dossiers
            && w'.db.docs.Keys == w.db.docs.Keys && (OneLive(w.db) ==> OneLive(w'.db))
            && (o in ids && !Elsewhere(w.db, o, d) ==> StateOf(w'.db.trail, o) == Some(Deleted) && o !in w'.index)
            && (o in w.db.docs && (o !in ids || Elsewhere(w.db, o, d)) && StateOf(w.db.trail, o) != Some(Deleted) ==>
                  Untouched(w, w', o))
    decreases |ids|
  {
    if ids != [] {
      var w1 := if Elsewhere(w.db, ids[0], d) then w else Delete(w, ids[0], Committed);
      DeleteKeepsMembers(w, ids[0], Committed);
      if !Elsewhere(w.db, ids[0], d) {
        DeleteFine(w, ids[0]);
        DeleteEmpties(w, ids[0]);
        if o in w.db.docs && o != ids[0] && StateOf(w.db.trail, o) != Some(Deleted) {
          DeleteSpares(w, ids[0], Committed, o);
        }
      }
      OrphansGone(w1, d, ids[1..], o);
      if o == ids[0] { StaysDeleted(w1, d, ids[1..], o); }
      assert o in ids <==> o == ids[0] || o in ids[1..];
    }
  }

  lemma DeleteOnly(w: World, id: Id, o: Id)
    requires Fine(w) && id in w.db.docs
    ensures var w' := Delete(w, id, Committed);
            && Fine(w') && w'.db.docs.Keys == w.db.docs.Keys && (o !in w.index ==> o !in w'.index)
            && (StateOf(w.db.trail, o) == Some(Deleted) ==> StateOf(w'.db.trail, o) == Some(Deleted))
  {
    DeleteFine(w, id);
    DeleteIs(w, id);
  }

  lemma {:induction false} StaysDeleted(w: World, d: DossierId, ids: seq<Id>, o: Id)
    requires Fine(w) && (forall id :: id in ids ==> id in w.db.docs)
    ensures var w' := DeleteOrphans(w, d, ids);
            Fine(w') && (StateOf(w.db.trail, o) == Some(Deleted) ==> StateOf(w'.db.trail, o) == Some(Deleted))
            && (o !in w.index ==> o !in w'.index)
    decreases |ids|
  {
    if ids != [] {
      if Elsewhere(w.db, ids[0], d) {
        StaysDeleted(w, d, ids[1..], o);
      } else {
        DeleteOnly(w, ids[0], o);
        StaysDeleted(Delete(w, ids[0], Committed), d, ids[1..], o);
      }
    }
  }

  /** The memberships in `d` of `ids` end; nothing else of the tables changes but the
      trail, which gains events. */
  ghost predicate ReleasedFrom(w: World, w': World, d: DossierId, ids: seq<Id>) {
    && SameRest(w.db, w'.db) && Quiet(w.db.trail, w'.db.trail) && w'.objects == w.objects
    && (forall m :: m in w'.db.members <==> m in w.db.members && !(m.0 == d && m.1 in ids))
    && w'.index.Keys == w.index.Keys
    && (forall o :: o in w.index ==> w'.index[o].text == w.index[o].text && w'.index[o].key == w.index[o].key)
    && (forall o :: o in w.index && o !in ids ==> w'.index[o] == w.index[o])
  }

  lemma ReleaseOne(w: World, d: DossierId, id: Id, deleted: bool)
    ensures ReleasedFrom(w, Release(w, d, id, deleted), d, [id])
    ensures id in w.index && !deleted ==> Release(w, d, id, deleted).index[id].dossiers == Dossiers(w.db, id) - {d}
  {
    NotedQuiet(w.db.trail, id);
    var db := w.db.(members := w.db.members - {(d, id)});
    forall e ensures e in Dossiers(db, id) <==> e in Dossiers(w.db, id) - {d} {
      assert e in Dossiers(w.db, id) <==> (e, id) in w.db.members;
      assert e in Dossiers(db, id) <==> (e, id) in db.members;
    }
  }

  lemma ReleaseTrans(a: World, b: World, c: World, d: DossierId, id: Id, ids: seq<Id>)
    requires ReleasedFrom(a, b, d, [id]) && ReleasedFrom(b, c, d, ids)
    ensures ReleasedFrom(a, c, d, [id] + ids)
  {
    QuietTrans(a.db.trail, b.db.trail, c.db.trail);
    assert forall o :: o in [id] + ids <==> o == id || o in ids;
  }

  lemma DossiersSame(db: Db, db': Db, id: Id)
    requires forall e :: (e, id) in db.members <==> (e, id) in db'.members
    ensures Dossiers(db, id) == Dossiers(db', id)
  {
    forall e ensures e in Dossiers(db, id) <==> e in Dossiers(db', id) {
      assert e in Dossiers(db, id) <==> (e, id) in db.members;
      assert e in Dossiers(db', id) <==> (e, id) in db'.members;
    }
  }

  lemma {:induction false} ReleaseAllFacts(w: World, d: DossierId, ids: seq<Id>, deleted: set<Id>, o: Id)
    requires forall i, j :: 0 <= i < j < |ids| ==> ids[i] != ids[j]
    ensures var w' := ReleaseAll(w, d, ids, deleted);
            && ReleasedFrom(w, w', d, ids)
            && (o in ids && o !in deleted && o in w.index ==> w'.index[o].dossiers == Dossiers(w.db, o) - {d})
    decreases |ids|
  {
    if ids == [] {
      assert w.db == w.db.(trail := w.db.trail, members := w.db.members);
    } else {
      var id, w1 := ids[0], Release(w, d, ids[0], ids[0] in deleted);
      ReleaseOne(w, d, id, id in deleted);
      assert forall k :: 0 <= k < |ids| - 1 ==> ids[1..][k] == ids[k + 1];
      ReleaseAllFacts(w1, d, ids[1..], deleted, o);
      ReleaseTrans(w, w1, ReleaseAll(w, d, ids, deleted), d, id, ids[1..]);
      assert [id] + ids[1..] == ids;
      if o in ids[1..] {
        assert o != id;
        DossiersSame(w.db, w1.db, o);
      } else if o == id {
        assert o !in ids[1..];
      }
    }
  }

  /** The index's scope field agrees with the memberships. */
  ghost predicate ScopeAgrees(w: World) { forall id :: id in w.index ==> w.index[id].dossiers == Dossiers(w.db, id) }

  /** Each dossier keeps exactly its members, except `d`, which has none. */
  lemma DossierMembers(w: World, d: DossierId, ids: seq<Id>)
    requires Fine(w) && MembersOf(w.db, d, ids)
    ensures forall m :: m in DeleteDossier(w, d, ids).db.members <==> m in w.db.members && m.0 != d
    ensures forall t :: t in DeleteDossier(w, d, ids).db.topics <==> t in w.db.topics && t.1 != d
    ensures DeleteDossier(w, d, ids).db.dossiers == w.db.dossiers - {d}
  {
    MembersExist(w.db, d, ids);
    OrphansGone(w, d, ids, 0);
    ReleaseAllFacts(DeleteOrphans(w, d, ids), d, ids, Orphans(w.db, d, ids), 0);
    forall m | m in w.db.members && m.0 == d ensures m.1 in ids { assert m == (d, m.1); }
  }

  lemma MembersExist(db: Db, d: DossierId, ids: seq<Id>)
    requires Sound(db) && MembersOf(db, d, ids)
    ensures forall id :: id in ids ==> id in db.docs && Live(db, id)
  {
    forall id | id in ids ensures Live(db, id) { assert (d, id) in db.members; }
  }

  /** A member is deleted exactly when no other dossier holds it; every other document
      keeps its object, text, tokens, mappings and grants. */
  ghost predicate Kept(w: World, w': World, o: Id) {
    && o in w'.db.docs && o in w.db.docs && w'.db.docs[o] == w.db.docs[o]
    && StateOf(w'.db.trail, o) == StateOf(w.db.trail, o)
    && (w.db.docs[o].key in w.objects ==> w.db.docs[o].key in w'.objects)
    && (o in w.db.texts <==> o in w'.db.texts) && (o in w.db.texts ==> w'.db.texts[o] == w.db.texts[o])
    && (forall t :: (o, t) in w.db.tokens <==> (o, t) in w'.db.tokens)
    && (forall t :: (o, t) in w.db.tokens && t in w.db.mappings ==> t in w'.db.mappings)
    && (forall g :: (g, o) in w.db.grants <==> (g, o) in w'.db.grants)
    && (o in w.index <==> o in w'.index)
    && (o in w.index ==> w'.index[o].text == w.index[o].text && w'.index[o].key == w.index[o].key)
  }

  lemma DossierDocuments(w: World, d: DossierId, ids: seq<Id>, o: Id)
    requires Fine(w) && MembersOf(w.db, d, ids) && o in w.db.docs && StateOf(w.db.trail, o) != Some(Deleted)
    ensures var w' := DeleteDossier(w, d, ids);
            if (d, o) in w.db.members && !Elsewhere(w.db, o, d)
            then StateOf(w'.db.trail, o) == Some(Deleted) && o !in w'.index
            else Kept(w, w', o)
  {
    MembersExist(w.db, d, ids);
    OrphansGone(w, d, ids, o);
    ReleaseAllFacts(DeleteOrphans(w, d, ids), d, ids, Orphans(w.db, d, ids), o);
  }

  /** The index's scope field agreed before, so it agrees after. */
  lemma DossierScope(w: World, d: DossierId, ids: seq<Id>)
    requires Fine(w) && MembersOf(w.db, d, ids) && ScopeAgrees(w)
    ensures ScopeAgrees(DeleteDossier(w, d, ids))
  {
    var w' := DeleteDossier(w, d, ids);
    MembersExist(w.db, d, ids);
    DossierMembers(w, d, ids);
    forall o | o in w'.index ensures w'.index[o].dossiers == Dossiers(w'.db, o) { DossierScopeOf(w, d, ids, o); }
  }

  lemma {:induction false} OrphansIndex(w: World, d: DossierId, ids: seq<Id>, o: Id)
    ensures var w1 := DeleteOrphans(w, d, ids); o in w1.index ==> o in w.index && w1.index[o] == w.index[o]
    decreases |ids|
  {
    if ids != [] {
      var w1 := if Elsewhere(w.db, ids[0], d) then w else Delete(w, ids[0], Committed);
      OrphansIndex(w1, d, ids[1..], o);
    }
  }

  lemma DossierScopeOf(w: World, d: DossierId, ids: seq<Id>, o: Id)
    requires Fine(w) && MembersOf(w.db, d, ids) && ScopeAgrees(w) && (forall id :: id in ids ==> id in w.db.docs)
    requires o in DeleteDossier(w, d, ids).index
    requires forall m :: m in DeleteDossier(w, d, ids).db.members <==> m in w.db.members && m.0 != d
    ensures DeleteDossier(w, d, ids).index[o].dossiers == Dossiers(DeleteDossier(w, d, ids).db, o)
  {
    var w1, w' := DeleteOrphans(w, d, ids), DeleteDossier(w, d, ids);
    OrphansGone(w, d, ids, o);
    OrphansIndex(w, d, ids, o);
    ReleaseAllFacts(w1, d, ids, Orphans(w.db, d, ids), o);
    DossiersSame(w.db, w1.db, o);
    forall e ensures e in Dossiers(w'.db, o) <==> e in Dossiers(w.db, o) - {d} {
      assert e in Dossiers(w.db, o) <==> (e, o) in w.db.members;
      assert e in Dossiers(w'.db, o) <==> (e, o) in w'.db.members;
    }
    if o !in ids { assert (d, o) !in w.db.members; }
  }
}
