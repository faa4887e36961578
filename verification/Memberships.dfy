/** A dossier ends: a membership is removed, or the whole dossier is deleted, possibly cut
    between two of its effects. What is promised of the others still holds. */
module Memberships {
  import opened Mappings
  import opened States
  import opened Lifecycle
  import opened Deletion

  /** How far the deletion of a dossier came: cut in its first loop, cut in its second, or
      to the end. */
  datatype Came = Deleting(n: nat, reached: Reached) | Releasing(n: nat) | ToEnd

  /** The first `n` members are dealt with, and the next one as far as `c` says. */
  function CutDeleting(w: World, d: DossierId, ids: seq<Id>, n: nat, c: Reached): World
    requires n < |ids|
  {
    var w1 := DeleteOrphans(w, d, ids[..n]);
    if Elsewhere(w1.db, ids[n], d) then w1 else Delete(w1, ids[n], c)
  }

  function CutReleasing(w: World, d: DossierId, ids: seq<Id>, n: nat): World
    requires n < |ids|
  {
    ReleaseAll(DeleteOrphans(w, d, ids), d, ids[..n], Orphans(w.db, d, ids))
  }

  /** `delete_dossier`, as far as it came; a cut one raises, and the tables are as before. */
  function DeleteTo(w: World, d: DossierId, ids: seq<Id>, c: Came): World {
    match c
    case Deleting(n, reached) => if n < |ids| then CutDeleting(w, d, ids, n, reached).(db := w.db) else w
    case Releasing(n) => if n < |ids| then CutReleasing(w, d, ids, n).(db := w.db) else w
    case ToEnd => DeleteDossier(w, d, ids)
  }

  // ----- what a cut deletion keeps -----

  /** Nothing was added to the index. */
  predicate Fewer(w: World, w': World) { forall o :: o in w'.index ==> o in w.index }

  lemma OrphansFewer(w: World, d: DossierId, ids: seq<Id>)
    requires Fine(w) && forall id :: id in ids ==> id in w.db.docs
    ensures Fewer(w, DeleteOrphans(w, d, ids)) && Fine(DeleteOrphans(w, d, ids))
  {
    OrphansGone(w, d, ids, 0);
    forall o | o in DeleteOrphans(w, d, ids).index ensures o in w.index { StaysDeleted(w, d, ids, o); }
  }

  lemma DeleteFewer(w: World, id: Id, c: Reached)
    ensures Fewer(w, Delete(w, id, c))
  {}

  lemma CutDeletingFewer(w: World, d: DossierId, ids: seq<Id>, n: nat, c: Reached)
    requires Fine(w) && n < |ids| && forall id :: id in ids ==> id in w.db.docs
    ensures Fewer(w, CutDeleting(w, d, ids, n, c))
  {
    OrphansFewer(w, d, ids[..n]);
    DeleteFewer(DeleteOrphans(w, d, ids[..n]), ids[n], c);
  }

  lemma CutReleasingFewer(w: World, d: DossierId, ids: seq<Id>, n: nat)
    requires Fine(w) && MembersOf(w.db, d, ids) && n < |ids|
    ensures Fewer(w, CutReleasing(w, d, ids, n))
  {
    MembersExist(w.db, d, ids);
    OrphansFewer(w, d, ids);
    ReleaseAllFacts(DeleteOrphans(w, d, ids), d, ids[..n], Orphans(w.db, d, ids), 0);
  }

  lemma CutFine(w: World, d: DossierId, ids: seq<Id>, c: Came)
    requires Fine(w) && MembersOf(w.db, d, ids) && !c.ToEnd?
    ensures Fine(DeleteTo(w, d, ids, c)) && DeleteTo(w, d, ids, c).db == w.db && Fewer(w, DeleteTo(w, d, ids, c))
  {
    MembersExist(w.db, d, ids);
    match c
    case Deleting(n, reached) => if n < |ids| { CutDeletingFewer(w, d, ids, n, reached); }
    case Releasing(n) => if n < |ids| { CutReleasingFewer(w, d, ids, n); }
  }

  // ----- what stays when memberships end -----

  /** As `Later`, but for the memberships in dossiers of `ended`. */
  ghost predicate LaterBut(db: Db, db': Db, ended: set<DossierId>) {
    && Retired(db) && Retired(db') && db.trail <= db'.trail && PointersKept(db, db')
    && forall m :: m in db.members && m.0 !in ended ==> m.1 in db'.docs && (m.0, Survivor(db', m.1)) in db'.members
  }

  lemma LaterAll(db: Db, db': Db, ended: set<DossierId>)
    requires Later(db, db')
    ensures LaterBut(db, db', ended)
  {}

  lemma LaterButTrans(a: Db, b: Db, c: Db, ended: set<DossierId>, more: set<DossierId>)
    requires LaterBut(a, b, ended) && LaterBut(b, c, more)
    ensures LaterBut(a, c, ended + more)
  {
    forall m | m in a.members && m.0 !in ended + more ensures m.1 in c.docs && (m.0, Survivor(c, m.1)) in c.members {
      assert m.1 in b.docs && (m.0, Survivor(b, m.1)) in b.members;
      FollowLater(b, c, m.1);
    }
  }

  /** Only memberships in `d` ended. */
  ghost predicate Leaves(db: Db, db': Db, d: DossierId) {
    && db' == db.(trail := db'.trail, members := db'.members, topics := db'.topics, dossiers := db'.dossiers)
    && Quiet(db.trail, db'.trail) && db'.members <= db.members
    && forall m :: m in db.members && m.0 != d ==> m in db'.members
  }

  lemma LeavesRetired(db: Db, db': Db, d: DossierId)
    requires Retired(db) && Leaves(db, db', d)
    ensures Retired(db')
  {
    forall x | x in db'.docs && db'.docs[x].supersededBy.Some? ensures Points(db', x, db'.docs[x].supersededBy.value) {
      assert Points(db, x, db.docs[x].supersededBy.value);
    }
  }

  lemma LeavesSound(db: Db, db': Db, d: DossierId)
    requires Sound(db) && Leaves(db, db', d)
    ensures Sound(db') && (OneLive(db) ==> OneLive(db'))
  {
    LeavesRetired(db, db', d);
    forall m | m in db'.members ensures Live(db', m.1) { assert Live(db, m.1); }
    forall x, y | OneLive(db) && Live(db', x) && Live(db', y) && db'.docs[x].key == db'.docs[y].key ensures x == y {
      assert Live(db, x) && Live(db, y);
    }
  }

  lemma LeavesLater(db: Db, db': Db, d: DossierId)
    requires Sound(db) && Leaves(db, db', d)
    ensures LaterBut(db, db', {d})
  {
    LeavesRetired(db, db', d);
    forall m | m in db.members && m.0 !in {d} ensures m.1 in db'.docs && (m.0, Survivor(db', m.1)) in db'.members {
      assert Live(db, m.1) && m in db'.members;
    }
  }

  lemma RemoveLeaves(db: Db, d: DossierId, id: Id)
    ensures Leaves(db, Remove(db, d, id), d)
  {
    NotedQuiet(db.trail, id);
  }

  // ----- a deletion that comes to its end -----

  lemma {:induction false} OrphansLater(w: World, d: DossierId, ids: seq<Id>)
    requires Fine(w) && forall id :: id in ids ==> id in w.db.docs
    ensures Later(w.db, DeleteOrphans(w, d, ids).db)
    decreases |ids|
  {
    if ids == [] {
      LaterSelf(w.db);
    } else if Elsewhere(w.db, ids[0], d) {
      OrphansLater(w, d, ids[1..]);
    } else {
      var w1 := Delete(w, ids[0], Committed);
      DeleteFine(w, ids[0]);
      DeleteKeepsMembers(w, ids[0], Committed);
      OrphansLater(w1, d, ids[1..]);
      LaterTrans(w.db, w1.db, DeleteOrphans(w1, d, ids[1..]).db);
    }
  }

  lemma ReleasedLeaves(w: World, d: DossierId, ids: seq<Id>, deleted: set<Id>, db': Db)
    requires forall i, j :: 0 <= i < j < |ids| ==> ids[i] != ids[j]
    requires var r := ReleaseAll(w, d, ids, deleted).db; db' == r.(topics := db'.topics, dossiers := db'.dossiers)
    ensures Leaves(w.db, db', d)
  {
    ReleaseAllFacts(w, d, ids, deleted, 0);
  }

  /** The whole deletion: everything stays sound, and memberships end in `d` only. */
  lemma DossierEnds(w: World, d: DossierId, ids: seq<Id>)
    requires Fine(w) && MembersOf(w.db, d, ids)
    ensures var w' := DeleteDossier(w, d, ids);
            && Fine(w') && LaterBut(w.db, w'.db, {d}) && (OneLive(w.db) ==> OneLive(w'.db)) && Fewer(w, w')
  {
    var w1, w' := DeleteOrphans(w, d, ids), DeleteDossier(w, d, ids);
    MembersExist(w.db, d, ids);
    OrphansGone(w, d, ids, 0);
    OrphansFewer(w, d, ids);
    OrphansLater(w, d, ids);
    LaterAll(w.db, w1.db, {});
    ReleasedLeaves(w1, d, ids, Orphans(w.db, d, ids), w'.db);
    LeavesSound(w1.db, w'.db, d);
    LeavesLater(w1.db, w'.db, d);
    LaterButTrans(w.db, w1.db, w'.db, {}, {d});
    assert {} + {d} == {d};
    ReleaseAllFacts(w1, d, ids, Orphans(w.db, d, ids), 0);
  }
}
