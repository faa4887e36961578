/** Documents over their life: registered for an object, retired as copies of one
    another, recovered by OCR, held by dossiers. The tables are one value; a
    transaction is a copy of it that commits or is thrown away. */
module Lifecycle {
  import opened Mappings
  import opened States

  type DossierId = nat

  /** A content address, or the placeholder of a deleted document: the two never
      meet. */
  datatype ObjectKey = Content(address: string) | Released(id: Id)

  datatype Doc = Doc(key: ObjectKey, supersededBy: Option<Id>)

  datatype Db = Db(docs: map<Id, Doc>, trail: seq<Rec>, members: set<(DossierId, Id)>, texts: map<Id, string>,
                   tokens: set<(Id, string)>, mappings: set<string>, grants: set<(string, Id)>,
                   dossiers: set<DossierId>, topics: set<(nat, DossierId)>)

  predicate Live(db: Db, id: Id) { id in db.docs && db.docs[id].supersededBy.None? }

  predicate LiveAt(db: Db, id: Id, key: ObjectKey) { Live(db, id) && db.docs[id].key == key }

  // ----- operations -----

  /** `register`. */
  function Register(db: Db, key: ObjectKey, id: Id): Db {
    db.(docs := db.docs[id := Doc(key, None)], trail := db.trail + [Rec(id, None, Registered)])
  }

  /** `dossiers.add`: `None` when a retired copy is refused. */
  function Add(db: Db, d: DossierId, id: Id): Option<Db> {
    if id in db.docs && db.docs[id].supersededBy.Some? then None
    else if (d, id) in db.members || id !in db.docs then Some(db)
    else Some(db.(members := db.members + {(d, id)}, trail := Noted(db.trail, id)))
  }

  /** `dossiers.remove`. */
  function Remove(db: Db, d: DossierId, id: Id): Db {
    if (d, id) !in db.members then db
    else db.(members := db.members - {(d, id)}, trail := Noted(db.trail, id))
  }

  function Move(db: Db, d: DossierId, copy: Id, survivor: Id): Db {
    match Add(db, d, survivor) case None => db case Some(db1) => Remove(db1, d, copy)
  }

  function MoveAll(db: Db, ds: seq<DossierId>, copy: Id, survivor: Id): Db
    decreases |ds|
  {
    if ds == [] then db else MoveAll(Move(db, ds[0], copy, survivor), ds[1..], copy, survivor)
  }

  /** What `supersede` checks before it changes anything. */
  predicate MaySupersede(db: Db, copy: Id, survivor: Id, asObject: Option<ObjectKey>) {
    && copy in db.docs && survivor in db.docs && copy != survivor
    && (if asObject.Some? then asObject.value else db.docs[copy].key) == db.docs[survivor].key
    && db.docs[survivor].supersededBy.None?
    && db.docs[copy].supersededBy in {None, Some(survivor)}
  }

  /** `supersede`, on the tables; `ds` are the dossiers of the copy, in the order they
      are read. `None` when it raises. */
  function Supersede(db: Db, copy: Id, survivor: Id, asObject: Option<ObjectKey>, ds: seq<DossierId>): Option<Db> {
    if !MaySupersede(db, copy, survivor, asObject) then None
    else if db.docs[copy].supersededBy.Some? then Some(db)
    else
      var db1 := MoveAll(db, ds, copy, survivor);
      match Transition(db1.trail, copy, Superseded)
      case None => None
      case Some(t) => Some(db1.(trail := t, docs := db.docs[copy := Doc(db.docs[copy].key, Some(survivor))]))
  }

  ghost predicate DossiersOf(db: Db, id: Id, ds: seq<DossierId>) { forall d :: d in ds <==> (d, id) in db.members }

  // ----- what every operation keeps -----

  /** The trail is a path, and every document has a state. */
  ghost predicate Tracked(db: Db) {
    Path(db.trail) && forall id :: id in db.docs <==> StateOf(db.trail, id).Some?
  }

  /** The pointer is set exactly when the document was superseded, in favour of a
      document that was not superseded before it. */
  ghost predicate Retired(db: Db) {
    && (forall id :: id in db.docs ==> (db.docs[id].supersededBy.Some? <==> SupersededAt(db.trail, id).Some?))
    && (forall id :: id in db.docs && db.docs[id].supersededBy.Some? ==> Points(db, id, db.docs[id].supersededBy.value))
    && (forall id :: id in db.docs && StateOf(db.trail, id) == Some(Superseded) ==> db.docs[id].supersededBy.Some?)
  }

  ghost predicate Points(db: Db, id: Id, to: Id)
    requires id in db.docs
  {
    && StateOf(db.trail, id) in {Some(Superseded), Some(Deleted)} && to in db.docs && SupersededAt(db.trail, id).Some?
    && (SupersededAt(db.trail, to).Some? ==> SupersededAt(db.trail, id).value < SupersededAt(db.trail, to).value)
  }

  /** Only documents that are not retired are in dossiers. */
  ghost predicate Housed(db: Db) { forall m :: m in db.members ==> Live(db, m.1) }

  /** A deleted document has given up its key, its text and its tokens. */
  ghost predicate Emptied(db: Db) {
    forall id :: id in db.docs ==>
      if StateOf(db.trail, id) == Some(Deleted)
      then db.docs[id].key == Released(id) && id !in db.texts && forall t :: (id, t) !in db.tokens
      else db.docs[id].key.Content?
  }

  ghost predicate Sound(db: Db) { Tracked(db) && Retired(db) && Housed(db) && Emptied(db) }

  /** At most one document that is not superseded per object key. */
  ghost predicate OneLive(db: Db) {
    forall a, b :: Live(db, a) && Live(db, b) && db.docs[a].key == db.docs[b].key ==> a == b
  }

  // ----- events change no state -----

  /** More was recorded, but no document moved. */
  ghost predicate Quiet(t: seq<Rec>, t': seq<Rec>) {
    && (Path(t) ==> Path(t')) && t <= t'
    && (forall x :: StateOf(t', x) == StateOf(t, x) && SupersededAt(t', x) == SupersededAt(t, x))
  }

  lemma NotedQuiet(t: seq<Rec>, id: Id)
    ensures Quiet(t, Noted(t, id))
  {
    var s := StateOf(t, id);
    if s.Some? {
      forall x
        ensures StateOf(Noted(t, id), x) == StateOf(t, x) && SupersededAt(Noted(t, id), x) == SupersededAt(t, x) {
        StateOfAppend(t, Rec(id, s, s.value), x);
      }
      StateOfAppend(t, Rec(id, s, s.value), id);
    }
  }

  lemma QuietTrans(a: seq<Rec>, b: seq<Rec>, c: seq<Rec>)
    requires Quiet(a, b) && Quiet(b, c)
    ensures Quiet(a, c)
  {}

  /** Everything but the trail and the memberships is as it was. */
  ghost predicate SameRest(db: Db, db': Db) { db' == db.(trail := db'.trail, members := db'.members) }

  lemma MoveFacts(db: Db, d: DossierId, copy: Id, survivor: Id)
    requires Live(db, survivor) && copy != survivor && (d, copy) in db.members
    ensures var db' := Move(db, d, copy, survivor);
            && SameRest(db, db') && Quiet(db.trail, db'.trail)
            && db'.members == db.members - {(d, copy)} + {(d, survivor)}
  {
    var db1 := Add(db, d, survivor).value;
    NotedQuiet(db.trail, survivor);
    NotedQuiet(db1.trail, copy);
    QuietTrans(db.trail, db1.trail, Move(db, d, copy, survivor).trail);
  }

  lemma {:induction false} MoveAllFacts(db: Db, ds: seq<DossierId>, copy: Id, survivor: Id)
    requires Live(db, survivor) && copy != survivor
    requires forall d :: d in ds ==> (d, copy) in db.members
    requires forall i, j :: 0 <= i < j < |ds| ==> ds[i] != ds[j]
    ensures var db' := MoveAll(db, ds, copy, survivor);
            && SameRest(db, db') && Quiet(db.trail, db'.trail)
            && (forall m :: m in db'.members <==>
                  (m in db.members && !(m.1 == copy && m.0 in ds)) || (m.1 == survivor && m.0 in ds))
    decreases |ds|
  {
    if ds != [] {
      var db1 := Move(db, ds[0], copy, survivor);
      MoveFacts(db, ds[0], copy, survivor);
      assert forall d :: d in ds[1..] ==> d in ds && d != ds[0];
      MoveAllFacts(db1, ds[1..], copy, survivor);
      QuietTrans(db.trail, db1.trail, MoveAll(db, ds, copy, survivor).trail);
      assert forall d :: d in ds <==> d == ds[0] || d in ds[1..];
    }
  }

  // ----- supersession -----

  ghost predicate Distinct(ds: seq<DossierId>) { forall i, j :: 0 <= i < j < |ds| ==> ds[i] != ds[j] }

  /** What a supersession does, as a whole. */
  ghost predicate Retires(db: Db, db': Db, copy: Id, survivor: Id) {
    && copy in db.docs
    && db' == db.(trail := db'.trail, members := db'.members,
                  docs := db.docs[copy := Doc(db.docs[copy].key, Some(survivor))])
    && Path(db'.trail) && db.trail <= db'.trail
    && (forall x :: StateOf(db'.trail, x) == if x == copy then Some(Superseded) else StateOf(db.trail, x))
    && (forall x :: x != copy ==> SupersededAt(db'.trail, x) == SupersededAt(db.trail, x))
    && SupersededAt(db'.trail, copy).Some? && SupersededAt(db'.trail, copy).value >= |db.trail|
    && (forall m :: m in db'.members <==>
          (m in db.members && m.1 != copy) || (m.1 == survivor && (m.0, copy) in db.members))
  }

  lemma LastRecord(t: seq<Rec>, copy: Id)
    requires Path(t) && Allowed(StateOf(t, copy), Superseded)
    ensures var t' := t + [Rec(copy, StateOf(t, copy), Superseded)];
            && Path(t')
            && (forall x :: StateOf(t', x) == if x == copy then Some(Superseded) else StateOf(t, x))
            && (forall x :: SupersededAt(t', x) == if x == copy then Some(|t|) else SupersededAt(t, x))
  {
    forall x ensures var t' := t + [Rec(copy, StateOf(t, copy), Superseded)];
                     StateOf(t', x) == (if x == copy then Some(Superseded) else StateOf(t, x))
                     && SupersededAt(t', x) == (if x == copy then Some(|t|) else SupersededAt(t, x)) {
      StateOfAppend(t, Rec(copy, StateOf(t, copy), Superseded), x);
    }
    StateOfAppend(t, Rec(copy, StateOf(t, copy), Superseded), copy);
  }

  lemma SupersedeFacts(db: Db, copy: Id, survivor: Id, asObject: Option<ObjectKey>, ds: seq<DossierId>)
    requires Sound(db) && MaySupersede(db, copy, survivor, asObject) && db.docs[copy].supersededBy.None?
    requires DossiersOf(db, copy, ds) && Distinct(ds)
    ensures Supersede(db, copy, survivor, asObject, ds).Some? <==> StateOf(db.trail, copy) != Some(Deleted)
    ensures var r := Supersede(db, copy, survivor, asObject, ds); r.Some? ==> Retires(db, r.value, copy, survivor)
  {
    var db1 := MoveAll(db, ds, copy, survivor);
    MoveAllFacts(db, ds, copy, survivor);
    assert StateOf(db1.trail, copy).Some? && StateOf(db1.trail, copy) != Some(Superseded);
    if StateOf(db.trail, copy) != Some(Deleted) { LastRecord(db1.trail, copy); }
  }

  lemma RetiresTracked(db: Db, db': Db, copy: Id, survivor: Id)
    requires Tracked(db) && Retires(db, db', copy, survivor)
    ensures Tracked(db')
  {}

  lemma RetiresRetired(db: Db, db': Db, copy: Id, survivor: Id)
    requires Retired(db) && Retires(db, db', copy, survivor) && Live(db, survivor) && survivor != copy && Live(db, copy)
    ensures Retired(db')
  {
    assert SupersededAt(db.trail, survivor).None?;
    forall id | id in db'.docs && db'.docs[id].supersededBy.Some?
      ensures Points(db', id, db'.docs[id].supersededBy.value) {
      if id != copy { assert Points(db, id, db.docs[id].supersededBy.value); }
    }
  }

  lemma RetiresHoused(db: Db, db': Db, copy: Id, survivor: Id)
    requires Housed(db) && Retires(db, db', copy, survivor) && Live(db, survivor) && survivor != copy
    ensures Housed(db')
  {
    forall m | m in db'.members ensures Live(db', m.1) {
      assert (m in db.members && m.1 != copy) || m.1 == survivor;
      if m in db.members { assert Live(db, m.1); }
    }
  }

  lemma RetiresEmptied(db: Db, db': Db, copy: Id, survivor: Id)
    requires Emptied(db) && Retires(db, db', copy, survivor) && StateOf(db.trail, copy) != Some(Deleted)
    ensures Emptied(db')
  {}

  lemma RetiresOneLive(db: Db, db': Db, copy: Id, survivor: Id)
    requires Retires(db, db', copy, survivor) && OneLive(db)
    ensures OneLive(db')
  {
    forall a, b | Live(db', a) && Live(db', b) && db'.docs[a].key == db'.docs[b].key ensures a == b {
      assert Live(db, a) && Live(db, b);
    }
  }

  lemma SupersedeSound(db: Db, db': Db, copy: Id, survivor: Id, asObject: Option<ObjectKey>, ds: seq<DossierId>)
    requires Sound(db) && MaySupersede(db, copy, survivor, asObject) && db.docs[copy].supersededBy.None?
    requires DossiersOf(db, copy, ds) && Distinct(ds) && Supersede(db, copy, survivor, asObject, ds) == Some(db')
    ensures Sound(db') && Retires(db, db', copy, survivor) && (OneLive(db) ==> OneLive(db'))
  {
    SupersedeFacts(db, copy, survivor, asObject, ds);
    RetiresTracked(db, db', copy, survivor);
    RetiresRetired(db, db', copy, survivor);
    RetiresHoused(db, db', copy, survivor);
    RetiresEmptied(db, db', copy, survivor);
    if OneLive(db) { RetiresOneLive(db, db', copy, survivor); }
  }

  // ----- following the pointer -----

  function Rank(db: Db, id: Id): nat {
    match SupersededAt(db.trail, id) case None => 0 case Some(p) => |db.trail| - p
  }

  /** The document that took this one's place, as far as that goes. Following the
      pointer ends: each one leads to a document superseded later, or never. */
  ghost function Survivor(db: Db, id: Id): (s: Id)
    requires Retired(db) && id in db.docs
    ensures Live(db, s)
    decreases Rank(db, id)
  {
    if db.docs[id].supersededBy.None? then id
    else
      assert Points(db, id, db.docs[id].supersededBy.value);
      Survivor(db, db.docs[id].supersededBy.value)
  }

  /** No document is lost and no pointer changes. */
  ghost predicate PointersKept(db: Db, db': Db) {
    forall id :: id in db.docs ==>
      id in db'.docs && (db.docs[id].supersededBy.Some? ==> db'.docs[id].supersededBy == db.docs[id].supersededBy)
  }

  lemma {:induction false} FollowLater(db: Db, db': Db, id: Id)
    requires Retired(db) && Retired(db') && PointersKept(db, db') && id in db.docs
    ensures Survivor(db', id) == Survivor(db', Survivor(db, id))
    decreases Rank(db, id)
  {
    if db.docs[id].supersededBy.Some? {
      assert Points(db, id, db.docs[id].supersededBy.value);
      FollowLater(db, db', db.docs[id].supersededBy.value);
    }
  }

  /** Every dossier that held a document holds the one that took its place. */
  ghost predicate HomesKept(db: Db, db': Db)
    requires Retired(db')
  {
    forall m :: m in db.members ==> m.1 in db'.docs && (m.0, Survivor(db', m.1)) in db'.members
  }

  /** What a run of operations leaves as it was. */
  ghost predicate Later(db: Db, db': Db) {
    Retired(db) && Retired(db') && db.trail <= db'.trail && PointersKept(db, db') && HomesKept(db, db')
  }

  lemma LaterTrans(a: Db, b: Db, c: Db)
    requires Later(a, b) && Later(b, c)
    ensures Later(a, c)
  {
    forall m | m in a.members ensures m.1 in c.docs && (m.0, Survivor(c, m.1)) in c.members {
      assert m.1 in b.docs && (m.0, Survivor(b, m.1)) in b.members;
      FollowLater(b, c, m.1);
    }
  }

  lemma LaterSelf(db: Db)
    requires Retired(db) && Housed(db)
    ensures Later(db, db)
  {}

  /** When no pointer was set and no membership ended. */
  lemma LaterSame(db: Db, db': Db)
    requires Retired(db) && Retired(db') && Housed(db) && db.trail <= db'.trail && db.members <= db'.members
    requires forall id :: id in db.docs ==> id in db'.docs && db'.docs[id].supersededBy == db.docs[id].supersededBy
    ensures Later(db, db')
  {
    forall m | m in db.members ensures m.1 in db'.docs && (m.0, Survivor(db', m.1)) in db'.members {
      assert Live(db, m.1);
    }
  }

  lemma RetiresLater(db: Db, db': Db, copy: Id, survivor: Id)
    requires Sound(db) && Sound(db') && Retires(db, db', copy, survivor) && Live(db, survivor) && survivor != copy
             && Live(db, copy)
    ensures Later(db, db')
  {
    forall m | m in db.members ensures m.1 in db'.docs && (m.0, Survivor(db', m.1)) in db'.members {
      assert Live(db, m.1);
      if m.1 == copy {
        assert Survivor(db', copy) == Survivor(db', survivor) == survivor;
        assert (m.0, survivor) in db'.members;
      }
    }
  }

  // ----- one record more -----

  /** A document moved along an ordinary edge, or an event was noted. */
  lemma StepFacts(db: Db, id: Id, to: State)
    requires Tracked(db) && (StateOf(db.trail, id) == Some(to) || Allowed(StateOf(db.trail, id), to))
             && to != Superseded
    ensures var t := db.trail + [Rec(id, StateOf(db.trail, id), to)];
            && Path(t) && db.trail <= t
            && (forall x :: StateOf(t, x) == if x == id then Some(to) else StateOf(db.trail, x))
            && (forall x :: SupersededAt(t, x) == SupersededAt(db.trail, x))
  {
    var r := Rec(id, StateOf(db.trail, id), to);
    forall x ensures StateOf(db.trail + [r], x) == (if x == id then Some(to) else StateOf(db.trail, x))
                     && SupersededAt(db.trail + [r], x) == SupersededAt(db.trail, x) {
      StateOfAppend(db.trail, r, x);
    }
    StateOfAppend(db.trail, r, id);
  }

  /** The tables after such a step, but for the texts, tokens and members. */
  ghost predicate Stepped(db: Db, db': Db, id: Id, to: State) {
    && Path(db'.trail) && db.trail <= db'.trail
    && (forall x :: StateOf(db'.trail, x) == if x == id then Some(to) else StateOf(db.trail, x))
    && (forall x :: SupersededAt(db'.trail, x) == SupersededAt(db.trail, x))
  }

  lemma StepRetired(db: Db, db': Db, id: Id, to: State)
    requires Retired(db) && Stepped(db, db', id, to) && to != Superseded
    requires forall x :: x in db.docs ==> x in db'.docs && db'.docs[x].supersededBy == db.docs[x].supersededBy
    requires forall x :: x in db'.docs && x !in db.docs ==>
               db'.docs[x].supersededBy.None? && SupersededAt(db.trail, x).None?
    requires id in db.docs && db.docs[id].supersededBy.Some? ==> to == Deleted
    requires forall x :: x in db'.docs && x !in db.docs ==> x == id
    ensures Retired(db')
  {
    forall x | x in db'.docs && db'.docs[x].supersededBy.Some? ensures Points(db', x, db'.docs[x].supersededBy.value) {
      assert Points(db, x, db.docs[x].supersededBy.value);
    }
  }

  // ----- the other operations -----

  lemma NeverSuperseded(t: seq<Rec>, id: Id)
    requires Path(t) && StateOf(t, id).None?
    ensures SupersededAt(t, id).None?
  {
    if t != [] { NeverSuperseded(t[..|t| - 1], id); }
  }

  lemma RegisterSound(db: Db, key: ObjectKey, id: Id)
    requires Sound(db) && id !in db.docs && key.Content? && forall x :: !LiveAt(db, x, key)
    ensures var db' := Register(db, key, id);
            Sound(db') && Later(db, db') && StateOf(db'.trail, id) == Some(Registered) && (OneLive(db) ==> OneLive(db'))
  {
    var db' := Register(db, key, id);
    StepFacts(db, id, Registered);
    NeverSuperseded(db.trail, id);
    StepRetired(db, db', id, Registered);
    LaterSame(db, db');
    if OneLive(db) { RegisterOneLive(db, key, id); }
  }

  lemma RegisterOneLive(db: Db, key: ObjectKey, id: Id)
    requires OneLive(db) && id !in db.docs && forall x :: !LiveAt(db, x, key)
    ensures OneLive(Register(db, key, id))
  {
    var db' := Register(db, key, id);
    forall a, b | Live(db', a) && Live(db', b) && db'.docs[a].key == db'.docs[b].key ensures a == b {
      assert a != id ==> Live(db, a) && !LiveAt(db, a, key);
      assert b != id ==> Live(db, b) && !LiveAt(db, b, key);
    }
  }

  lemma AddSound(db: Db, d: DossierId, id: Id)
    requires Sound(db) && Add(db, d, id).Some?
    ensures var db' := Add(db, d, id).value; Sound(db') && Later(db, db') && (OneLive(db) ==> OneLive(db'))
  {
    var db' := Add(db, d, id).value;
    NotedQuiet(db.trail, id);
    QuietRetired(db, db');
    LaterSame(db, db');
  }

  lemma QuietRetired(db: Db, db': Db)
    requires Retired(db) && SameRest(db, db') && Quiet(db.trail, db'.trail)
    ensures Retired(db')
  {
    forall x | x in db'.docs && db'.docs[x].supersededBy.Some? ensures Points(db', x, db'.docs[x].supersededBy.value) {
      assert Points(db, x, db.docs[x].supersededBy.value);
    }
  }

  /** A document moved along an ordinary edge; its texts and tokens may have grown. */
  lemma AdvanceSound(db: Db, db': Db, id: Id, to: State)
    requires Sound(db) && id in db.docs && Edge(StateOf(db.trail, id), to)
    requires db' == db.(trail := db.trail + [Rec(id, StateOf(db.trail, id), to)], texts := db'.texts,
                        tokens := db'.tokens, mappings := db'.mappings)
    requires forall x :: x != id ==> (x in db'.texts <==> x in db.texts)
    requires forall x, t :: x != id ==> ((x, t) in db'.tokens <==> (x, t) in db.tokens)
    ensures Sound(db') && Later(db, db') && (OneLive(db) ==> OneLive(db'))
  {
    StepFacts(db, id, to);
    StepRetired(db, db', id, to);
    LaterSame(db, db');
  }

  /** OCR gave the document an object of its own. */
  lemma RepointSound(db: Db, db': Db, id: Id, key: ObjectKey)
    requires Sound(db) && id in db.docs && StateOf(db.trail, id) == Some(Unprocessable) && key.Content?
    requires db' == db.(docs := db.docs[id := db.docs[id].(key := key)],
                        trail := db.trail + [Rec(id, StateOf(db.trail, id), Extractable)])
    ensures Sound(db') && Later(db, db')
  {
    StepFacts(db, id, Extractable);
    StepRetired(db, db', id, Extractable);
    LaterSame(db, db');
  }

  lemma RepointOneLive(db: Db, db': Db, id: Id, key: ObjectKey)
    requires OneLive(db) && id in db.docs && db'.docs == db.docs[id := db.docs[id].(key := key)]
    requires (forall x :: LiveAt(db, x, key) ==> x == id) || db.docs[id].key == key
    ensures OneLive(db')
  {
    forall a, b | Live(db', a) && Live(db', b) && db'.docs[a].key == db'.docs[b].key ensures a == b {
      assert Live(db, a) && Live(db, b);
      assert LiveAt(db, a, db.docs[a].key) && LiveAt(db, b, db.docs[b].key);
    }
  }
}
