/** Every run: documents are delivered, processed, recovered, retired, filed and
    forgotten in any order, each operation committing or rolling back, and whatever it
    did outside the tables staying done. */
module Runs {
  import opened Mappings
  import opened States
  import opened Lifecycle
  import opened Deletion
  import opened Memberships

  datatype Op =
    | Deliver(key: ObjectKey, id: Id)                       // ingest: register_live, and the object
    | Advance(id: Id, to: State)                            // profile, extract, fail
    | Deidentify(id: Id, text: string, toks: set<string>)   // anonymize: text, tokens, mappings
    | Publish(id: Id)                                       // embed and index
    | Rederive(id: Id, text: string, toks: set<string>)     // reanonymize
    | Retire(copy: Id, survivor: Id, ds: seq<DossierId>)    // supersede, dedupe
    | Ocr(id: Id, key: ObjectKey, good: bool, owner: Option<Id>, ds: seq<DossierId>)   // recover
    | Join(d: DossierId, id: Id)                            // dossiers.add
    | Leave(d: DossierId, id: Id)                           // dossiers.remove
    | Close(d: DossierId, ids: seq<Id>, came: Came)         // delete_dossier, possibly cut
    | Forget(id: Id, reached: Reached)                      // delete_document

  /** What the operation reads: the dossiers of the copy in some order, the live document of
      an object, and the members of a dossier. */
  ghost predicate Fits(w: World, op: Op) {
    match op
    case Retire(copy, _, ds) => DossiersOf(w.db, copy, ds) && Distinct(ds)
    case Ocr(id, key, _, owner, ds) =>
      && DossiersOf(w.db, id, ds) && Distinct(ds) && key.Content?
      && (if owner.Some? then LiveAt(w.db, owner.value, key) else forall x :: !LiveAt(w.db, x, key))
    case Close(d, ids, _) => MembersOf(w.db, d, ids)
    case _ => true
  }

  function Recorded(db: Db, id: Id, to: State): Db { db.(trail := db.trail + [Rec(id, StateOf(db.trail, id), to)]) }

  /** `supersede` with the index: the copy is taken out of it first. */
  function Superseding(w: World, copy: Id, survivor: Id, ds: seq<DossierId>): World {
    if !MaySupersede(w.db, copy, survivor, None) || w.db.docs[copy].supersededBy.Some? then w
    else
      var w1 := w.(index := w.index - {copy});
      match Supersede(w.db, copy, survivor, None, ds) case None => w1 case Some(db) => w1.(db := db)
  }

  function Recovered(w: World, id: Id, key: ObjectKey, good: bool, owner: Option<Id>, ds: seq<DossierId>): World {
    if id !in w.db.docs || StateOf(w.db.trail, id) != Some(Unprocessable) then w
    else if !good then w.(db := w.db.(trail := Noted(w.db.trail, id)))
    else
      var w1 := w.(objects := w.objects + {key});
      if owner.Some? && owner.value != id then
        match Supersede(w.db, id, owner.value, Some(key), ds) case None => w1 case Some(db) => w1.(db := db)
      else
        w1.(db := Recorded(w.db, id, Extractable).(docs := w.db.docs[id := w.db.docs[id].(key := key)]))
  }

  /** The operation, committed. */
  function Do(w: World, op: Op): World {
    match op
    case Deliver(key, id) =>
      if !key.Content? || id in w.db.docs then w
      else
        var w1 := w.(objects := w.objects + {key});
        if exists x :: x in w.db.docs && LiveAt(w.db, x, key) then w1 else w1.(db := Register(w.db, key, id))
    case Advance(id, to) =>
      if id in w.db.docs && Edge(StateOf(w.db.trail, id), to) && to !in {Anonymized, Indexed}
      then w.(db := Recorded(w.db, id, to)) else w
    case Deidentify(id, text, toks) =>
      if id in w.db.docs && StateOf(w.db.trail, id) == Some(Extracted) then
        w.(db := Recorded(w.db, id, Anonymized).(texts := w.db.texts[id := text],
                                                tokens := w.db.tokens + (set t | t in toks :: (id, t)),
                                                mappings := w.db.mappings + toks))
      else w
    case Publish(id) =>
      if id in w.db.docs && StateOf(w.db.trail, id) == Some(Anonymized) then
        var text := if id in w.db.texts then w.db.texts[id] else "";
        World(Recorded(w.db, id, Indexed), w.index[id := Entry(text, w.db.docs[id].key, Dossiers(w.db, id))], w.objects)
      else w
    case Rederive(id, text, toks) =>
      if id in w.db.docs && StateOf(w.db.trail, id) in {Some(Indexed), Some(Anonymized)} then
        World(w.db.(trail := Noted(w.db.trail, id), texts := w.db.texts[id := text],
                    tokens := w.db.tokens + (set t | t in toks :: (id, t)), mappings := w.db.mappings + toks),
              w.index[id := Entry(text, w.db.docs[id].key, Dossiers(w.db, id))], w.objects)
      else w
    case Retire(copy, survivor, ds) => Superseding(w, copy, survivor, ds)
    case Ocr(id, key, good, owner, ds) => Recovered(w, id, key, good, owner, ds)
    case Join(d, id) => (match Add(w.db, d, id) case None => w case Some(db) => w.(db := db))
    case Leave(d, id) => w.(db := Remove(w.db, d, id))
    case Close(d, ids, came) => DeleteTo(w, d, ids, came)
    case Forget(id, reached) => Delete(w, id, reached)
  }

  /** The dossiers whose memberships an operation may end. */
  function Ends(op: Op): set<DossierId> {
    match op case Leave(d, _) => {d} case Close(d, _, _) => {d} case _ => {}
  }

  /** The operation in its transaction: a rollback undoes the tables, nothing else. */
  function Transact(w: World, op: Op, commit: bool): World {
    if commit then Do(w, op) else Do(w, op).(db := w.db)
  }

  ghost predicate Keeps(w: World, w': World) {
    Fine(w') && Later(w.db, w'.db) && (OneLive(w.db) ==> OneLive(w'.db))
  }

  /** The same, but for memberships in dossiers of `ended`. */
  ghost predicate KeepsBut(w: World, w': World, ended: set<DossierId>) {
    Fine(w') && LaterBut(w.db, w'.db, ended) && (OneLive(w.db) ==> OneLive(w'.db))
  }

  lemma KeepsAll(w: World, w': World, ended: set<DossierId>)
    requires Keeps(w, w')
    ensures KeepsBut(w, w', ended)
  {
    LaterAll(w.db, w'.db, ended);
  }

  lemma KeepsSelf(w: World)
    requires Fine(w)
    ensures Keeps(w, w)
  {
    LaterSelf(w.db);
  }

  lemma DeliverKeeps(w: World, key: ObjectKey, id: Id)
    requires Fine(w)
    ensures Keeps(w, Do(w, Deliver(key, id)))
  {
    KeepsSelf(w);
    if key.Content? && id !in w.db.docs && !(exists x :: x in w.db.docs && LiveAt(w.db, x, key)) {
      forall x ensures !LiveAt(w.db, x, key) { assert x in w.db.docs ==> !LiveAt(w.db, x, key); }
      RegisterSound(w.db, key, id);
      StepFacts(w.db, id, Registered);
    }
  }

  lemma AdvanceKeeps(w: World, w': World, id: Id, to: State)
    requires Fine(w) && id in w.db.docs && Edge(StateOf(w.db.trail, id), to)
    requires w'.db == Recorded(w.db, id, to).(texts := w'.db.texts, tokens := w'.db.tokens, mappings := w'.db.mappings)
    requires forall x :: x != id ==> (x in w'.db.texts <==> x in w.db.texts)
    requires forall x, t :: x != id ==> ((x, t) in w'.db.tokens <==> (x, t) in w.db.tokens)
    requires forall x :: x in w'.index ==> x in w.index || x == id
    ensures Keeps(w, w')
  {
    AdvanceSound(w.db, w'.db, id, to);
    StepFacts(w.db, id, to);
  }

  lemma RetireKeeps(w: World, copy: Id, survivor: Id, ds: seq<DossierId>)
    requires Fine(w) && DossiersOf(w.db, copy, ds) && Distinct(ds)
    ensures Keeps(w, Superseding(w, copy, survivor, ds))
  {
    var r := Supersede(w.db, copy, survivor, None, ds);
    if MaySupersede(w.db, copy, survivor, None) && w.db.docs[copy].supersededBy.None? {
      LaterSelf(w.db);
      if r.Some? {
        SupersedeSound(w.db, r.value, copy, survivor, None, ds);
        RetiresLater(w.db, r.value, copy, survivor);
      }
    } else {
      KeepsSelf(w);
    }
  }

  lemma OcrKeeps(w: World, id: Id, key: ObjectKey, good: bool, owner: Option<Id>, ds: seq<DossierId>)
    requires Fine(w) && Fits(w, Ocr(id, key, good, owner, ds))
    ensures Keeps(w, Recovered(w, id, key, good, owner, ds))
  {
    if id !in w.db.docs || StateOf(w.db.trail, id) != Some(Unprocessable) {
      KeepsSelf(w);
    } else if !good {
      NoteKeeps(w, id);
    } else if owner.Some? && owner.value != id {
      OcrCopyKeeps(w, id, key, owner.value, ds);
    } else {
      OcrMovesKeeps(w, id, key, owner, ds);
    }
  }

  lemma NoteKeeps(w: World, id: Id)
    requires Fine(w)
    ensures Keeps(w, w.(db := w.db.(trail := Noted(w.db.trail, id))))
  {
    var db' := w.db.(trail := Noted(w.db.trail, id));
    NotedQuiet(w.db.trail, id);
    QuietRetired(w.db, db');
    LaterSame(w.db, db');
  }

  lemma OcrCopyKeeps(w: World, id: Id, key: ObjectKey, owner: Id, ds: seq<DossierId>)
    requires Fine(w) && DossiersOf(w.db, id, ds) && Distinct(ds) && id in w.db.docs && owner != id
             && LiveAt(w.db, owner, key)
    requires StateOf(w.db.trail, id) == Some(Unprocessable)
    ensures Keeps(w, Recovered(w, id, key, true, Some(owner), ds))
  {
    NotRetired(w.db, id);
    var r := Supersede(w.db, id, owner, Some(key), ds);
    LaterSelf(w.db);
    if r.Some? {
      SupersedeSound(w.db, r.value, id, owner, Some(key), ds);
      RetiresLater(w.db, r.value, id, owner);
    }
  }

  lemma OcrMovesKeeps(w: World, id: Id, key: ObjectKey, owner: Option<Id>, ds: seq<DossierId>)
    requires Fine(w) && Fits(w, Ocr(id, key, true, owner, ds)) && (owner.Some? ==> owner.value == id)
    requires id in w.db.docs && StateOf(w.db.trail, id) == Some(Unprocessable)
    ensures Keeps(w, Recovered(w, id, key, true, owner, ds))
  {
    var db' := Recovered(w, id, key, true, owner, ds).db;
    RepointSound(w.db, db', id, key);
    if OneLive(w.db) { RepointOneLive(w.db, db', id, key); }
    StepFacts(w.db, id, Extractable);
  }

  lemma NotRetired(db: Db, id: Id)
    requires Retired(db) && id in db.docs && StateOf(db.trail, id) == Some(Unprocessable)
    ensures db.docs[id].supersededBy.None?
  {
    assert db.docs[id].supersededBy.Some? ==> Points(db, id, db.docs[id].supersededBy.value);
  }

  lemma ForgetKeeps(w: World, id: Id, c: Reached)
    requires Fine(w)
    ensures Keeps(w, Delete(w, id, c))
  {
    LaterSelf(w.db);
    if id in w.db.docs && c == Committed { DeleteFine(w, id); } else if c != Committed { CutKeeps(w, id, c); }
  }

  lemma JoinKeeps(w: World, d: DossierId, id: Id)
    requires Fine(w)
    ensures Keeps(w, Do(w, Join(d, id)))
  {
    KeepsSelf(w);
    if Add(w.db, d, id).Some? {
      AddSound(w.db, d, id);
      NotedQuiet(w.db.trail, id);
    }
  }

  lemma RederiveKeeps(w: World, id: Id, text: string, toks: set<string>)
    requires Fine(w)
    ensures Keeps(w, Do(w, Rederive(id, text, toks)))
  {
    KeepsSelf(w);
    var w' := Do(w, Rederive(id, text, toks));
    if id in w.db.docs && StateOf(w.db.trail, id) in {Some(Indexed), Some(Anonymized)} {
      NotedQuiet(w.db.trail, id);
      RewrittenSound(w.db, w'.db, id);
    }
  }

  /** New text and tokens for a document that is not deleted, and an event. */
  lemma RewrittenSound(db: Db, db': Db, id: Id)
    requires Sound(db) && id in db.docs && StateOf(db.trail, id) != Some(Deleted)
    requires db' == db.(trail := Noted(db.trail, id), texts := db'.texts, tokens := db'.tokens,
                        mappings := db'.mappings)
    requires forall x :: x != id ==> (x in db'.texts <==> x in db.texts)
    requires forall x, t :: x != id ==> ((x, t) in db'.tokens <==> (x, t) in db.tokens)
    ensures Sound(db') && Later(db, db') && (OneLive(db) ==> OneLive(db'))
  {
    NotedQuiet(db.trail, id);
    var quiet := db.(trail := db'.trail);
    QuietRetired(db, quiet);
    forall x | x in db'.docs && db'.docs[x].supersededBy.Some? ensures Points(db', x, db'.docs[x].supersededBy.value) {
      assert Points(quiet, x, quiet.docs[x].supersededBy.value);
    }
    LaterSame(db, db');
  }

  lemma LeaveKeeps(w: World, d: DossierId, id: Id)
    requires Fine(w)
    ensures KeepsBut(w, Do(w, Leave(d, id)), {d})
  {
    var db' := Remove(w.db, d, id);
    RemoveLeaves(w.db, d, id);
    LeavesSound(w.db, db', d);
    LeavesLater(w.db, db', d);
  }

  lemma CloseKeeps(w: World, d: DossierId, ids: seq<Id>, came: Came)
    requires Fine(w) && MembersOf(w.db, d, ids)
    ensures KeepsBut(w, Do(w, Close(d, ids, came)), {d}) && Fewer(w, Do(w, Close(d, ids, came)))
  {
    if came.ToEnd? {
      DossierEnds(w, d, ids);
    } else {
      CutFine(w, d, ids, came);
      LaterSelf(w.db);
      LaterAll(w.db, w.db, {d});
    }
  }

  /** Every other operation ends no membership. */
  lemma OthersKeep(w: World, op: Op)
    requires Fine(w) && Fits(w, op) && !op.Leave? && !op.Close?
    ensures Keeps(w, Do(w, op))
  {
    KeepsSelf(w);
    match op
    case Deliver(key, id) => DeliverKeeps(w, key, id);
    case Advance(id, to) => if Do(w, op) != w { AdvanceKeeps(w, Do(w, op), id, to); }
    case Deidentify(id, text, toks) => if Do(w, op) != w { AdvanceKeeps(w, Do(w, op), id, Anonymized); }
    case Publish(id) => if Do(w, op) != w { AdvanceKeeps(w, Do(w, op), id, Indexed); }
    case Rederive(id, text, toks) => RederiveKeeps(w, id, text, toks);
    case Retire(copy, survivor, ds) => RetireKeeps(w, copy, survivor, ds);
    case Ocr(id, key, good, owner, ds) => OcrKeeps(w, id, key, good, owner, ds);
    case Join(d, id) => JoinKeeps(w, d, id);
    case Forget(id, reached) => ForgetKeeps(w, id, reached);
  }

  lemma DoKeeps(w: World, op: Op)
    requires Fine(w) && Fits(w, op)
    ensures KeepsBut(w, Do(w, op), Ends(op))
  {
    match op
    case Leave(d, id) => LeaveKeeps(w, d, id);
    case Close(d, ids, came) => CloseKeeps(w, d, ids, came);
    case _ =>
      OthersKeep(w, op);
      KeepsAll(w, Do(w, op), Ends(op));
  }

  /** A rollback keeps an index entry only for documents that are not deleted. */
  lemma DoIndexes(w: World, op: Op)
    requires Fine(w) && Fits(w, op)
    ensures forall x :: x in Do(w, op).index ==>
              x in w.index || StateOf(w.db.trail, x) in {Some(Anonymized), Some(Indexed)}
  {
    if op.Close? { CloseKeeps(w, op.d, op.ids, op.came); }
  }

  lemma TransactKeeps(w: World, op: Op, commit: bool)
    requires Fine(w) && Fits(w, op)
    ensures KeepsBut(w, Transact(w, op, commit), Ends(op))
  {
    DoKeeps(w, op);
    if !commit {
      DoIndexes(w, op);
      LaterSelf(w.db);
      LaterAll(w.db, w.db, Ends(op));
    }
  }

  // ----- runs -----

  /** A run is legal when each operation reads what is there. */
  ghost predicate Legal(w: World, ops: seq<(Op, bool)>)
    decreases |ops|
  {
    ops == [] || (Fits(w, ops[0].0) && Legal(Transact(w, ops[0].0, ops[0].1), ops[1..]))
  }

  function Run(w: World, ops: seq<(Op, bool)>): World
    decreases |ops|
  {
    if ops == [] then w else Run(Transact(w, ops[0].0, ops[0].1), ops[1..])
  }

  /** The dossiers that a run takes documents from, or closes. */
  function Ended(ops: seq<(Op, bool)>): set<DossierId> {
    if ops == [] then {} else Ends(ops[0].0) + Ended(ops[1..])
  }

  lemma KeepsTrans(a: World, b: World, c: World)
    requires Keeps(a, b) && Keeps(b, c)
    ensures Keeps(a, c)
  {
    LaterTrans(a.db, b.db, c.db);
  }

  lemma KeepsButTrans(a: World, b: World, c: World, ended: set<DossierId>, more: set<DossierId>)
    requires KeepsBut(a, b, ended) && KeepsBut(b, c, more)
    ensures KeepsBut(a, c, ended + more)
  {
    LaterButTrans(a.db, b.db, c.db, ended, more);
  }

  lemma {:induction false} RunKeeps(w: World, ops: seq<(Op, bool)>)
    requires Fine(w) && Legal(w, ops)
    ensures KeepsBut(w, Run(w, ops), Ended(ops))
    decreases |ops|
  {
    if ops == [] {
      KeepsSelf(w);
      KeepsAll(w, w, {});
    } else {
      var w1 := Transact(w, ops[0].0, ops[0].1);
      TransactKeeps(w, ops[0].0, ops[0].1);
      RunKeeps(w1, ops[1..]);
      KeepsButTrans(w, w1, Run(w1, ops[1..]), Ends(ops[0].0), Ended(ops[1..]));
    }
  }

  // ----- what can be found -----

  /** Only documents that were not retired can be found, and only those that have come as far as a
      text. */
  ghost predicate LiveIndex(w: World) { forall id :: id in w.index ==> Showable(w.db, id) }

  ghost predicate Showable(db: Db, id: Id) {
    Live(db, id) && StateOf(db.trail, id) in {Some(Anonymized), Some(Indexed), Some(Failed)}
  }

  lemma RecordedState(db: Db, id: Id, to: State, x: Id)
    ensures StateOf(Recorded(db, id, to).trail, x) == if x == id then Some(to) else StateOf(db.trail, x)
  {
    StateOfAppend(db.trail, Rec(id, StateOf(db.trail, id), to), x);
  }

  lemma DeliverShows(w: World, key: ObjectKey, id: Id, x: Id)
    requires Showable(w.db, x)
    ensures Showable(Do(w, Deliver(key, id)).db, x)
  {
    StateOfAppend(w.db.trail, Rec(id, None, Registered), x);
  }

  /** A document that can be shown, or now has a text, can be shown after an ordinary step. */
  lemma StepShows(w: World, op: Op, x: Id)
    requires op.Advance? || op.Deidentify? || op.Publish?
    requires Retired(w.db) && (Showable(w.db, x) || (x in Do(w, op).index && x !in w.index))
    ensures Showable(Do(w, op).db, x)
  {
    match op
    case Advance(id, to) => RecordedState(w.db, id, to, x);
    case Deidentify(id, _, _) => RecordedState(w.db, id, Anonymized, x);
    case Publish(id) =>
      RecordedState(w.db, id, Indexed, x);
      if x in w.db.docs { LiveState(w.db, x); }
  }

  lemma LiveState(db: Db, id: Id)
    requires Retired(db) && id in db.docs && StateOf(db.trail, id) !in {Some(Superseded), Some(Deleted)}
    ensures Live(db, id)
  {
    assert db.docs[id].supersededBy.Some? ==> Points(db, id, db.docs[id].supersededBy.value);
  }

  lemma RederiveShows(w: World, id: Id, text: string, toks: set<string>, x: Id)
    requires Retired(w.db)
    requires Showable(w.db, x) || (x in Do(w, Rederive(id, text, toks)).index && x !in w.index)
    ensures Showable(Do(w, Rederive(id, text, toks)).db, x)
  {
    NotedQuiet(w.db.trail, id);
    if x in w.db.docs && StateOf(w.db.trail, x) !in {Some(Superseded), Some(Deleted)} { LiveState(w.db, x); }
  }

  /** A successful supersession takes the copy out of the index, and touches no other entry. */
  lemma SupersedingIndex(w: World, copy: Id, survivor: Id, ds: seq<DossierId>)
    requires MaySupersede(w.db, copy, survivor, None) && w.db.docs[copy].supersededBy.None?
    ensures var w' := Superseding(w, copy, survivor, ds);
            copy !in w'.index && forall x :: x != copy ==>
              (x in w'.index <==> x in w.index) && (x in w.index ==> w'.index[x] == w.index[x])
  {}

  lemma RetireShows(w: World, copy: Id, survivor: Id, ds: seq<DossierId>, x: Id)
    requires Sound(w.db) && DossiersOf(w.db, copy, ds) && Distinct(ds) && Showable(w.db, x)
    requires x in Superseding(w, copy, survivor, ds).index
    ensures Showable(Superseding(w, copy, survivor, ds).db, x)
  {
    if MaySupersede(w.db, copy, survivor, None) && w.db.docs[copy].supersededBy.None? {
      SupersedingIndex(w, copy, survivor, ds);
      SupersedeFacts(w.db, copy, survivor, None, ds);
    }
  }

  lemma OcrShows(w: World, id: Id, key: ObjectKey, good: bool, owner: Option<Id>, ds: seq<DossierId>, x: Id)
    requires Fine(w) && Fits(w, Ocr(id, key, good, owner, ds)) && Showable(w.db, x)
    ensures Showable(Recovered(w, id, key, good, owner, ds).db, x)
  {
    if id in w.db.docs && StateOf(w.db.trail, id) == Some(Unprocessable) {
      NotedQuiet(w.db.trail, id);
      RecordedState(w.db, id, Extractable, x);
      if good && owner.Some? && owner.value != id {
        NotRetired(w.db, id);
        SupersedeFacts(w.db, id, owner.value, Some(key), ds);
      }
    }
  }

  lemma MemberShows(w: World, op: Op, x: Id)
    requires (op.Join? || op.Leave?) && Showable(w.db, x)
    ensures Showable(Do(w, op).db, x)
  {
    NotedQuiet(w.db.trail, op.id);
  }

  lemma ForgetShows(w: World, id: Id, reached: Reached, x: Id)
    requires Fine(w) && Showable(w.db, x) && x in Delete(w, id, reached).index
    ensures Showable(Delete(w, id, reached).db, x)
  {
    if x != id { DeleteSpares(w, id, reached, x); }
  }

  lemma CloseShows(w: World, d: DossierId, ids: seq<Id>, came: Came, x: Id)
    requires Fine(w) && MembersOf(w.db, d, ids) && Showable(w.db, x) && x in DeleteTo(w, d, ids, came).index
    ensures Showable(DeleteTo(w, d, ids, came).db, x)
  {
    if came.ToEnd? { DossierDocuments(w, d, ids, x); } else { CutFine(w, d, ids, came); }
  }

  /** Whatever is in the index after an operation can be shown. */
  lemma DoShows(w: World, op: Op, x: Id)
    requires Fine(w) && Fits(w, op) && LiveIndex(w) && x in Do(w, op).index
    ensures Showable(Do(w, op).db, x)
  {
    DoIndexes(w, op);
    match op
    case Deliver(key, id) => DeliverShows(w, key, id, x);
    case Advance(_, _) => StepShows(w, op, x);
    case Deidentify(_, _, _) => StepShows(w, op, x);
    case Publish(_) => StepShows(w, op, x);
    case Rederive(id, text, toks) => RederiveShows(w, id, text, toks, x);
    case Retire(copy, survivor, ds) => RetireShows(w, copy, survivor, ds, x);
    case Ocr(id, key, good, owner, ds) => OcrShows(w, id, key, good, owner, ds, x);
    case Join(_, _) => MemberShows(w, op, x);
    case Leave(_, _) => MemberShows(w, op, x);
    case Close(d, ids, came) =>
      CloseKeeps(w, d, ids, came);
      CloseShows(w, d, ids, came, x);
    case Forget(id, reached) => ForgetShows(w, id, reached, x);
  }

  /** With the tables rolled back too. */
  lemma TransactShows(w: World, op: Op, commit: bool)
    requires Fine(w) && Fits(w, op) && LiveIndex(w)
    ensures LiveIndex(Transact(w, op, commit))
  {
    DoIndexes(w, op);
    forall x | x in Transact(w, op, commit).index ensures Showable(Transact(w, op, commit).db, x) {
      if commit { DoShows(w, op, x); } else if x !in w.index { LiveState(w.db, x); }
    }
  }

  lemma {:induction false} RunShows(w: World, ops: seq<(Op, bool)>)
    requires Fine(w) && Legal(w, ops) && LiveIndex(w)
    ensures LiveIndex(Run(w, ops))
    decreases |ops|
  {
    if ops != [] {
      TransactKeeps(w, ops[0].0, ops[0].1);
      TransactShows(w, ops[0].0, ops[0].1);
      RunShows(Transact(w, ops[0].0, ops[0].1), ops[1..]);
    }
  }

  const EMPTY: World := World(Db(map[], [], {}, map[], {}, {}, {}, {}, {}), map[], {})

  /** Over every run, from nothing or from any sound state: each object key keeps at most
      one document that is not superseded; every trail is a path of allowed edges;
      following a pointer ends at a document that is not superseded; a deleted document
      has no index entry, text or token; and a retired one has no index entry, when none had one
      before the run. */
  lemma RunsAreSound(w: World, ops: seq<(Op, bool)>, id: Id)
    requires Fine(w) && Legal(w, ops)
    ensures var w' := Run(w, ops);
            && (OneLive(w.db) ==> OneLive(w'.db)) && Path(w'.db.trail) && Retired(w'.db)
            && (id in w'.db.docs ==> Live(w'.db, Survivor(w'.db, id)))
            && (StateOf(w'.db.trail, id) == Some(Deleted) ==>
                  id !in w'.index && id !in w'.db.texts && forall t :: (id, t) !in w'.db.tokens)
            && (LiveIndex(w) ==> LiveIndex(w'))
            && (LiveIndex(w) && id in w'.db.docs && w'.db.docs[id].supersededBy.Some? ==> id !in w'.index)
  {
    RunKeeps(w, ops);
    if LiveIndex(w) { RunShows(w, ops); }
  }

  lemma EmptyFine()
    ensures Fine(EMPTY) && OneLive(EMPTY.db) && LiveIndex(EMPTY)
  {}

  /** Over every run: a pointer is set once, and every dossier that held a document, and that
      the run neither closes nor takes a document from, holds the one that took its place. */
  lemma RunsKeepHomes(w: World, ops: seq<(Op, bool)>, d: DossierId, id: Id)
    requires Fine(w) && Legal(w, ops) && id in w.db.docs
    ensures var w' := Run(w, ops);
            && id in w'.db.docs && Retired(w'.db)
            && (w.db.docs[id].supersededBy.Some? ==> w'.db.docs[id].supersededBy == w.db.docs[id].supersededBy)
            && ((d, id) in w.db.members && d !in Ended(ops) ==> (d, Survivor(w'.db, id)) in w'.db.members)
            && (StateOf(w.db.trail, id) == Some(Deleted) ==> StateOf(w'.db.trail, id) == Some(Deleted))
  {
    RunKeeps(w, ops);
    var w' := Run(w, ops);
    assert w'.db.trail == w.db.trail + w'.db.trail[|w.db.trail|..];
    if StateOf(w.db.trail, id) == Some(Deleted) { DeletedStays(w.db.trail, w'.db.trail[|w.db.trail|..], id); }
  }

  // ----- a scan that OCR replaced -----

  /** No document names the object, or will be taken for it. */
  predicate Unnamed(db: Db, key: ObjectKey) { forall o :: o in db.docs ==> db.docs[o].key != key }

  /** A document is delivered as a scan, found unprocessable and given an object of its
      own by OCR. */
  function ScanRun(id: Id, scan: ObjectKey, key: ObjectKey): seq<(Op, bool)> {
    [(Deliver(scan, id), true), (Advance(id, Unprocessable), true), (Ocr(id, key, true, None, []), true)]
  }

  lemma ScanDelivered(w: World, id: Id, scan: ObjectKey)
    requires Fine(w) && id !in w.db.docs && scan.Content? && Unnamed(w.db, scan)
    ensures var w' := Do(w, Deliver(scan, id));
            && Fine(w') && w'.db.docs == w.db.docs[id := Doc(scan, None)] && w'.objects == w.objects + {scan}
            && w'.db.members == w.db.members && StateOf(w'.db.trail, id) == Some(Registered)
  {
    DeliverKeeps(w, scan, id);
    StateOfAppend(w.db.trail, Rec(id, None, Registered), id);
  }

  lemma ScanRefused(w: World, id: Id)
    requires Fine(w) && id in w.db.docs && StateOf(w.db.trail, id) == Some(Registered)
    ensures var w' := Do(w, Advance(id, Unprocessable));
            && Fine(w') && w'.db.docs == w.db.docs && w'.objects == w.objects
            && w'.db.members == w.db.members && StateOf(w'.db.trail, id) == Some(Unprocessable)
  {
    OthersKeep(w, Advance(id, Unprocessable));
    StateOfAppend(w.db.trail, Rec(id, Some(Registered), Unprocessable), id);
  }

  lemma ScanMoves(w: World, id: Id, scan: ObjectKey, key: ObjectKey)
    requires Fine(w) && id in w.db.docs && StateOf(w.db.trail, id) == Some(Unprocessable) && key.Content?
    requires forall m :: m in w.db.members ==> m.1 != id
    requires forall o :: !LiveAt(w.db, o, key)
    ensures var w' := Do(w, Ocr(id, key, true, None, []));
            && Fits(w, Ocr(id, key, true, None, [])) && Fine(w') && w'.objects == w.objects + {key}
            && w'.db.docs == w.db.docs[id := w.db.docs[id].(key := key)]
  {
    OthersKeep(w, Ocr(id, key, true, None, []));
  }

  lemma RunStep(w: World, op: Op, ops: seq<(Op, bool)>)
    requires Fits(w, op) && Legal(Do(w, op), ops)
    ensures Legal(w, [(op, true)] + ops) && Run(w, [(op, true)] + ops) == Run(Do(w, op), ops)
  {
    assert ([(op, true)] + ops)[1..] == ops;
  }

  lemma RunThree(w: World, a: Op, b: Op, c: Op)
    requires Fits(w, a) && Fits(Do(w, a), b) && Fits(Do(Do(w, a), b), c)
    ensures Legal(w, [(a, true), (b, true), (c, true)])
    ensures Run(w, [(a, true), (b, true), (c, true)]) == Do(Do(Do(w, a), b), c)
  {
    var w1, w2 := Do(w, a), Do(Do(w, a), b);
    RunStep(w2, c, []);
    RunStep(w1, b, [(c, true)]);
    RunStep(w, a, [(b, true), (c, true)]);
    assert [(c, true)] + [] == [(c, true)];
    assert [(b, true)] + [(c, true)] == [(b, true), (c, true)];
    assert [(a, true)] + [(b, true), (c, true)] == [(a, true), (b, true), (c, true)];
  }

  lemma NoneHolds(w: World, id: Id)
    requires Fine(w) && id !in w.db.docs
    ensures forall m :: m in w.db.members ==> m.1 != id
  {
    forall m | m in w.db.members ensures m.1 != id { assert Live(w.db, m.1); }
  }

  lemma NoneLiveAt(db: Db, key: ObjectKey)
    requires Unnamed(db, key)
    ensures forall o :: !LiveAt(db, o, key)
  {}

  /** The first two steps. */
  lemma ScanStart(w: World, id: Id, scan: ObjectKey) returns (w2: World)
    requires Fine(w) && id !in w.db.docs && scan.Content? && Unnamed(w.db, scan)
    ensures Fits(w, Deliver(scan, id)) && Fits(Do(w, Deliver(scan, id)), Advance(id, Unprocessable))
    ensures w2 == Do(Do(w, Deliver(scan, id)), Advance(id, Unprocessable))
    ensures Fine(w2) && w2.db.docs == w.db.docs[id := Doc(scan, None)] && w2.objects == w.objects + {scan}
    ensures w2.db.members == w.db.members && StateOf(w2.db.trail, id) == Some(Unprocessable)
  {
    ScanDelivered(w, id, scan);
    var w1 := Do(w, Deliver(scan, id));
    ScanRefused(w1, id);
    w2 := Do(w1, Advance(id, Unprocessable));
  }

  lemma SetTwice<K, V>(m: map<K, V>, k: K, a: V, b: V)
    ensures m[k := a][k := b] == m[k := b]
  {}

  /** The third. */
  lemma ScanGetsObject(w: World, id: Id, scan: ObjectKey, key: ObjectKey) returns (w': World)
    requires Fine(w) && id !in w.db.docs && scan.Content? && key.Content? && scan != key
    requires Unnamed(w.db, scan) && Unnamed(w.db, key)
    ensures Legal(w, ScanRun(id, scan, key)) && w' == Run(w, ScanRun(id, scan, key)) && Fine(w')
    ensures w'.db.docs == w.db.docs[id := Doc(key, None)] && w'.objects == w.objects + {scan, key}
  {
    NoneHolds(w, id);
    var w2 := ScanStart(w, id, scan);
    NoneLiveAt(w2.db, key);
    ScanMoves(w2, id, scan, key);
    w' := Do(w2, Ocr(id, key, true, None, []));
    SetTwice(w.db.docs, id, Doc(scan, None), Doc(key, None));
    assert w.objects + {scan} + {key} == w.objects + {scan, key};
    RunThree(w, Deliver(scan, id), Advance(id, Unprocessable), Ocr(id, key, true, None, []));
  }

  /** Deleting it then leaves the scan behind: the object its key names now goes, the one
      it was delivered as stays, and no document names it any more. */
  lemma ScanStays(w: World, id: Id, scan: ObjectKey, key: ObjectKey)
    requires Fine(w) && id !in w.db.docs && scan.Content? && key.Content? && scan != key
    requires Unnamed(w.db, scan) && Unnamed(w.db, key)
    ensures Legal(w, ScanRun(id, scan, key))
    ensures var w3 := Run(w, ScanRun(id, scan, key));
            id in w3.db.docs && w3.db.docs[id].key == key && scan in w3.objects
    ensures var w4 := Delete(Run(w, ScanRun(id, scan, key)), id, Committed);
            && StateOf(w4.db.trail, id) == Some(Deleted) && key !in w4.objects
            && scan in w4.objects && Unnamed(w4.db, scan)
  {
    var w3 := ScanGetsObject(w, id, scan, key);
    DeleteEmpties(w3, id);
    DeleteRemoves(w3, id, scan, "");
    DeleteRemoves(w3, id, key, "");
    DeleteIs(w3, id);
  }
}
