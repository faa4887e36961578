/** The operations as they are carried out: loops over rows, one effect at a time. */
module Registry {
  import opened Mappings
  import opened States
  import opened Lifecycle
  import opened Deletion
  import opened Runs
  import opened Processing
  import opened Rederiving
  import Outcomes

  /** The elements of a set in the order they are read. */
  method Listed<T(==)>(s: set<T>) returns (r: seq<T>)
    ensures forall x :: x in r <==> x in s
    ensures forall i, j :: 0 <= i < j < |r| ==> r[i] != r[j]
  {
    r := [];
    var todo := s;
    while todo != {}
      invariant todo <= s && forall x :: x in r <==> x in s && x !in todo
      invariant forall i, j :: 0 <= i < j < |r| ==> r[i] != r[j]
    {
      var x :| x in todo;
      r := r + [x];
      todo := todo - {x};
    }
  }

  datatype Report = Report(deleted: seq<Id>, released: seq<Id>)

  /** The members a deletion of `d` deletes and those it releases, in the order read. */
  function Classified(db: Db, d: DossierId, ids: seq<Id>): Report {
    if ids == [] then Report([], [])
    else
      var rest := Classified(db, d, ids[..|ids| - 1]);
      var id := ids[|ids| - 1];
      if Elsewhere(db, id, d) then rest.(released := rest.released + [id]) else rest.(deleted := rest.deleted + [id])
  }

  lemma {:induction false} ClassifiedIs(db: Db, d: DossierId, ids: seq<Id>)
    ensures var r := Classified(db, d, ids);
            && (forall id :: id in r.deleted <==> id in ids && !Elsewhere(db, id, d))
            && (forall id :: id in r.released <==> id in ids && Elsewhere(db, id, d))
  {
    if ids != [] {
      ClassifiedIs(db, d, ids[..|ids| - 1]);
      assert ids == ids[..|ids| - 1] + [ids[|ids| - 1]];
    }
  }

  lemma CompleteStep(g: Engines, w: World, id: Id)
    requires NextOp(g, w.db, id).Some?
    ensures Complete(g, w, id) == Complete(g, Next(g, w, id), id)
  {
    NextMoves(g, w, id);
  }

  lemma CompleteDone(g: Engines, w: World, id: Id)
    ensures NextOp(g, w.db, id).None? ==> Complete(g, w, id) == w
  {}

  lemma ListsDossiers(db: Db, id: Id, ds: seq<DossierId>)
    requires forall d :: d in ds <==> d in Dossiers(db, id)
    ensures DossiersOf(db, id, ds)
  {
    forall d ensures d in ds <==> (d, id) in db.members {
      assert (d, id) in db.members ==> (d, id).0 == d && (d, id).1 == id;
    }
  }

  // ----- copies of one object -----

  /** The ids of `rows` whose document has the key, in order. */
  function Under(db: Db, rows: seq<Id>, key: ObjectKey): (r: seq<Id>)
    ensures forall id :: id in r <==> id in rows && id in db.docs && db.docs[id].key == key
  {
    if rows == [] then []
    else
      var last := rows[|rows| - 1];
      assert rows == rows[..|rows| - 1] + [last];
      Under(db, rows[..|rows| - 1], key) + (if last in db.docs && db.docs[last].key == key then [last] else [])
  }

  function GroupOf(groups: map<ObjectKey, seq<Id>>, key: ObjectKey): seq<Id> {
    if key in groups then groups[key] else []
  }

  /** For every object that has one, its documents in their order. */
  ghost predicate Gathered(db: Db, rows: seq<Id>, groups: map<ObjectKey, seq<Id>>) {
    forall k :: GroupOf(groups, k) == Under(db, rows, k) && (k in groups ==> groups[k] != [])
  }

  lemma UnderMore(db: Db, rows: seq<Id>, i: nat, key: ObjectKey)
    requires i < |rows| && rows[i] in db.docs
    ensures Under(db, rows[..i + 1], key)
            == Under(db, rows[..i], key) + (if db.docs[rows[i]].key == key then [rows[i]] else [])
  {
    assert rows[..i + 1][..i] == rows[..i];
  }

  lemma GatheredMore(db: Db, rows: seq<Id>, i: nat, groups: map<ObjectKey, seq<Id>>, key: ObjectKey)
    requires i < |rows| && rows[i] in db.docs && key == db.docs[rows[i]].key && Gathered(db, rows[..i], groups)
    ensures Gathered(db, rows[..i + 1], groups[key := GroupOf(groups, key) + [rows[i]]])
  {
    var groups' := groups[key := GroupOf(groups, key) + [rows[i]]];
    forall k ensures GroupOf(groups', k) == Under(db, rows[..i + 1], k) && (k in groups' ==> groups'[k] != []) {
      UnderMore(db, rows, i, k);
    }
  }

  ghost predicate NoRepeats(ids: seq<Id>) { forall i, j :: 0 <= i < j < |ids| ==> ids[i] != ids[j] }

  /** Where in the trail a document was registered. */
  function RegisteredAt(trail: seq<Rec>, id: Id): (p: Option<nat>)
    ensures p.Some? ==> p.value < |trail| && trail[p.value].doc == id
  {
    if trail == [] then None
    else
      var front, r := RegisteredAt(trail[..|trail| - 1], id), trail[|trail| - 1];
      if front.None? && r.doc == id && r.from.None? then Some(|trail| - 1) else front
  }

  /** The order of `plan`: the first registered, those without a record last, then by
      id. */
  predicate Older(db: Db, a: Id, b: Id) {
    var p, q := RegisteredAt(db.trail, a), RegisteredAt(db.trail, b);
    if p.Some? && q.Some? && p != q then p.value < q.value else if p.Some? != q.Some? then p.Some? else a < b
  }

  lemma OlderTrans(db: Db, a: Id, b: Id, c: Id)
    requires Older(db, a, b) && Older(db, b, c)
    ensures Older(db, a, c)
  {}

  /** The live documents, oldest first. */
  ghost predicate LiveRows(db: Db, rows: seq<Id>) {
    (forall id :: id in rows <==> Live(db, id)) && ByAge(db, rows)
  }

  ghost predicate ByAge(db: Db, ids: seq<Id>) { forall i, j :: 0 <= i < j < |ids| ==> Older(db, ids[i], ids[j]) }

  /** The oldest live document of its object. */
  ghost predicate Oldest(db: Db, id: Id) {
    Live(db, id) && forall x :: Live(db, x) && x != id && db.docs[x].key == db.docs[id].key ==> Older(db, id, x)
  }

  lemma {:induction false} UnderByAge(db: Db, rows: seq<Id>, key: ObjectKey)
    requires ByAge(db, rows)
    ensures ByAge(db, Under(db, rows, key))
  {
    if rows != [] {
      var rest, last := rows[..|rows| - 1], rows[|rows| - 1];
      UnderByAge(db, rest, key);
      var ids := Under(db, rest, key);
      forall i | 0 <= i < |ids| ensures Older(db, ids[i], last) {
        assert ids[i] in rest;
        var j :| 0 <= j < |rest| && rest[j] == ids[i];
        assert rows[j] == rest[j];
      }
    }
  }

  /** What comes first under its key is the oldest. */
  lemma FirstIsOldest(db: Db, rows: seq<Id>, id: Id)
    requires LiveRows(db, rows) && id in db.docs
    ensures IsFirst(db, rows, id) <==> Oldest(db, id)
  {
    var r := Under(db, rows, db.docs[id].key);
    UnderByAge(db, rows, db.docs[id].key);
    if IsFirst(db, rows, id) {
      assert id in r;
      forall x | Live(db, x) && x != id && db.docs[x].key == db.docs[id].key ensures Older(db, id, x) {
        assert x in r;
        var j :| 0 <= j < |r| && r[j] == x;
      }
    }
    if Oldest(db, id) {
      assert id in r && r[0] in r;
      assert Live(db, r[0]) && db.docs[r[0]].key == db.docs[id].key;
      var j :| 0 <= j < |r| && r[j] == id;
      assert j > 0 ==> Older(db, r[0], r[j]);
    }
  }

  lemma CopiesNotDeleted(db: Db, a: Id, b: Id)
    requires Sound(db) && a in db.docs && b in db.docs && a != b && db.docs[a].key == db.docs[b].key
    ensures StateOf(db.trail, a) != Some(Deleted)
  {}

  /** What is done with the groups so far: of a group in `done` only the first is left;
      the others are untouched. */
  ghost predicate Deduped(was: Db, db: Db, rows: seq<Id>, open: set<ObjectKey>) {
    && Sound(db) && Later(was, db)
    && (forall id :: id in was.docs <==> id in db.docs)
    && (forall id :: id in db.docs ==> db.docs[id].key == was.docs[id].key)
    && (forall id :: Live(db, id) ==> Live(was, id))
    && (forall id :: Live(was, id) && (was.docs[id].key in open || IsFirst(was, rows, id)) ==> Live(db, id))
    && (forall id :: Live(db, id) && was.docs[id].key !in open ==> IsFirst(was, rows, id))
  }

  ghost predicate IsFirst(db: Db, rows: seq<Id>, id: Id) {
    id in db.docs && var r := Under(db, rows, db.docs[id].key); r != [] && r[0] == id
  }

  lemma DedupedOneLive(was: Db, db: Db, rows: seq<Id>)
    requires Deduped(was, db, rows, {})
    ensures OneLive(db)
  {
    forall a, b | Live(db, a) && Live(db, b) && db.docs[a].key == db.docs[b].key ensures a == b {
      assert IsFirst(was, rows, a) && IsFirst(was, rows, b);
    }
  }

  class Registry {
    var db: Db
    var index: map<Id, Entry>
    var objects: set<ObjectKey>

    constructor ()
      ensures Now() == EMPTY
    {
      db, index, objects := EMPTY.db, EMPTY.index, EMPTY.objects;
    }

    function Now(): World
      reads this
    {
      World(db, index, objects)
    }

    /** `live_document_for`. */
    method LiveDocument(key: ObjectKey) returns (r: Option<Id>)
      ensures if r.Some? then LiveAt(db, r.value, key) else forall x :: !LiveAt(db, x, key)
    {
      var todo := db.docs.Keys;
      while todo != {}
        invariant todo <= db.docs.Keys && forall x :: LiveAt(db, x, key) ==> x in todo
      {
        var id :| id in todo;
        if db.docs[id].key == key && db.docs[id].supersededBy.None? { return Some(id); }
        todo := todo - {id};
      }
      r := None;
    }

    /** `ingest`: the live document of these bytes, the one there is or a new one; the
        object is written either way. */
    method Deliver(key: ObjectKey, newId: Id) returns (id: Id)
      requires key.Content? && newId !in db.docs
      modifies this
      ensures Now() == Do(old(Now()), Op.Deliver(key, newId)) && LiveAt(db, id, key)
    {
      var live := LiveDocument(key);
      if live.None? { db := Register(db, key, newId); }
      objects := objects + {key};
      id := if live.Some? then live.value else newId;
    }

    /** Profile, extract: one record more. */
    method Record(g: Engines, id: Id, to: State) returns (state: Option<State>)
      requires id in db.docs && to !in {Anonymized, Indexed} && NextOp(g, db, id) == Some(Op.Advance(id, to))
      modifies this
      ensures Complete(g, Now(), id) == Complete(g, old(Now()), id) && state == Some(to) == StateOf(db.trail, id)
      ensures db.docs == old(db.docs)
    {
      CompleteStep(g, Now(), id);
      StateOfAppend(db.trail, Rec(id, StateOf(db.trail, id), to), id);
      db := Recorded(db, id, to);
      state := Some(to);
    }

    method Anonymize(g: Engines, id: Id, text: string) returns (state: Option<State>)
      requires id in db.docs && StateOf(db.trail, id) == Some(Extracted) && g.extract(db.docs[id].key) == Some(text)
      modifies this
      ensures Complete(g, Now(), id) == Complete(g, old(Now()), id)
              && state == Some(Anonymized) == StateOf(db.trail, id)
      ensures db.docs == old(db.docs)
    {
      CompleteStep(g, Now(), id);
      var out := g.anonymize(text);
      StateOfAppend(db.trail, Rec(id, StateOf(db.trail, id), Anonymized), id);
      db := Recorded(db, id, Anonymized).(texts := db.texts[id := out],
                                         tokens := db.tokens + (set t | t in g.tokens(out) :: (id, t)),
                                         mappings := db.mappings + g.tokens(out));
      state := Some(Anonymized);
    }

    method PublishText(g: Engines, id: Id) returns (state: Option<State>)
      requires id in db.docs && StateOf(db.trail, id) == Some(Anonymized)
      modifies this
      ensures Complete(g, Now(), id) == Complete(g, old(Now()), id) && state == Some(Indexed) == StateOf(db.trail, id)
      ensures db.docs == old(db.docs)
    {
      CompleteStep(g, Now(), id);
      StateOfAppend(db.trail, Rec(id, StateOf(db.trail, id), Indexed), id);
      var out := if id in db.texts then db.texts[id] else "";
      index := index[id := Entry(out, db.docs[id].key, Dossiers(db, id))];
      db := Recorded(db, id, Indexed);
      state := Some(Indexed);
    }

    /** What a step leaves: the document further on, on the way to the same end. */
    ghost predicate OnTheWay(g: Engines, id: Id, state: Option<State>, was: World)
      reads this
    {
      && Complete(g, Now(), id) == Complete(g, was, id)
      && state == StateOf(db.trail, id) && db.docs == was.db.docs && id in db.docs
    }

    method Profiled(g: Engines, id: Id) returns (state: Option<State>)
      requires id in db.docs && StateOf(db.trail, id) == Some(Registered)
      modifies this
      ensures OnTheWay(g, id, state, old(Now())) && state in {Some(Failed), Some(Extractable), Some(Unprocessable)}
    {
      var p := g.profile(db.docs[id].key);
      state := Record(g, id, match p case Broken => Failed case BornDigital => Extractable case Scan => Unprocessable);
    }

    method Extracts(g: Engines, id: Id) returns (state: Option<State>, text: Option<string>)
      requires id in db.docs && StateOf(db.trail, id) == Some(Extractable)
      modifies this
      ensures OnTheWay(g, id, state, old(Now())) && text == g.extract(db.docs[id].key)
      ensures state == if text.Some? then Some(Extracted) else Some(Failed)
    {
      text := g.extract(db.docs[id].key);
      state := Record(g, id, if text.Some? then Extracted else Failed);
    }

    /** On resumption the text is read again from the object. */
    method Deidentifies(g: Engines, id: Id, read: Option<string>) returns (state: Option<State>)
      requires id in db.docs && StateOf(db.trail, id) == Some(Extracted)
      requires read.Some? ==> read == g.extract(db.docs[id].key)
      modifies this
      ensures OnTheWay(g, id, state, old(Now())) && state in {Some(Anonymized), Some(Failed)}
    {
      var text := if read.Some? then read else g.extract(db.docs[id].key);
      if text.None? { state := Record(g, id, Failed); } else { state := Anonymize(g, id, text.value); }
    }

    /** The last step. */
    method Publishes(g: Engines, id: Id, reached: Option<State>)
      requires id in db.docs && reached == StateOf(db.trail, id)
      requires reached !in {Some(Registered), Some(Extractable), Some(Extracted)}
      modifies this
      ensures Now() == Complete(g, old(Now()), id)
    {
      if reached == Some(Anonymized) { var state := PublishText(g, id); }
      CompleteDone(g, Now(), id);
    }

    /** The last two steps. */
    method Finishes(g: Engines, id: Id, reached: Option<State>, text: Option<string>)
      requires id in db.docs && reached == StateOf(db.trail, id) && reached !in {Some(Registered), Some(Extractable)}
      requires text.Some? ==> text == g.extract(db.docs[id].key)
      modifies this
      ensures Now() == Complete(g, old(Now()), id)
    {
      var state := reached;
      if state == Some(Extracted) { state := Deidentifies(g, id, text); }
      Publishes(g, id, state);
    }

    /** `process`: each step in its turn, from whatever state the document is in. */
    method Process(g: Engines, id: Id)
      requires id in db.docs
      modifies this
      ensures Now() == Complete(g, old(Now()), id)
      ensures Outcomes.Ends(g, old(Now()), Now(), id)
    {
      Outcomes.RunEnds(g, Now(), id);
      var state := StateOf(db.trail, id);
      var text: Option<string> := None;
      if state == Some(Registered) { state := Profiled(g, id); }
      if state == Some(Extractable) { state, text := Extracts(g, id); }
      Finishes(g, id, state, text);
    }

    function RegisteredFor(id: Id): set<string>
      reads this
    {
      set x | x in db.tokens && x.0 == id :: x.1
    }

    /** `reanonymize`: a new text from the stored bytes, into the index first and then
        into the tables. `None` when the bytes give no text: an error, and nothing is
        changed. */
    method Reanonymize(g: Engines, id: Id) returns (state: Option<State>, orphans: map<string, nat>)
      requires id in db.docs
      modifies this
      ensures var was, text := old(Now()), g.extract(old(db.docs[id].key));
              if StateOf(was.db.trail, id) !in {Some(Indexed), Some(Anonymized)} then
                Now() == was && state == StateOf(was.db.trail, id)
              else if text.None? then Now() == was && state.None?
              else
                && Now() == Do(was, Rederive(id, g.anonymize(text.value), g.tokens(g.anonymize(text.value))))
                && state == StateOf(was.db.trail, id) == StateOf(db.trail, id)
                && Outcomes.TextStored(was, Now(), id, g.anonymize(text.value), g.tokens(g.anonymize(text.value)))
                && Outcomes.Findable(was, Now(), id, g.anonymize(text.value))
                && Counted(orphans, Unreached(old(RegisteredFor(id)), g.anonymize(text.value)))
    {
      state, orphans := StateOf(db.trail, id), map[];
      if state !in {Some(Indexed), Some(Anonymized)} { return; }
      var before, text := RegisteredFor(id), g.extract(db.docs[id].key);
      if text.None? { return None, map[]; }
      var out := g.anonymize(text.value);
      Outcomes.RederiveStores(Now(), id, out, g.tokens(out));
      index := index[id := Entry(out, db.docs[id].key, Dossiers(db, id))];
      NotedQuiet(db.trail, id);
      db := db.(texts := db.texts[id := out], tokens := db.tokens + (set t | t in g.tokens(out) :: (id, t)),
                mappings := db.mappings + g.tokens(out), trail := Noted(db.trail, id));
      orphans := OrphanedTokens(before, out);
    }

    /** The memberships of a copy pass to its survivor, one by one. */
    method MoveDossiers(list: seq<DossierId>, copy: Id, survivor: Id)
      requires Live(db, survivor)
      modifies this
      ensures db == MoveAll(old(db), list, copy, survivor) && index == old(index) && objects == old(objects)
    {
      var todo := list;
      while todo != []
        invariant MoveAll(db, todo, copy, survivor) == MoveAll(old(db), list, copy, survivor)
        invariant index == old(index) && objects == old(objects)
        decreases |todo|
      {
        var added := Add(db, todo[0], survivor);
        if added.Some? { db := Remove(added.value, todo[0], copy); }
        todo := todo[1..];
      }
    }

    /** The rows of a supersession: the dossiers, then the record and the pointer.
        `false` when it raises. */
    method RetireRows(copy: Id, survivor: Id, asObject: Option<ObjectKey>) returns (ok: bool, ghost ds: seq<DossierId>)
      modifies this
      ensures DossiersOf(old(db), copy, ds) && Distinct(ds) && index == old(index) && objects == old(objects)
      ensures var r := Supersede(old(db), copy, survivor, asObject, ds);
              ok == r.Some? && db == if ok then r.value else old(db)
    {
      var list := Listed(Dossiers(db, copy));
      ds := list;
      ListsDossiers(db, copy, list);
      if !MaySupersede(db, copy, survivor, asObject) { return false, ds; }
      if db.docs[copy].supersededBy.Some? { return true, ds; }
      var was := db;
      MoveDossiers(list, copy, survivor);
      var t := Transition(db.trail, copy, Superseded);
      if t.None? {
        db := was;
        return false, ds;
      }
      db := db.(trail := t.value, docs := was.docs[copy := Doc(was.docs[copy].key, Some(survivor))]);
      ok := true;
    }

    /** `supersede`: out of the index first, then the rows. */
    method SupersedeCopy(copy: Id, survivor: Id) returns (ok: bool, ghost ds: seq<DossierId>)
      modifies this
      ensures DossiersOf(old(db), copy, ds) && Distinct(ds)
      ensures Now() == Superseding(old(Now()), copy, survivor, ds)
      ensures ok <==> Supersede(old(db), copy, survivor, None, ds).Some?
      ensures ok && (old(Live(db, copy)) || LiveIndex(old(Now()))) ==> copy !in index
      ensures forall x :: x != copy ==> (x in index <==> x in old(index)) && (x in index ==> index[x] == old(index)[x])
    {
      if MaySupersede(db, copy, survivor, None) && db.docs[copy].supersededBy.None? { index := index - {copy}; }
      ok, ds := RetireRows(copy, survivor, None);
    }

    /** `recover`: `key` is the address of the OCR'd bytes, `good` whether they hold
        enough text. */
    method Recover(id: Id, key: ObjectKey, good: bool) returns (ghost owner: Option<Id>, ghost ds: seq<DossierId>)
      requires key.Content?
      modifies this
      ensures Fits(old(Now()), Ocr(id, key, good, owner, ds))
              && Now() == Recovered(old(Now()), id, key, good, owner, ds)
    {
      var list := Listed(Dossiers(db, id));
      ListsDossiers(db, id, list);
      var live := LiveDocument(key);
      owner, ds := live, list;
      if id !in db.docs || StateOf(db.trail, id) != Some(Unprocessable) { return; }
      if !good {
        db := db.(trail := Noted(db.trail, id));
        return;
      }
      objects := objects + {key};
      if live.Some? && live.value != id {
        var _, order := RetireRows(id, live.value, Some(key));
        ds := order;
        return;
      }
      db := Recorded(db, id, Extractable).(docs := db.docs[id := db.docs[id].(key := key)]);
    }

    /** `delete_document`: index, object, then the tables row by row. */
    method DeleteDocument(id: Id, reached: Reached)
      modifies this
      ensures Now() == Delete(old(Now()), id, reached)
    {
      if id !in db.docs || reached == Nowhere { return; }
      index := index - {id};
      if reached == OutOfIndex { return; }
      var key := db.docs[id].key;
      if key in objects && !Claimed(db, id, key) { objects := objects - {key}; }
      assert objects == ObjectGone(old(Now()), id).objects;
      if reached == OutOfStore { return; }
      ghost var was := db;
      var mine := Listed(set x | x in db.tokens && x.0 == id :: x.1);
      DropTokens(id, mine);
      db := db.(texts := db.texts - {id}, grants := (set g | g in db.grants && g.1 != id));
      var f := StateOf(db.trail, id);
      if f != Some(Deleted) {
        db := db.(docs := db.docs[id := db.docs[id].(key := Released(id))], trail := db.trail + [Rec(id, f, Deleted)]);
      }
      assert db == Emptying(was, id);
    }

    /** The pseudonyms of a document, one by one; a mapping goes with its last owner. */
    method DropTokens(id: Id, mine: seq<string>)
      requires forall t :: t in mine <==> (id, t) in db.tokens
      requires forall i, j :: 0 <= i < j < |mine| ==> mine[i] != mine[j]
      modifies this
      ensures index == old(index) && objects == old(objects)
      ensures db == old(db).(tokens := (set x | x in old(db).tokens && x.0 != id), mappings := db.mappings)
      ensures db.mappings
           == (set t | t in old(db).mappings && !((id, t) in old(db).tokens && !SharedToken(old(db), id, t)))
    {
      ghost var was := db;
      for i := 0 to |mine|
        invariant index == old(index) && objects == old(objects)
        invariant db == was.(tokens := db.tokens, mappings := db.mappings)
        invariant forall x :: x in db.tokens <==> x in was.tokens && !(x.0 == id && x.1 in mine[..i])
        invariant forall t :: t in db.mappings <==> t in was.mappings && !(t in mine[..i] && !SharedToken(was, id, t))
      {
        var t := mine[i];
        assert SharedToken(db, id, t) <==> SharedToken(was, id, t) by {
          if SharedToken(was, id, t) {
            var x :| x in was.tokens && x.1 == t && x.0 != id;
            assert x in db.tokens;
          }
        }
        assert forall u :: u in mine[..i + 1] <==> u in mine[..i] || u == t;
        var orphaned := !SharedToken(db, id, t);
        db := db.(tokens := db.tokens - {(id, t)}, mappings := if orphaned then db.mappings - {t} else db.mappings);
      }
      assert mine[..|mine|] == mine;
      assert db.tokens == set x | x in was.tokens && x.0 != id;
    }

    /** The first loop of `delete_dossier`: members of no other dossier are deleted, or, in
        a dry run, only reported. */
    method DeleteMembers(d: DossierId, list: seq<Id>, dryRun: bool) returns (r: Report)
      modifies this
      ensures r == Classified(old(db), d, list)
      ensures Now() == if dryRun then old(Now()) else DeleteOrphans(old(Now()), d, list)
    {
      r := Report([], []);
      for i := 0 to |list|
        invariant db.members == old(db).members && r == Classified(old(db), d, list[..i])
        invariant if dryRun then Now() == old(Now())
                  else DeleteOrphans(Now(), d, list[i..]) == DeleteOrphans(old(Now()), d, list)
      {
        assert list[..i + 1][..i] == list[..i] && list[i..][1..] == list[i + 1..];
        assert Elsewhere(db, list[i], d) <==> Elsewhere(old(db), list[i], d);
        DeleteKeepsMembers(Now(), list[i], Committed);
        if Elsewhere(db, list[i], d) {
          r := r.(released := r.released + [list[i]]);
        } else {
          if !dryRun { DeleteDocument(list[i], Committed); }
          r := r.(deleted := r.deleted + [list[i]]);
        }
      }
      assert list[..|list|] == list;
    }

    /** The second loop: every membership ends. */
    method ReleaseMembers(d: DossierId, list: seq<Id>, deleted: set<Id>)
      modifies this
      ensures Now() == ReleaseAll(old(Now()), d, list, deleted)
    {
      for i := 0 to |list|
        invariant ReleaseAll(Now(), d, list[i..], deleted) == ReleaseAll(old(Now()), d, list, deleted)
      {
        assert list[i..][1..] == list[i + 1..];
        var id := list[i];
        db := db.(members := db.members - {(d, id)});
        if id !in deleted && id in index { index := index[id := index[id].(dossiers := Dossiers(db, id))]; }
        db := db.(trail := Noted(db.trail, id));
      }
    }

    /** `delete_dossier`. The dry run walks the same loop and stops before the first
        removal, so it reports what the real run does. */
    method RemoveDossier(d: DossierId, dryRun: bool) returns (r: Report, ghost ids: seq<Id>)
      modifies this
      ensures MembersOf(old(db), d, ids) && r == Classified(old(db), d, ids)
      ensures Now() == if dryRun then old(Now()) else DeleteDossier(old(Now()), d, ids)
    {
      var list := Listed(set m | m in db.members && m.0 == d :: m.1);
      ids := list;
      assert MembersOf(db, d, ids) by {
        forall id ensures id in ids <==> (d, id) in db.members {
          assert (d, id) in db.members ==> (d, id).0 == d && (d, id).1 == id;
        }
      }
      r := DeleteMembers(d, list, dryRun);
      if dryRun { return; }
      ClassifiedIs(old(db), d, list);
      var deleted := set id | id in r.deleted;
      assert deleted == Orphans(old(db), d, list);
      ReleaseMembers(d, list, deleted);
      db := db.(topics := (set t | t in db.topics && t.1 != d), dossiers := db.dossiers - {d});
    }

    /** The oldest of some documents. */
    method OldestOf(ids: set<Id>) returns (id: Id)
      requires ids != {}
      ensures id in ids && forall x :: x in ids && x != id ==> Older(db, id, x)
    {
      id :| id in ids;
      var todo := ids - {id};
      while todo != {}
        invariant todo <= ids && id in ids && id !in todo
        invariant forall x :: x in ids && x !in todo && x != id ==> Older(db, id, x)
      {
        var x :| x in todo;
        if Older(db, x, id) {
          forall y | y in ids && y !in todo && y != id ensures Older(db, x, y) { OlderTrans(db, x, id, y); }
          id := x;
        }
        todo := todo - {x};
      }
    }

    /** `order_by`: the live documents, oldest first. */
    method LiveByAge() returns (rows: seq<Id>)
      ensures LiveRows(db, rows)
    {
      var todo := set id | id in db.docs && db.docs[id].supersededBy.None?;
      rows := [];
      while todo != {}
        invariant forall id :: id in rows || id in todo <==> Live(db, id)
        invariant ByAge(db, rows) && forall i, x :: 0 <= i < |rows| && x in todo ==> Older(db, rows[i], x)
      {
        var id := OldestOf(todo);
        rows, todo := rows + [id], todo - {id};
      }
    }

    /** `plan`: the documents of every object with copies, oldest first. */
    method Plan() returns (groups: map<ObjectKey, seq<Id>>, ghost rows: seq<Id>)
      ensures LiveRows(db, rows)
      ensures forall k :: k in groups <==> |Under(db, rows, k)| > 1
      ensures forall k :: k in groups ==> groups[k] == Under(db, rows, k) && ByAge(db, groups[k])
    {
      var all := LiveByAge();
      rows := all;
      var byKey := Grouped(all);
      groups := map k | k in byKey && |byKey[k]| > 1 :: byKey[k];
      assert forall k :: |GroupOf(byKey, k)| > 1 ==> k in groups;
      forall k | k in groups ensures ByAge(db, groups[k]) { UnderByAge(db, rows, k); }
    }

    method Grouped(rows: seq<Id>) returns (groups: map<ObjectKey, seq<Id>>)
      requires forall id :: id in rows ==> id in db.docs
      ensures Gathered(db, rows, groups)
    {
      groups := map[];
      for i := 0 to |rows|
        invariant Gathered(db, rows[..i], groups)
      {
        var key := db.docs[rows[i]].key;
        GatheredMore(db, rows, i, groups, key);
        groups := groups[key := GroupOf(groups, key) + [rows[i]]];
      }
      assert rows[..|rows|] == rows;
    }

    method RetireCopy(copy: Id, survivor: Id)
      requires Sound(db) && Live(db, copy) && Live(db, survivor) && copy != survivor
               && db.docs[copy].key == db.docs[survivor].key
      modifies this
      ensures Sound(db) && Later(old(db), db) && Retires(old(db), db, copy, survivor) && index == old(index) - {copy}
    {
      CopiesNotDeleted(db, copy, survivor);
      ghost var was := db;
      var _, list := SupersedeCopy(copy, survivor);
      SupersedeFacts(was, copy, survivor, None, list);
      SupersedeSound(was, db, copy, survivor, None, list);
      RetiresLater(was, db, copy, survivor);
    }

    /** One object: its copies retire in favour of the oldest. */
    method DedupeGroup(ghost was: Db, ghost rows: seq<Id>, ids: seq<Id>, key: ObjectKey, ghost open: set<ObjectKey>,
                       ghost entries: map<Id, Entry>)
      requires Deduped(was, db, rows, open) && key in open && LiveRows(was, rows) && ids == Under(was, rows, key)
               && ids != []
      requires Delisted(was, entries, db, index)
      modifies this
      ensures Deduped(was, db, rows, open - {key}) && Delisted(was, entries, db, index)
    {
      UnderByAge(was, rows, key);
      PartlyBegins(was, db, rows, ids, key, open);
      for i := 1 to |ids|
        invariant Partly(was, db, rows, ids, key, open, i) && Delisted(was, entries, db, index)
      {
        GroupFacts(was, db, rows, ids, key, open, i);
        ghost var before, listed := db, index;
        RetireCopy(ids[i], ids[0]);
        DelistedMore(was, entries, before, listed, db, ids[i], ids[0]);
        PartlyStep(was, before, db, rows, ids, key, open, i);
      }
      PartlyDone(was, db, rows, ids, key, open);
    }

    /** `run`: every object with copies is left with its oldest document. */
    method Dedupe()
      requires Sound(db)
      modifies this
      ensures Sound(db) && OneLive(db) && Later(old(db), db)
      ensures forall id :: Live(db, id) <==> Oldest(old(db), id)
      ensures forall id :: id in index <==> id in old(index) && !(Live(old(db), id) && !Live(db, id))
      ensures forall id :: id in index ==> index[id] == old(index)[id]
      ensures LiveIndex(old(Now())) ==> forall id :: id in index ==> Live(db, id)
    {
      ghost var was, entries := db, index;
      var groups, rows := Plan();
      var todo := groups.Keys;
      DedupeStart(was, rows, todo);
      while todo != {}
        invariant todo <= groups.Keys && Deduped(was, db, rows, todo) && Delisted(was, entries, db, index)
      {
        var key :| key in todo;
        DedupeGroup(was, rows, groups[key], key, todo, entries);
        todo := todo - {key};
      }
      DedupedOneLive(was, db, rows);
      forall id | id in was.docs ensures IsFirst(was, rows, id) <==> Oldest(was, id) { FirstIsOldest(was, rows, id); }
    }
  }

  /** Of what was in the index, exactly the documents retired since are gone from it. */
  ghost predicate Delisted(was: Db, entries: map<Id, Entry>, db: Db, index: map<Id, Entry>) {
    && (forall id :: id in index <==> id in entries && !(Live(was, id) && !Live(db, id)))
    && (forall id :: id in index ==> index[id] == entries[id])
    && (forall id :: Live(db, id) ==> Live(was, id))
  }

  lemma DelistedMore(was: Db, entries: map<Id, Entry>, before: Db, listed: map<Id, Entry>, db: Db, copy: Id,
                     survivor: Id)
    requires Delisted(was, entries, before, listed) && Live(before, copy) && Retires(before, db, copy, survivor)
    ensures Delisted(was, entries, db, listed - {copy})
  {
    RetiredOne(before, db, copy, survivor);
  }

  lemma DedupeStart(db: Db, rows: seq<Id>, open: set<ObjectKey>)
    requires Sound(db) && LiveRows(db, rows) && forall k :: |Under(db, rows, k)| > 1 ==> k in open
    ensures Deduped(db, db, rows, open)
  {
    LaterSelf(db);
    forall id | Live(db, id) && db.docs[id].key !in open ensures IsFirst(db, rows, id) {
      AloneIsFirst(db, rows, id);
    }
  }

  lemma AloneIsFirst(db: Db, rows: seq<Id>, id: Id)
    requires id in rows && id in db.docs && |Under(db, rows, db.docs[id].key)| <= 1
    ensures IsFirst(db, rows, id)
  {
    assert id in Under(db, rows, db.docs[id].key);
  }

  /** The same documents under the same keys, some of them retired. */
  ghost predicate Thinned(was: Db, db: Db) {
    && Sound(db) && Later(was, db)
    && (forall id :: id in was.docs <==> id in db.docs)
    && (forall id :: id in db.docs ==> db.docs[id].key == was.docs[id].key)
    && (forall id :: Live(db, id) ==> Live(was, id))
  }

  /** Outside the group of `key` the work stands where it stood. */
  ghost predicate Others(was: Db, db: Db, rows: seq<Id>, key: ObjectKey, open: set<ObjectKey>) {
    && (forall id ::
          Live(was, id) && was.docs[id].key != key && (was.docs[id].key in open || IsFirst(was, rows, id)) ==>
            Live(db, id))
    && (forall id ::
          Live(db, id) && id in was.docs && was.docs[id].key != key && was.docs[id].key !in open ==>
            IsFirst(was, rows, id))
  }

  /** Within it the first is kept, of the others those before `i` are retired. */
  ghost predicate Group(db: Db, ids: seq<Id>, i: nat) {
    forall j :: 0 <= j < |ids| ==> (Live(db, ids[j]) <==> j == 0 || j >= i)
  }

  ghost predicate Partly(was: Db, db: Db, rows: seq<Id>, ids: seq<Id>, key: ObjectKey, open: set<ObjectKey>, i: nat) {
    Thinned(was, db) && Others(was, db, rows, key, open) && Group(db, ids, i)
  }

  lemma RetiredOne(before: Db, db: Db, copy: Id, survivor: Id)
    requires Retires(before, db, copy, survivor)
    ensures forall id :: Live(db, id) <==> Live(before, id) && id != copy
    ensures forall id :: id in before.docs <==> id in db.docs
    ensures forall id :: id in db.docs ==> db.docs[id].key == before.docs[id].key
  {}

  lemma PartlyStep(was: Db, before: Db, db: Db, rows: seq<Id>, ids: seq<Id>, key: ObjectKey, open: set<ObjectKey>,
                   i: nat)
    requires Partly(was, before, rows, ids, key, open, i) && 0 < i < |ids| && was.docs.Keys == before.docs.Keys
    requires ids[i] in was.docs && was.docs[ids[i]].key == key
    requires NoRepeats(ids)
    requires Retires(before, db, ids[i], ids[0]) && Sound(db) && Later(before, db)
    ensures Partly(was, db, rows, ids, key, open, i + 1)
  {
    RetiredOne(before, db, ids[i], ids[0]);
    ThinnedStep(was, before, db);
    assert Others(was, db, rows, key, open);
    GroupStep(before, db, ids, i);
  }

  lemma GroupStep(before: Db, db: Db, ids: seq<Id>, i: nat)
    requires Group(before, ids, i) && 0 < i < |ids| && NoRepeats(ids)
    requires forall id :: Live(db, id) <==> Live(before, id) && id != ids[i]
    ensures Group(db, ids, i + 1)
  {}

  lemma ThinnedStep(was: Db, before: Db, db: Db)
    requires Thinned(was, before) && Sound(db) && Later(before, db)
    requires forall id :: Live(db, id) ==> Live(before, id)
    requires forall id :: id in before.docs <==> id in db.docs
    requires forall id :: id in db.docs ==> db.docs[id].key == before.docs[id].key
    ensures Thinned(was, db)
  {
    LaterTrans(was, before, db);
  }

  lemma GroupFacts(was: Db, db: Db, rows: seq<Id>, ids: seq<Id>, key: ObjectKey, open: set<ObjectKey>, i: nat)
    requires Partly(was, db, rows, ids, key, open, i) && 0 < i < |ids| && ids == Under(was, rows, key)
    requires NoRepeats(ids)
    ensures Sound(db) && Live(db, ids[i]) && Live(db, ids[0]) && ids[i] != ids[0]
    ensures db.docs[ids[i]].key == db.docs[ids[0]].key == key
    ensures ids[i] in was.docs && was.docs[ids[i]].key == key && was.docs.Keys == db.docs.Keys
  {
    assert ids[i] in ids && ids[0] in ids;
  }

  lemma PartlyDone(was: Db, db: Db, rows: seq<Id>, ids: seq<Id>, key: ObjectKey, open: set<ObjectKey>)
    requires Partly(was, db, rows, ids, key, open, |ids|) && ids != [] && ids == Under(was, rows, key)
             && LiveRows(was, rows)
    ensures Deduped(was, db, rows, open - {key})
  {
    forall id | Live(was, id) && (was.docs[id].key in open - {key} || IsFirst(was, rows, id)) ensures Live(db, id) {
      if was.docs[id].key == key { assert ids[0] == id; }
    }
    forall id | Live(db, id) && was.docs[id].key !in open - {key} ensures IsFirst(was, rows, id) {
      if was.docs[id].key == key {
        assert id in ids;
        var j :| 0 <= j < |ids| && ids[j] == id;
      }
    }
  }

  lemma PartlyBegins(was: Db, db: Db, rows: seq<Id>, ids: seq<Id>, key: ObjectKey, open: set<ObjectKey>)
    requires Deduped(was, db, rows, open) && key in open && ids == Under(was, rows, key) && LiveRows(was, rows)
    ensures Partly(was, db, rows, ids, key, open, 1)
  {
    forall j | 0 <= j < |ids| ensures Live(db, ids[j]) {
      assert ids[j] in ids;
      assert Live(was, ids[j]);
    }
  }
}
