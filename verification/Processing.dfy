/** `process` takes one document from the state it is in to the end of its road. It
    can be cut anywhere and started again: the last run decides. */
module Processing {
  import opened Mappings
  import opened States
  import opened Lifecycle
  import opened Deletion
  import opened Runs

  datatype Profile = Broken | BornDigital | Scan

  /** What the steps compute; each the same on the same bytes. */
  datatype Engines = Engines(profile: ObjectKey -> Profile, extract: ObjectKey -> Option<string>,
                             anonymize: string -> string, tokens: string -> set<string>)

  /** The next step of a document, by its state. */
  function NextOp(g: Engines, db: Db, id: Id): Option<Op> {
    if id !in db.docs then None
    else
      var key := db.docs[id].key;
      match StateOf(db.trail, id)
      case Some(Registered) =>
        Some(Advance(id, match g.profile(key)
                         case Broken => Failed case BornDigital => Extractable case Scan => Unprocessable))
      case Some(Extractable) => Some(Advance(id, if g.extract(key).Some? then Extracted else Failed))
      case Some(Extracted) =>
        (match g.extract(key)
         case None => Some(Advance(id, Failed))
         case Some(text) => Some(Deidentify(id, g.anonymize(text), g.tokens(g.anonymize(text)))))
      case Some(Anonymized) => Some(Publish(id))
      case _ => None
  }

  function Left(s: Option<State>): nat {
    match s
    case Some(Registered) => 4
    case Some(Extractable) => 3
    case Some(Extracted) => 2
    case Some(Anonymized) => 1
    case _ => 0
  }

  lemma NextMoves(g: Engines, w: World, id: Id)
    requires NextOp(g, w.db, id).Some?
    ensures var w' := Do(w, NextOp(g, w.db, id).value);
            && Left(StateOf(w'.db.trail, id)) < Left(StateOf(w.db.trail, id))
            && w'.db.docs == w.db.docs && w'.objects == w.objects && w'.db.members == w.db.members
  {
    NextLowers(g, w, id);
    NextKeeps(g, w, id);
  }

  lemma NextKeeps(g: Engines, w: World, id: Id)
    requires NextOp(g, w.db, id).Some?
    ensures var w' := Do(w, NextOp(g, w.db, id).value);
            w'.db.docs == w.db.docs && w'.objects == w.objects && w'.db.members == w.db.members
  {}

  lemma NextLowers(g: Engines, w: World, id: Id)
    requires NextOp(g, w.db, id).Some?
    ensures Left(StateOf(Do(w, NextOp(g, w.db, id).value).db.trail, id)) < Left(StateOf(w.db.trail, id))
  {
    var to := Reaches(NextOp(g, w.db, id).value);
    NowIn(w.db, id, to);
    assert Left(Some(to)) < Left(StateOf(w.db.trail, id));
  }

  /** The state a step ends in. */
  function Reaches(op: Op): State {
    match op
    case Advance(_, to) => to
    case Deidentify(_, _, _) => Anonymized
    case _ => Indexed
  }

  lemma NowIn(db: Db, id: Id, to: State)
    ensures StateOf(Recorded(db, id, to).trail, id) == Some(to)
  {
    StateOfAppend(db.trail, Rec(id, StateOf(db.trail, id), to), id);
  }

  function Next(g: Engines, w: World, id: Id): World
    requires NextOp(g, w.db, id).Some?
  {
    Do(w, NextOp(g, w.db, id).value)
  }

  /** One uninterrupted run. */
  function Complete(g: Engines, w: World, id: Id): World
    decreases Left(StateOf(w.db.trail, id))
  {
    if NextOp(g, w.db, id).None? then w
    else
      NextMoves(g, w, id);
      Complete(g, Next(g, w, id), id)
  }

  /** The first `n` steps of a run. */
  function Steps(g: Engines, w: World, id: Id, n: nat): World
    decreases n
  {
    if n == 0 || NextOp(g, w.db, id).None? then w else Steps(g, Next(g, w, id), id, n - 1)
  }

  /** An attempt that failed: after some steps, perhaps with the index already written,
      and with the tables rolled back or with the steps committed. */
  datatype Attempt = Attempt(steps: nat, indexed: bool, commit: bool)

  predicate Publishing(g: Engines, w: World, id: Id) { id in w.db.docs && StateOf(w.db.trail, id) == Some(Anonymized) }

  function Cut(g: Engines, w: World, id: Id, a: Attempt): World {
    var w1 := Steps(g, w, id, a.steps);
    if a.commit then w1
    else if a.indexed && Publishing(g, w1, id) then World(w.db, Next(g, w1, id).index, w.objects)
    else World(w.db, w1.index, w.objects)
  }

  function Attempts(g: Engines, w: World, id: Id, tries: seq<Attempt>): World
    decreases |tries|
  {
    if tries == [] then w else Attempts(g, Cut(g, w, id, tries[0]), id, tries[1..])
  }

  lemma {:induction false} StepsComplete(g: Engines, w: World, id: Id, n: nat)
    ensures Complete(g, Steps(g, w, id, n), id) == Complete(g, w, id)
    decreases n
  {
    if n > 0 && NextOp(g, w.db, id).Some? {
      StepsComplete(g, Next(g, w, id), id, n - 1);
    }
  }

  /** The tables after a run do not depend on what the index held. */
  ghost predicate Overwrites(g: Engines, w: World, id: Id, e: Entry) {
    Complete(g, w.(index := w.index[id := e]), id) == Complete(g, w, id)
  }

  lemma NextIndexed(g: Engines, w: World, id: Id, e: Entry)
    requires NextOp(g, w.db, id).Some?
    ensures var v := w.(index := w.index[id := e]);
            && NextOp(g, v.db, id).Some?
            && Next(g, v, id).db == Next(g, w, id).db && Next(g, v, id).objects == Next(g, w, id).objects
            && Next(g, v, id).index
               == if Publishing(g, w, id) then Next(g, w, id).index else Next(g, w, id).index[id := e]
  {}

  /** Whether an uninterrupted run writes the index. */
  function Publishes(g: Engines, w: World, id: Id): bool
    decreases Left(StateOf(w.db.trail, id))
  {
    if NextOp(g, w.db, id).None? then false
    else
      NextMoves(g, w, id);
      Publishing(g, w, id) || Publishes(g, Next(g, w, id), id)
  }

  /** A run that writes the index overwrites whatever an earlier attempt wrote. */
  lemma {:induction false} RunOverwrites(g: Engines, w: World, id: Id, e: Entry)
    requires Publishes(g, w, id)
    ensures Overwrites(g, w, id, e)
    decreases Left(StateOf(w.db.trail, id))
  {
    NextMoves(g, w, id);
    NextIndexed(g, w, id, e);
    var v := w.(index := w.index[id := e]);
    if Publishing(g, w, id) {
      assert Next(g, v, id) == Next(g, w, id);
    } else {
      RunOverwrites(g, Next(g, w, id), id, e);
      assert Next(g, v, id) == Next(g, w, id).(index := Next(g, w, id).index[id := e]);
    }
  }

  /** The index with one entry written. */
  ghost predicate Wrote(index: map<Id, Entry>, index': map<Id, Entry>, id: Id, e: Entry) { index' == index[id := e] }

  /** A step that is not the last leaves the index alone; the last writes one entry. */
  lemma NextIndex(g: Engines, w: World, id: Id)
    requires NextOp(g, w.db, id).Some?
    ensures var w' := Next(g, w, id);
            if Publishing(g, w, id) then exists e :: Wrote(w.index, w'.index, id, e) else w'.index == w.index
  {
    if Publishing(g, w, id) { assert Wrote(w.index, Next(g, w, id).index, id, Next(g, w, id).index[id]); }
  }

  /** What an attempt can have done to the index: nothing, or the entry a whole run
      writes. */
  lemma {:induction false} StepsIndex(g: Engines, w: World, id: Id, n: nat)
    ensures var w' := Steps(g, w, id, n);
            && (w'.index == w.index || (Publishes(g, w, id) && exists e :: Wrote(w.index, w'.index, id, e)))
            && (Publishing(g, w', id) ==> Publishes(g, w, id) && w'.index == w.index)
    decreases n
  {
    if n > 0 && NextOp(g, w.db, id).Some? {
      NextIndex(g, w, id);
      NextMoves(g, w, id);
      StepsIndex(g, Next(g, w, id), id, n - 1);
      if Publishing(g, w, id) { PublishEnds(g, w, id, n - 1); }
    }
  }

  lemma PublishEnds(g: Engines, w: World, id: Id, n: nat)
    requires Publishing(g, w, id)
    ensures Steps(g, Next(g, w, id), id, n) == Next(g, w, id) && !Publishing(g, Next(g, w, id), id)
  {
    NextMoves(g, w, id);
  }

  lemma FailedComplete(g: Engines, w: World, id: Id, a: Attempt)
    ensures Complete(g, Cut(g, w, id, a), id) == Complete(g, w, id)
  {
    var w1 := Steps(g, w, id, a.steps);
    StepsIndex(g, w, id, a.steps);
    if a.commit {
      StepsComplete(g, w, id, a.steps);
    } else {
      var v := Cut(g, w, id, a);
      if Publishing(g, w1, id) { NextIndex(g, w1, id); }
      if v.index != w.index {
        var e :| Wrote(w.index, v.index, id, e);
        RunOverwrites(g, w, id, e);
        assert v == w.(index := w.index[id := e]);
      } else {
        assert v == w;
      }
    }
  }

  /** Any number of failed attempts, cut anywhere, rolled back or committed: the run
      that completes ends in the same state, with the same text, tokens, trail and index
      entry as one uninterrupted run. */
  lemma {:induction false} ProcessResumes(g: Engines, w: World, id: Id, tries: seq<Attempt>)
    ensures Complete(g, Attempts(g, w, id, tries), id) == Complete(g, w, id)
    decreases |tries|
  {
    if tries != [] {
      FailedComplete(g, w, id, tries[0]);
      ProcessResumes(g, Cut(g, w, id, tries[0]), id, tries[1..]);
    }
  }

  /** A run ends where nothing is left to do, and keeps everything sound. */
  lemma {:induction false} CompleteEnds(g: Engines, w: World, id: Id)
    requires Fine(w) && id in w.db.docs
    ensures var w' := Complete(g, w, id);
            && NextOp(g, w'.db, id).None? && Keeps(w, w')
            && StateOf(w'.db.trail, id) !in {Some(Registered), Some(Extractable), Some(Extracted), Some(Anonymized)}
    decreases Left(StateOf(w.db.trail, id))
  {
    KeepsSelf(w);
    if NextOp(g, w.db, id).Some? {
      NextMoves(g, w, id);
      OthersKeep(w, NextOp(g, w.db, id).value);
      CompleteEnds(g, Next(g, w, id), id);
      KeepsTrans(w, Next(g, w, id), Complete(g, w, id));
    }
  }
}
