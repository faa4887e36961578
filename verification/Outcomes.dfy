/** What a completed run of `process` leaves in the tables and in the index, by what the
    services answer for the document's bytes. */
module Outcomes {
  import opened Mappings
  import opened States
  import opened Lifecycle
  import opened Deletion
  import opened Runs
  import opened Processing

  /** The document is in a new state; every other document, its dossiers and the objects are as
      they were. */
  ghost predicate Moved(w: World, w': World, id: Id, to: State) {
    && StateOf(w'.db.trail, id) == Some(to) && w.db.trail <= w'.db.trail
    && (forall x :: x != id ==> StateOf(w'.db.trail, x) == StateOf(w.db.trail, x))
    && w'.objects == w.objects && w'.db.docs == w.db.docs && w'.db.members == w.db.members
    && w'.db.grants == w.db.grants && w'.db.dossiers == w.db.dossiers && w'.db.topics == w.db.topics
  }

  /** Stored text, tokens, mappings and index are as they were. */
  ghost predicate NothingStored(w: World, w': World) {
    w'.db.texts == w.db.texts && w'.db.tokens == w.db.tokens && w'.db.mappings == w.db.mappings && w'.index == w.index
  }

  /** The document has the text and the tokens, besides those it had; no other has. */
  ghost predicate TextStored(w: World, w': World, id: Id, text: string, toks: set<string>) {
    && w'.db.texts == w.db.texts[id := text]
    && (forall x, t :: (x, t) in w'.db.tokens <==> (x, t) in w.db.tokens || (x == id && t in toks))
    && (forall t :: t in w'.db.mappings <==> t in w.db.mappings || t in toks)
  }

  /** The document can be found under the text, with its key and the dossiers that hold it; every
      other entry is as it was. */
  ghost predicate Findable(w: World, w': World, id: Id, text: string) {
    && id in w.db.docs && id in w'.index && w'.index[id].text == text && w'.index[id].key == w.db.docs[id].key
    && (forall d :: d in w'.index[id].dossiers <==> (d, id) in w.db.members)
    && (forall x :: x != id ==> (x in w'.index <==> x in w.index) && (x in w.index ==> w'.index[x] == w.index[x]))
  }

  /** Nothing but the state of the document has changed. */
  ghost predicate Stops(w: World, w': World, id: Id, to: State) { Moved(w, w', id, to) && NothingStored(w, w') }

  /** The anonymized text, and only that, is stored and can be found. */
  ghost predicate Indexes(g: Engines, w: World, w': World, id: Id, clear: string) {
    var text := g.anonymize(clear);
    Moved(w, w', id, Indexed) && TextStored(w, w', id, text, g.tokens(text)) && Findable(w, w', id, text)
  }

  /** The stored text can be found. */
  ghost predicate Shown(w: World, w': World, id: Id) {
    && Moved(w, w', id, Indexed) && w'.db.texts == w.db.texts && w'.db.tokens == w.db.tokens
    && w'.db.mappings == w.db.mappings
    && Findable(w, w', id, if id in w.db.texts then w.db.texts[id] else "")
  }

  /** Where a run ends, by the state it starts in. */
  ghost predicate Ends(g: Engines, w: World, w': World, id: Id)
    requires id in w.db.docs
  {
    var s, p, text := StateOf(w.db.trail, id), g.profile(w.db.docs[id].key), g.extract(w.db.docs[id].key);
    if s == Some(Registered) && p == Broken then Stops(w, w', id, Failed)
    else if s == Some(Registered) && p == Scan then Stops(w, w', id, Unprocessable)
    else if s in {Some(Registered), Some(Extractable), Some(Extracted)} then
      if text.Some? then Indexes(g, w, w', id, text.value) else Stops(w, w', id, Failed)
    else if s == Some(Anonymized) then Shown(w, w', id)
    else w' == w
  }

  lemma RecordedMoves(w: World, id: Id, to: State)
    ensures Stops(w, w.(db := Recorded(w.db, id, to)), id, to)
  {
    forall x ensures StateOf(Recorded(w.db, id, to).trail, x) == if x == id then Some(to) else StateOf(w.db.trail, x) {
      StateOfAppend(w.db.trail, Rec(id, StateOf(w.db.trail, id), to), x);
    }
  }

  lemma MovedTwice(a: World, b: World, c: World, id: Id, s: State, t: State)
    requires Moved(a, b, id, s) && Moved(b, c, id, t)
    ensures Moved(a, c, id, t)
  {}

  lemma OneStep(g: Engines, w: World, id: Id)
    requires NextOp(g, w.db, id).Some?
    ensures Complete(g, w, id) == Complete(g, Next(g, w, id), id)
  {
    NextMoves(g, w, id);
  }

  lemma AtEnd(g: Engines, w: World, id: Id)
    requires StateOf(w.db.trail, id) in {Some(Failed), Some(Unprocessable), Some(Indexed)}
    ensures Complete(g, w, id) == w
  {}

  /** The last step. */
  lemma FromAnonymized(g: Engines, w: World, id: Id)
    requires id in w.db.docs && StateOf(w.db.trail, id) == Some(Anonymized)
    ensures Shown(w, Complete(g, w, id), id)
  {
    var w' := Next(g, w, id);
    OneStep(g, w, id);
    RecordedMoves(w, id, Indexed);
    AtEnd(g, w', id);
    forall d ensures d in w'.index[id].dossiers <==> (d, id) in w.db.members { InDossiers(w.db, id, d); }
  }

  lemma InDossiers(db: Db, id: Id, d: DossierId)
    ensures d in Dossiers(db, id) <==> (d, id) in db.members
  {
    assert (d, id) in db.members ==> (d, id).0 == d && (d, id).1 == id;
  }

  lemma Fails(g: Engines, w: World, id: Id, to: State)
    requires NextOp(g, w.db, id) == Some(Op.Advance(id, to)) && to in {Failed, Unprocessable}
    ensures Stops(w, Complete(g, w, id), id, to)
  {
    OneStep(g, w, id);
    RecordedMoves(w, id, to);
    AtEnd(g, Next(g, w, id), id);
  }

  lemma Deidentified(g: Engines, w: World, id: Id, clear: string)
    requires id in w.db.docs && StateOf(w.db.trail, id) == Some(Extracted)
    requires g.extract(w.db.docs[id].key) == Some(clear)
    ensures var w1, text := Next(g, w, id), g.anonymize(clear);
            && Complete(g, w, id) == Complete(g, w1, id) && Moved(w, w1, id, Anonymized)
            && TextStored(w, w1, id, text, g.tokens(text)) && w1.index == w.index
  {
    OneStep(g, w, id);
    RecordedMoves(w, id, Anonymized);
  }

  lemma FromExtracted(g: Engines, w: World, id: Id, clear: string)
    requires id in w.db.docs && StateOf(w.db.trail, id) == Some(Extracted)
    requires g.extract(w.db.docs[id].key) == Some(clear)
    ensures Indexes(g, w, Complete(g, w, id), id, clear)
  {
    var w1 := Next(g, w, id);
    Deidentified(g, w, id, clear);
    FromAnonymized(g, w1, id);
    MovedTwice(w, w1, Complete(g, w, id), id, Anonymized, Indexed);
  }

  /** A step that stores nothing: the rest of the run indexes from there. */
  lemma IndexesAfter(g: Engines, w: World, w1: World, w': World, id: Id, to: State, clear: string)
    requires Stops(w, w1, id, to) && Indexes(g, w1, w', id, clear)
    ensures Indexes(g, w, w', id, clear)
  {
    MovedTwice(w, w1, w', id, to, Indexed);
  }

  lemma StopsAfter(w: World, w1: World, w': World, id: Id, to: State, end: State)
    requires Stops(w, w1, id, to) && Stops(w1, w', id, end)
    ensures Stops(w, w', id, end)
  {
    MovedTwice(w, w1, w', id, to, end);
  }

  lemma Advanced(g: Engines, w: World, id: Id, to: State)
    requires NextOp(g, w.db, id) == Some(Op.Advance(id, to)) && to in {Extractable, Extracted}
    ensures var w1 := Next(g, w, id);
            Complete(g, w, id) == Complete(g, w1, id) && Stops(w, w1, id, to) && w1.db.docs == w.db.docs
  {
    OneStep(g, w, id);
    RecordedMoves(w, id, to);
  }

  lemma FromExtractable(g: Engines, w: World, id: Id)
    requires id in w.db.docs && StateOf(w.db.trail, id) == Some(Extractable)
    ensures Ends(g, w, Complete(g, w, id), id)
  {
    var text := g.extract(w.db.docs[id].key);
    if text.None? {
      Fails(g, w, id, Failed);
    } else {
      Advanced(g, w, id, Extracted);
      var w1 := Next(g, w, id);
      FromExtracted(g, w1, id, text.value);
      IndexesAfter(g, w, w1, Complete(g, w, id), id, Extracted, text.value);
    }
  }

  lemma FromRegistered(g: Engines, w: World, id: Id)
    requires id in w.db.docs && StateOf(w.db.trail, id) == Some(Registered)
    ensures Ends(g, w, Complete(g, w, id), id)
  {
    match g.profile(w.db.docs[id].key)
    case Broken => Fails(g, w, id, Failed);
    case Scan => Fails(g, w, id, Unprocessable);
    case BornDigital =>
      Advanced(g, w, id, Extractable);
      var w1, text := Next(g, w, id), g.extract(w.db.docs[id].key);
      FromExtractable(g, w1, id);
      if text.Some? {
        IndexesAfter(g, w, w1, Complete(g, w, id), id, Extractable, text.value);
      } else {
        StopsAfter(w, w1, Complete(g, w, id), id, Extractable, Failed);
      }
  }

  /** A whole run, from whatever state: a born-digital document whose text can be read ends indexed
      with its anonymized text, the tokens of that text, its key and its dossiers; a broken one
      and one without text end failed, and a scan unprocessable, with nothing stored. */
  lemma RunEnds(g: Engines, w: World, id: Id)
    requires id in w.db.docs
    ensures Ends(g, w, Complete(g, w, id), id)
  {
    var s, text := StateOf(w.db.trail, id), g.extract(w.db.docs[id].key);
    if s == Some(Registered) {
      FromRegistered(g, w, id);
    } else if s == Some(Extractable) {
      FromExtractable(g, w, id);
    } else if s == Some(Extracted) {
      if text.Some? { FromExtracted(g, w, id, text.value); } else { Fails(g, w, id, Failed); }
    } else if s == Some(Anonymized) {
      FromAnonymized(g, w, id);
    }
  }

  // ----- the other ways to a text -----

  /** `reanonymize` stores and shows the new text, and only adds tokens; the document stays in its
      state. */
  lemma RederiveStores(w: World, id: Id, text: string, toks: set<string>)
    requires id in w.db.docs && StateOf(w.db.trail, id) in {Some(Indexed), Some(Anonymized)}
    ensures var w' := Do(w, Rederive(id, text, toks));
            && Moved(w, w', id, StateOf(w.db.trail, id).value) && w'.db.trail != w.db.trail
            && TextStored(w, w', id, text, toks) && Findable(w, w', id, text)
  {
    var w' := Do(w, Rederive(id, text, toks));
    NotedQuiet(w.db.trail, id);
    forall d ensures d in w'.index[id].dossiers <==> (d, id) in w.db.members { InDossiers(w.db, id, d); }
  }

  /** A scan whose text is too poor stays what it is, with an event. */
  lemma PoorScanStays(w: World, id: Id, key: ObjectKey, owner: Option<Id>, ds: seq<DossierId>)
    requires id in w.db.docs && StateOf(w.db.trail, id) == Some(Unprocessable)
    ensures var w' := Recovered(w, id, key, false, owner, ds);
            Stops(w, w', id, Unprocessable) && |w'.db.trail| == |w.db.trail| + 1
  {
    RecordedMoves(w, id, Unprocessable);
  }

  /** A scan whose text is good and whose bytes nobody has gets the new object, and goes on. */
  lemma GoodScanMoves(w: World, id: Id, key: ObjectKey, owner: Option<Id>, ds: seq<DossierId>)
    requires id in w.db.docs && StateOf(w.db.trail, id) == Some(Unprocessable) && (owner.Some? ==> owner.value == id)
    ensures var w' := Recovered(w, id, key, true, owner, ds);
            && StateOf(w'.db.trail, id) == Some(Extractable) && w'.db.docs[id].key == key
            && w'.db.docs == w.db.docs[id := Doc(key, w.db.docs[id].supersededBy)]
            && w'.objects == w.objects + {key} && w'.db.members == w.db.members && NothingStored(w, w')
  {
    RecordedMoves(w, id, Extractable);
  }

  /** One whose bytes another document has is retired in its favour; it keeps its own key. */
  lemma KnownScanRetires(w: World, id: Id, key: ObjectKey, owner: Id, ds: seq<DossierId>)
    requires Sound(w.db) && DossiersOf(w.db, id, ds) && Distinct(ds) && LiveAt(w.db, owner, key) && owner != id
    requires id in w.db.docs && StateOf(w.db.trail, id) == Some(Unprocessable)
    ensures var w' := Recovered(w, id, key, true, Some(owner), ds);
            && StateOf(w'.db.trail, id) == Some(Superseded)
            && w'.db.docs == w.db.docs[id := Doc(w.db.docs[id].key, Some(owner))]
            && w'.objects == w.objects + {key} && NothingStored(w, w')
            && (forall d :: (d, owner) in w'.db.members <==> (d, owner) in w.db.members || (d, id) in w.db.members)
            && (forall d :: (d, id) !in w'.db.members)
  {
    NotRetired(w.db, id);
    SupersedeFacts(w.db, id, owner, Some(key), ds);
    var w' := Recovered(w, id, key, true, Some(owner), ds);
    forall d ensures (d, owner) in w'.db.members <==> (d, owner) in w.db.members || (d, id) in w.db.members {
      assert (d, owner).0 == d && (d, owner).1 == owner;
    }
    forall d ensures (d, id) !in w'.db.members { assert (d, id).1 == id; }
  }
}
