/** The document state machine and the append-only trail it is derived from. */
module States {
  import opened Mappings

  datatype State = Registered | Extractable | Unprocessable | Extracted | Anonymized | Indexed | Failed
      | Superseded | Deleted

  /** The ordinary edges; `None` is a document that does not exist yet. */
  predicate Edge(f: Option<State>, t: State) {
    match f
    case None => t == Registered
    case Some(Registered) => t in {Extractable, Unprocessable, Failed}
    case Some(Unprocessable) => t == Extractable
    case Some(Extractable) => t in {Extracted, Failed}
    case Some(Extracted) => t in {Anonymized, Failed}
    case Some(Anonymized) => t in {Indexed, Failed}
    case Some(_) => false
  }

  /** Every state but `Deleted` can also be superseded or deleted. */
  predicate Allowed(f: Option<State>, t: State) {
    Edge(f, t) || (f.Some? && f.value != Deleted && f.value != t && t in {Superseded, Deleted})
  }

  type Id = nat

  datatype Rec = Rec(doc: Id, from: Option<State>, to: State)

  /** The state of a document: the last record about it. */
  function StateOf(trail: seq<Rec>, id: Id): Option<State> {
    if trail == [] then None
    else if trail[|trail| - 1].doc == id then Some(trail[|trail| - 1].to)
    else StateOf(trail[..|trail| - 1], id)
  }

  /** Each record starts where its document was, and stays there or takes an allowed
      edge. */
  predicate Path(trail: seq<Rec>) {
    trail == [] ||
    (var r, front := trail[|trail| - 1], trail[..|trail| - 1];
     Path(front) && r.from == StateOf(front, r.doc) && (r.from == Some(r.to) || Allowed(r.from, r.to)))
  }

  /** An event: it leaves the document in its state. */
  function Noted(trail: seq<Rec>, id: Id): seq<Rec> {
    match StateOf(trail, id) case None => trail case Some(s) => trail + [Rec(id, Some(s), s)]
  }

  /** `transition`: nothing when the document is there already, `None` when the edge is
      not allowed. */
  function Transition(trail: seq<Rec>, id: Id, to: State): Option<seq<Rec>> {
    var f := StateOf(trail, id);
    if f == Some(to) then Some(trail)
    else if !Allowed(f, to) then None
    else Some(trail + [Rec(id, f, to)])
  }

  lemma StateOfAppend(trail: seq<Rec>, r: Rec, x: Id)
    ensures StateOf(trail + [r], x) == if r.doc == x then Some(r.to) else StateOf(trail, x)
    ensures Path(trail + [r]) <==>
              Path(trail) && r.from == StateOf(trail, r.doc) && (r.from == Some(r.to) || Allowed(r.from, r.to))
    ensures SupersededAt(trail + [r], x)
         == if r.doc == x && r.to == Superseded && r.from != Some(Superseded) then Some(|trail|)
            else SupersededAt(trail, x)
  {
    var t := trail + [r];
    assert t[..|t| - 1] == trail && t[|t| - 1] == r;
  }

  /** Where in the trail a document was superseded. */
  function SupersededAt(trail: seq<Rec>, id: Id): (p: Option<nat>)
    ensures p.Some? ==> p.value < |trail|
  {
    if trail == [] then None
    else
      var r := trail[|trail| - 1];
      if r.doc == id && r.to == Superseded && r.from != Some(Superseded) then Some(|trail| - 1)
      else SupersededAt(trail[..|trail| - 1], id)
  }

  /** A deleted document stays deleted, whatever is recorded after. */
  lemma {:induction false} DeletedStays(a: seq<Rec>, b: seq<Rec>, id: Id)
    requires Path(a + b) && StateOf(a, id) == Some(Deleted)
    ensures StateOf(a + b, id) == Some(Deleted)
    decreases |b|
  {
    if b == [] {
      assert a + b == a;
    } else {
      var front, r := b[..|b| - 1], b[|b| - 1];
      assert a + b == (a + front) + [r];
      StateOfAppend(a + front, r, id);
      DeletedStays(a, front, id);
    }
  }
}
