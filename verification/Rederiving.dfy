/** `reanonymize`: a document that has been through the pipeline gets a new text from
    its stored bytes. Its old tokens stay registered, and what no text reaches any more
    is reported. */
module Rederiving {
  import opened Lexer
  import opened Mappings
  import opened States
  import opened Lifecycle
  import opened Deletion
  import opened Runs
  import opened Reveal

  // ----- the tables and the index -----

  /** Run again with the same text, nothing changes but the trail, which notes the second
      run. */
  lemma AgainChangesNothing(w: World, id: Id, text: string, toks: set<string>)
    ensures var op := Rederive(id, text, toks);
            var w' := Do(w, op);
            Do(w', op) == if w' == w then w else w'.(db := w'.db.(trail := Noted(w'.db.trail, id)))
  {
    var w' := Do(w, Rederive(id, text, toks));
    NotedQuiet(w.db.trail, id);
    if id in w.db.docs && StateOf(w.db.trail, id) in {Some(Indexed), Some(Anonymized)} {
      assert w'.index[id := w'.index[id]] == w'.index && w'.db.texts[id := text] == w'.db.texts;
      assert Dossiers(w'.db, id) == Dossiers(w.db, id);
    }
  }

  /** Runs that failed behind the index, any number of them, each with its own text: the
      stored text, the tokens and the trail are as they were, and the run that completes
      ends as if it had been the only one. */
  function Failures(w: World, id: Id, tries: seq<(string, set<string>)>): World
    decreases |tries|
  {
    if tries == [] then w
    else Failures(Transact(w, Rederive(id, tries[0].0, tries[0].1), false), id, tries[1..])
  }

  lemma {:induction false} FailuresHeal(w: World, id: Id, tries: seq<(string, set<string>)>, text: string,
                                        toks: set<string>)
    requires id in w.db.docs && StateOf(w.db.trail, id) in {Some(Indexed), Some(Anonymized)}
    ensures Failures(w, id, tries).db == w.db
    ensures Do(Failures(w, id, tries), Rederive(id, text, toks)) == Do(w, Rederive(id, text, toks))
    decreases |tries|
  {
    if tries != [] {
      var w1 := Transact(w, Rederive(id, tries[0].0, tries[0].1), false);
      FailuresHeal(w1, id, tries[1..], text, toks);
      var e := Entry(text, w.db.docs[id].key, Dossiers(w.db, id));
      assert w1.index[id := e] == w.index[id := e];
    }
  }

  // ----- tokens no text reaches any more -----

  function InText(text: string): set<string> { set t | t in TokensOf(text) }

  function Unreached(registered: set<string>, text: string): set<string> { registered - InText(text) }

  /** The tokens of `ts` with one label. */
  function Labelled(ts: set<string>, l: string): set<string> { set t | t in ts && LabelIn(t) == l }

  ghost predicate CountedAt(counts: map<string, nat>, ts: set<string>, l: string) {
    (l in counts <==> Labelled(ts, l) != {}) && (l in counts ==> counts[l] == |Labelled(ts, l)|)
  }

  /** `counts` counts `ts` by label, and holds only labels that occur. */
  ghost predicate Counted(counts: map<string, nat>, ts: set<string>) {
    forall l :: CountedAt(counts, ts, l)
  }

  lemma CountedMore(counts: map<string, nat>, ts: set<string>, t: string)
    requires Counted(counts, ts) && t !in ts
    ensures var l := LabelIn(t);
            Counted(counts[l := (if l in counts then counts[l] else 0) + 1], ts + {t})
  {
    var here := LabelIn(t);
    var more := counts[here := (if here in counts then counts[here] else 0) + 1];
    forall l ensures CountedAt(more, ts + {t}, l) { CountedOne(counts, more, ts, t, l); }
  }

  lemma CountedOne(counts: map<string, nat>, more: map<string, nat>, ts: set<string>, t: string, l: string)
    requires CountedAt(counts, ts, l) && t !in ts
    requires var here := LabelIn(t); more == counts[here := (if here in counts then counts[here] else 0) + 1]
    ensures CountedAt(more, ts + {t}, l)
  {
    LabelledMore(ts, t, l);
  }

  lemma LabelledMore(ts: set<string>, t: string, l: string)
    ensures Labelled(ts + {t}, l) == Labelled(ts, l) + (if LabelIn(t) == l then {t} else {})
    ensures t !in ts && LabelIn(t) == l ==> |Labelled(ts + {t}, l)| == |Labelled(ts, l)| + 1
  {
    assert Labelled(ts + {t}, l) == Labelled(ts, l) + (if LabelIn(t) == l then {t} else {});
  }

  /** `_orphaned_tokens`: counts by label, and only of labels that have an orphan. */
  method OrphanedTokens(before: set<string>, text: string) returns (counts: map<string, nat>)
    ensures Counted(counts, Unreached(before, text))
  {
    var todo := Unreached(before, text);
    ghost var done: set<string> := {};
    counts := map[];
    while todo != {}
      invariant done !! todo && done + todo == Unreached(before, text)
      invariant Counted(counts, done)
    {
      var t :| t in todo;
      var here := LabelIn(t);
      CountedMore(counts, done, t);
      counts := counts[here := (if here in counts then counts[here] else 0) + 1];
      done, todo := done + {t}, todo - {t};
    }
    assert done == Unreached(before, text);
  }

  /** A reveal looks at the tokens of its text only. */
  lemma {:induction false} SameForText(g: Gate, g': Gate, s: string)
    requires forall t :: t in TokensOf(s) ==> Shows(g, t) == Shows(g', t) && Breaks(g, t) == Breaks(g', t)
    ensures RevealText(g, s) == RevealText(g', s)
    ensures RevealedIn(g, TokensOf(s)) == RevealedIn(g', TokensOf(s))
    ensures NoneBreaks(g, TokensOf(s)) == NoneBreaks(g', TokensOf(s))
    decreases |s|
  {
    if s != "" {
      RevealStep(g, s);
      RevealStep(g', s);
      var m := Span(TokenShape, s);
      SameForText(g, g', s[m..]);
      if AtomLen(TokenShape, s) > 0 {
        TokenCons(g, s[..m], TokensOf(s[m..]));
        TokenCons(g', s[..m], TokensOf(s[m..]));
      }
    }
  }

  /** The reported tokens are the unreachable ones: a reveal of the new text shows and
      reports the same whether they stay registered or not, and each token that is not
      reported stands in the text. */
  lemma UnreachedNeverShown(g: Gate, registered: set<string>, text: string)
    requires g.registered == Some(registered)
    ensures var g' := g.(registered := Some(registered - Unreached(registered, text)));
            && RevealText(g, text) == RevealText(g', text)
            && RevealedIn(g, TokensOf(text)) == RevealedIn(g', TokensOf(text))
            && (NoneBreaks(g, TokensOf(text)) <==> NoneBreaks(g', TokensOf(text)))
    ensures forall t :: t in registered ==> (t !in Unreached(registered, text) <==> t in TokensOf(text))
  {
    SameForText(g, g.(registered := Some(registered - Unreached(registered, text))), text);
  }
}
