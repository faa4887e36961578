/** What a run replaces, told from what the detector reported: each value of at least three
    characters, wherever it stands as a word, and nothing else. */
module Replacing {
  import opened Lexer
  import opened Pieces
  import opened Cuts
  import Detection
  import opened Mappings
  import opened Matching
  import opened Rules
  import opened Hosts
  import opened Survivors
  import opened Reveal
  import opened Anonymizer
  import opened RoundTrip

  /** Some character is no space. */
  ghost predicate HasText(e: Env, s: string) { exists k :: 0 <= k < |s| && !e.space(s[k]) }

  /** A value of at least three characters, trimmed, is among the reported ones. */
  ghost predicate SomeValue(e: Env, es: seq<Entity>) { exists v :: |v| >= 3 && Reported(e, es, v) }

  /** Each replacement is of a reported value of at least three characters, by the token of the
      type it was first reported with. */
  ghost predicate OnlyReported(e: Env, es: seq<Entity>, swaps: Swaps) {
    forall x :: x in swaps ==>
      |x.1| >= 3 && exists k: nat :: FirstReport(e, es, k, x.1) && x.0 == Pseudonym(e, LowerCase(es[k].kind), x.1)
  }

  /** No such value stands as a whole word in a stretch that is kept, unless it starts in a
      token. */
  ghost predicate AllReported(e: Env, es: seq<Entity>, t: string, cuts: seq<Cut>) {
    forall v, j: nat :: |v| >= 3 && Reported(e, es, v) && Whole(e, t, v, j) && !InToken(t, j) ==> Replaced(0, cuts, j)
  }

  lemma {:induction false} SomeFirst(e: Env, es: seq<Entity>, k: nat, v: string) returns (j: nat)
    requires k < |es| && Trim(e, es[k].text) == v
    ensures FirstReport(e, es, j, v)
  {
    if i: nat :| i < k && Trim(e, es[i].text) == v {
      j := SomeFirst(e, es, i, v);
    } else {
      j := k;
    }
  }

  lemma FirstLabel(e: Env, es: seq<Entity>, labels: map<string, string>, v: string) returns (k: nat)
    requires Reports(e, es, labels) && v in labels
    ensures FirstReport(e, es, k, v) && labels[v] == LowerCase(es[k].kind)
  {
    var i :| 0 <= i < |es| && Trim(e, es[i].text) == v;
    k := SomeFirst(e, es, i, v);
  }

  lemma SwapsReported(e: Env, es: seq<Entity>, labels: map<string, string>, t: string)
    requires Reports(e, es, labels)
    ensures OnlyReported(e, es, PassSwaps(NamesRule(e, labels), t))
  {
    var r := NamesRule(e, labels);
    SwapsOfPass(r, t, 0);
    forall x | x in PassSwaps(r, t)
      ensures |x.1| >= 3
      ensures exists k: nat :: FirstReport(e, es, k, x.1) && x.0 == Pseudonym(e, LowerCase(es[k].kind), x.1) {
      assert x.1 in labels;
      var k := FirstLabel(e, es, labels, x.1);
    }
  }

  lemma KeptReported(e: Env, es: seq<Entity>, labels: map<string, string>, t: string)
    requires Reports(e, es, labels) && WordRule(e, NamesRule(e, labels))
    ensures AllReported(e, es, t, Pass(NamesRule(e, labels), t, 0))
  {
    var r := NamesRule(e, labels);
    forall v, j: nat | |v| >= 3 && Reported(e, es, v) && Whole(e, t, v, j) && !InToken(t, j)
      ensures Replaced(0, Pass(r, t, 0), j) {
      assert r.fits(v);
      NoneKept(e, r, t, v, j);
    }
  }

  lemma TextNotBlank(e: Env, s: string)
    ensures Blank(e, s) <==> !HasText(e, s)
  {}

  /** The text the pass of a run works on, and the hosts that come back into it. */
  ghost predicate PassOf(f: Finder, s: string, t: string, hosts: seq<string>) {
    InText(f, s) && t == Without(s, Protected(f, s), 0, 0) && hosts == Taken(s, Protected(f, s), 0, 0)
  }

  lemma GoodDone(e: Env, f: Finder, text: string)
    requires InText(f, Body(e, text)) && Good(e, f, text)
    ensures Run(e, f, text).Done?
  {
    var fs := RunKeeps(e, f, text, map[]);
  }

  lemma GoodWords(e: Env, f: Finder, text: string, s: string, es: seq<Entity>, labels: map<string, string>)
    requires s == Body(e, text) && InText(f, s) && Good(e, f, text) && HasText(e, s) && f.entities(s) == Some(es)
    requires labels == LabelsFrom(e, es, map[])
    ensures WordRule(e, NamesRule(e, labels))
  {
    TextNotBlank(e, s);
    UsableFacts(e, labels);
    NamesAreWholeWords(e, labels);
  }

  lemma SomeLabel(e: Env, es: seq<Entity>) returns (labels: map<string, string>)
    requires SomeValue(e, es)
    ensures labels == LabelsFrom(e, es, map[]) && labels != map[] && Reports(e, es, labels)
  {
    labels := LabelsFrom(e, es, map[]);
    LabelsAre(e, es);
    var v :| |v| >= 3 && Reported(e, es, v);
    assert v in labels;
  }

  /** What the run answers, when it answers with a text. */
  lemma DoneText(e: Env, f: Finder, text: string, s: string, es: seq<Entity>, labels: map<string, string>)
    returns (t: string, hosts: seq<string>)
    requires s == Body(e, text) && InText(f, s) && HasText(e, s) && f.entities(s) == Some(es)
    requires labels == LabelsFrom(e, es, map[]) && labels != map[] && Run(e, f, text).Done?
    ensures PassOf(f, s, t, hosts) && Run(e, f, text).text == Back(hosts, PassText(NamesRule(e, labels), t))
    ensures var r := NamesRule(e, labels); !Survives(e, labels, Stripped(e, KnownOf(PassSwaps(r, t)), PassText(r, t)))
  {
    TextNotBlank(e, s);
    var spans := Protected(f, s);
    NamedPass(e, f, text, map[], s, labels, spans);
    t, hosts := Without(s, spans, 0, 0), Taken(s, spans, 0, 0);
    PassDone(e, labels, s, spans, t, hosts);
  }

  lemma PassDone(e: Env, labels: map<string, string>, s: string, spans: seq<Hosts.Span>, t: string, hosts: seq<string>)
    requires Within(s, spans) && t == Without(s, spans, 0, 0) && hosts == Taken(s, spans, 0, 0) && labels != map[]
    requires EntityPass(e, labels, s, spans).Done?
    ensures EntityPass(e, labels, s, spans).text == Back(hosts, PassText(NamesRule(e, labels), t))
    ensures var r := NamesRule(e, labels); !Survives(e, labels, Stripped(e, KnownOf(PassSwaps(r, t)), PassText(r, t)))
  {}

  /** A run that meets the conditions replaces each reported value of at least three characters,
      under the type it was first reported with, wherever it stands as a word outside tokens and
      hosts, and nothing else. */
  lemma RunReplaces(e: Env, f: Finder, text: string, s: string, es: seq<Entity>)
    returns (t: string, hosts: seq<string>, cuts: seq<Cut>)
    requires s == Body(e, text) && InText(f, s) && Good(e, f, text)
    requires HasText(e, s) && f.entities(s) == Some(es) && SomeValue(e, es)
    ensures PassOf(f, s, t, hosts) && Covers(t, 0, cuts)
    ensures Run(e, f, text).Done? && Run(e, f, text).text == Back(hosts, Emit(t, 0, cuts))
    ensures OnlyReported(e, es, SwapsOf(t, 0, cuts)) && AllReported(e, es, t, cuts)
  {
    var labels := SomeLabel(e, es);
    GoodDone(e, f, text);
    GoodWords(e, f, text, s, es, labels);
    t, hosts := DoneText(e, f, text, s, es, labels);
    cuts := Pass(NamesRule(e, labels), t, 0);
    SwapsReported(e, es, labels, t);
    KeptReported(e, es, labels, t);
  }

  /** Whatever the detector reports: of a text that a run hands out, none of those values stands
      as a whole word in what the check looked at. */
  lemma DoneChecked(e: Env, f: Finder, text: string, s: string, es: seq<Entity>, v: string)
    returns (out: string, known: map<string, string>, hosts: seq<string>)
    requires s == Body(e, text) && InText(f, s) && HasText(e, s) && f.entities(s) == Some(es)
    requires |v| >= 3 && Reported(e, es, v) && Run(e, f, text).Done?
    ensures Run(e, f, text).text == Back(hosts, out) && forall j: nat :: !Whole(e, Stripped(e, known, out), v, j)
  {
    var labels := SomeLabel(e, es);
    var t, taken := DoneText(e, f, text, s, es, labels);
    out, known := PassText(NamesRule(e, labels), t), KnownOf(PassSwaps(NamesRule(e, labels), t));
    hosts := taken;
    NotWhole(e, labels, Stripped(e, known, out), v);
  }

  lemma NotWhole(e: Env, labels: map<string, string>, stripped: string, v: string)
    requires v in labels && !Survives(e, labels, stripped)
    ensures forall j: nat :: !Whole(e, stripped, v, j)
  {}

  /** Without text, or without a reported value of that length, the detectors have the last
      word; when detection fails there is no text at all. */
  lemma RunWithoutValues(e: Env, f: Finder, text: string, s: string)
    requires s == Body(e, text) && InText(f, s)
    ensures !HasText(e, s) ==> Run(e, f, text) == Done(s, DetCounts(e, text))
    ensures HasText(e, s) && f.entities(s).None? ==> Run(e, f, text) == EngineFailed
    ensures HasText(e, s) && f.entities(s).Some? && !SomeValue(e, f.entities(s).value) ==>
              Run(e, f, text).Done? && Run(e, f, text).text == s
  {
    TextNotBlank(e, s);
    if HasText(e, s) && f.entities(s).Some? && !SomeValue(e, f.entities(s).value) {
      LabelsAre(e, f.entities(s).value);
      assert forall v :: v !in Labels(e, f, s);
      assert Labels(e, f, s) == map[];
    }
  }

  // ----- what is counted -----

  /** Tokens that were in the text are counted, and only then listed. */
  lemma ForeignCounted(e: Env, text: string)
    ensures FOREIGN in DetCounts(e, text) <==> TokensOf(text) != []
    ensures At(DetCounts(e, text), FOREIGN) == |TokensOf(text)|
  {
    CountIsTokens(text);
    LayerElse(e, Detection.DETECTORS, Neutral(text), map[], FOREIGN);
  }

  lemma PassCounts(e: Env, labels: map<string, string>, s: string, spans: seq<Hosts.Span>, ty: string)
    requires Within(s, spans) && labels != map[] && EntityPass(e, labels, s, spans).Done?
    ensures At(EntityPass(e, labels, s, spans).counts, ty) == |Places(labels, Swapped(e, labels, s, spans), ty)|
  {
    CountsAre(labels, Swapped(e, labels, s, spans), ty);
  }

  lemma AddedAt(counts: map<string, nat>, r: Outcome, ty: string)
    requires r.Done?
    ensures WithCounts(counts, r).Done? && At(WithCounts(counts, r).counts, ty) == At(counts, ty) + At(r.counts, ty)
  {}

  lemma DoneBefore(counts: map<string, nat>, r: Outcome)
    ensures WithCounts(counts, r).Done? <==> r.Done?
  {}

  /** Of a run that replaces reported values, a type is counted once for each replacement by it, on
      top of what the detectors counted. */
  lemma RunCounts(e: Env, f: Finder, text: string, s: string, es: seq<Entity>, labels: map<string, string>,
                  spans: seq<Hosts.Span>, ty: string)
    requires s == Body(e, text) && InText(f, s) && HasText(e, s) && f.entities(s) == Some(es)
    requires labels == LabelsFrom(e, es, map[]) && labels != map[] && spans == Sorted(HostsOf(s, f.addresses(s)))
    requires Run(e, f, text).Done?
    ensures Within(s, spans)
    ensures At(Run(e, f, text).counts, ty)
         == At(DetCounts(e, text), ty) + |Places(labels, Swapped(e, labels, s, spans), ty)|
  {
    TextNotBlank(e, s);
    NamedPass(e, f, text, map[], s, labels, spans);
    DoneBefore(DetCounts(e, text), EntityPass(e, labels, s, spans));
    PassCounts(e, labels, s, spans, ty);
    AddedAt(DetCounts(e, text), EntityPass(e, labels, s, spans), ty);
  }
}
