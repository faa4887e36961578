/** The reversible driver: foreign tokens are taken apart, the detectors run one by
    one, the hosts of allowed addresses step aside, the reported values are
    replaced, the fail-hard check runs, and the hosts come back. */
module Anonymizer {
  import opened Lexer
  import opened Pieces
  import opened Cuts
  import opened Mappings
  import opened Matching
  import opened Rules
  import opened Detection
  import opened Hosts
  import opened Survivors
  import opened Reveal

  // ----- what a run puts in the store -----

  type Store = map<string, Mapping>
  type Swaps = seq<(string, string)>

  function Row(e: Env, ty: string, p: string, v: string): Mapping {
    var k := e.key(UpperCase(ty));
    Mapping(Encrypt(k.material, e.nonce(p), v), k.id)
  }

  /** Every replacement puts its row, in order; the first one stays. */
  function PutAll(e: Env, r: Rule, d: Store, swaps: Swaps): Store
    decreases |swaps|
  {
    if swaps == [] then d
    else PutAll(e, r, PutFirst(d, swaps[0].0, Row(e, r.ty(swaps[0].1), swaps[0].0, swaps[0].1)), swaps[1..])
  }

  // ----- token spans -----

  predicate InSpans(spans: seq<(nat, nat)>, i: nat) {
    exists k :: 0 <= k < |spans| && spans[k].0 <= i < spans[k].1
  }

  /** `finditer`: where the tokens of `s` stand. */
  method TokenSpans(s: string) returns (spans: seq<(nat, nat)>)
    ensures forall i: nat :: i < |s| ==> (InSpans(spans, i) <==> InToken(s, i))
  {
    spans := [];
    var i := 0;
    while i < |s|
      invariant 0 <= i <= |s|
      invariant SpansOf(s, i, spans)
    {
      var n := AtomLen(TokenShape, s[i..]);
      SpansStep(s, i, n, spans);
      if n > 0 {
        spans := spans + [(i, i + n)];
        i := i + n;
      } else {
        i := i + 1;
      }
    }
    SpansDone(s, spans);
  }

  /** Every token of `s` that starts before `i` is in `spans`. */
  ghost predicate AllStarts(s: string, i: nat, spans: seq<(nat, nat)>)
    requires i <= |s|
  {
    forall b: nat :: b < i ==> TokenIn(s, b, spans)
  }

  ghost predicate TokenIn(s: string, b: nat, spans: seq<(nat, nat)>)
    requires b <= |s|
  {
    var n := AtomLen(TokenShape, s[b..]);
    n > 0 ==> (b, b + n) in spans
  }

  ghost predicate OnlyTokens(s: string, spans: seq<(nat, nat)>) {
    forall k :: 0 <= k < |spans| ==> spans[k].0 < |s| && spans[k].1 == spans[k].0 + AtomLen(TokenShape, s[spans[k].0..])
  }

  ghost predicate SpansOf(s: string, i: nat, spans: seq<(nat, nat)>)
    requires i <= |s|
  {
    AllStarts(s, i, spans) && OnlyTokens(s, spans)
  }

  lemma SpansStep(s: string, i: nat, n: nat, spans: seq<(nat, nat)>)
    requires i < |s| && SpansOf(s, i, spans) && n == AtomLen(TokenShape, s[i..])
    ensures n == 0 ==> SpansOf(s, i + 1, spans)
    ensures n > 0 ==> SpansOf(s, i + n, spans + [(i, i + n)])
  {
    if n > 0 {
      var longer := spans + [(i, i + n)];
      forall b: nat | b < i + n ensures TokenIn(s, b, longer) {
        assert b < i ==> TokenIn(s, b, spans);
        if i < b { NoneBetween(s, i, n, b); } else if b == i { assert longer[|spans|] == (i, i + n); }
      }
    }
  }

  lemma NoneBetween(s: string, i: nat, n: nat, b: nat)
    requires i < |s| && n == AtomLen(TokenShape, s[i..]) && i < b < i + n
    ensures AtomLen(TokenShape, s[b..]) == 0
  {
    DropDrop(s, i, b);
    NoAtomInside(TokenShape, s[i..], b - i);
  }

  lemma SpansDone(s: string, spans: seq<(nat, nat)>)
    requires SpansOf(s, |s|, spans)
    ensures forall i: nat :: i < |s| ==> (InSpans(spans, i) <==> InToken(s, i))
  {
    forall i: nat | i < |s| && InToken(s, i) ensures InSpans(spans, i) {
      var b: nat :| b <= i < |s| && i < b + AtomLen(TokenShape, s[b..]);
      assert TokenIn(s, b, spans);
    }
    forall i: nat | i < |s| && InSpans(spans, i) ensures InToken(s, i) {
      var k :| 0 <= k < |spans| && spans[k].0 <= i < spans[k].1;
    }
  }

  // ----- reported values -----

  /** A value an entity detector reported, with its type. */
  datatype Entity = Entity(kind: string, text: string)

  function LowerChar(c: char): char { if 'A' <= c <= 'Z' then (c as int + 32) as char else c }

  function LowerCase(s: string): string { if s == "" then "" else [LowerChar(s[0])] + LowerCase(s[1..]) }

  function TrimLeft(e: Env, s: string): string { if s != "" && e.space(s[0]) then TrimLeft(e, s[1..]) else s }

  function TrimRight(e: Env, s: string): string {
    if s != "" && e.space(s[|s| - 1]) then TrimRight(e, s[..|s| - 1]) else s
  }

  function Trim(e: Env, s: string): string { TrimRight(e, TrimLeft(e, s)) }

  const MIN_ENTITY_LEN: nat := 3

  /** `label_of`: the trimmed values of at least three characters, each with the
      first type reported for it. */
  function LabelsFrom(e: Env, es: seq<Entity>, labels: map<string, string>): map<string, string>
    decreases |es|
  {
    if es == [] then labels
    else
      var v := Trim(e, es[0].text);
      var known := |v| < MIN_ENTITY_LEN || v in labels;
      LabelsFrom(e, es[1..], if known then labels else labels[v := LowerCase(es[0].kind)])
  }

  /** Without the space at its ends. */
  ghost predicate TrimmedTo(e: Env, s: string, v: string) {
    && (exists a: nat, b: nat :: Framed(e, s, a, b, v))
    && (v != "" ==> !e.space(v[0]) && !e.space(v[|v| - 1]))
  }

  /** Between `a` and `b` stands `v`, and around it space. */
  ghost predicate Framed(e: Env, s: string, a: nat, b: nat, v: string) {
    && a <= b <= |s| && v == s[a..b]
    && (forall k :: 0 <= k < a ==> e.space(s[k])) && (forall k :: b <= k < |s| ==> e.space(s[k]))
  }

  lemma {:induction false} LeftTrimmed(e: Env, s: string) returns (a: nat)
    ensures a <= |s| && TrimLeft(e, s) == s[a..] && forall k :: 0 <= k < a ==> e.space(s[k])
    ensures a < |s| ==> !e.space(s[a])
  {
    a := 0;
    if s != "" && e.space(s[0]) {
      a := LeftTrimmed(e, s[1..]);
      a := a + 1;
    }
  }

  lemma {:induction false} RightTrimmed(e: Env, s: string) returns (b: nat)
    ensures b <= |s| && TrimRight(e, s) == s[..b] && forall k :: b <= k < |s| ==> e.space(s[k])
    ensures b > 0 ==> !e.space(s[b - 1])
  {
    b := |s|;
    if s != "" && e.space(s[|s| - 1]) { b := RightTrimmed(e, s[..|s| - 1]); }
  }

  /** `strip`. */
  lemma TrimIs(e: Env, s: string)
    ensures TrimmedTo(e, s, Trim(e, s))
  {
    var a := LeftTrimmed(e, s);
    var b := RightTrimmed(e, s[a..]);
    assert Framed(e, s, a, a + b, Trim(e, s)) by {
      forall k | a + b <= k < |s| ensures e.space(s[k]) { assert s[k] == s[a..][k - a]; }
    }
  }

  lemma {:induction false} LowerAt(s: string, k: nat)
    ensures |LowerCase(s)| == |s|
    ensures k < |s| ==> LowerCase(s)[k] == if 'A' <= s[k] <= 'Z' then (s[k] as int + 32) as char else s[k]
  {
    if s != "" { LowerAt(s[1..], if k == 0 then 0 else k - 1); }
  }

  /** The first report of `v` among those of `es`. */
  ghost predicate FirstReport(e: Env, es: seq<Entity>, k: nat, v: string) {
    k < |es| && Trim(e, es[k].text) == v && forall j :: 0 <= j < k ==> Trim(e, es[j].text) != v
  }

  ghost predicate Reported(e: Env, es: seq<Entity>, v: string) {
    exists k :: 0 <= k < |es| && Trim(e, es[k].text) == v
  }

  /** `labels` has exactly the reported values of at least three characters, each under the
      type of its first report. */
  ghost predicate Reports(e: Env, es: seq<Entity>, labels: map<string, string>) {
    && (forall v :: v in labels <==> |v| >= 3 && Reported(e, es, v))
    && (forall v, k: nat :: v in labels && FirstReport(e, es, k, v) ==> labels[v] == LowerCase(es[k].kind))
  }

  lemma ReportedTail(e: Env, es: seq<Entity>, v: string)
    requires es != []
    ensures Reported(e, es, v) <==> Trim(e, es[0].text) == v || Reported(e, es[1..], v)
  {
    assert forall k :: 0 <= k < |es| - 1 ==> es[1..][k] == es[k + 1];
  }

  lemma {:induction false} LabelHas(e: Env, es: seq<Entity>, labels: map<string, string>, v: string)
    ensures var r := LabelsFrom(e, es, labels);
            && (v in r <==> v in labels || (|v| >= 3 && Reported(e, es, v)))
            && (v in labels ==> r[v] == labels[v])
    decreases |es|
  {
    if es != [] {
      var here := Trim(e, es[0].text);
      var known := |here| < MIN_ENTITY_LEN || here in labels;
      ReportedTail(e, es, v);
      LabelHas(e, es[1..], if known then labels else labels[here := LowerCase(es[0].kind)], v);
    }
  }

  lemma {:induction false} LabelFirst(e: Env, es: seq<Entity>, labels: map<string, string>, k: nat, v: string)
    requires FirstReport(e, es, k, v) && |v| >= 3 && v !in labels
    ensures var r := LabelsFrom(e, es, labels); v in r && r[v] == LowerCase(es[k].kind)
    decreases |es|
  {
    var here := Trim(e, es[0].text);
    var known := |here| < MIN_ENTITY_LEN || here in labels;
    var next := if known then labels else labels[here := LowerCase(es[0].kind)];
    if k == 0 {
      LabelHas(e, es[1..], next, v);
    } else {
      assert FirstReport(e, es[1..], k - 1, v);
      LabelFirst(e, es[1..], next, k - 1, v);
    }
  }

  lemma LabelsAre(e: Env, es: seq<Entity>)
    ensures Reports(e, es, LabelsFrom(e, es, map[]))
  {
    var r := LabelsFrom(e, es, map[]);
    forall v ensures v in r <==> |v| >= 3 && Reported(e, es, v) { LabelHas(e, es, map[], v); }
    forall v, k: nat | v in r && FirstReport(e, es, k, v) ensures r[v] == LowerCase(es[k].kind) {
      LabelHas(e, es, map[], v);
      LabelFirst(e, es, map[], k, v);
    }
  }

  // ----- bookkeeping of the entity pass -----

  /** `waarde_van_token`: the last value each token was placed for. */
  function KnownOf(swaps: Swaps): (m: map<string, string>)
    ensures forall p :: p in m ==> (p, m[p]) in swaps
    ensures forall x :: x in swaps ==> x.0 in m
    decreases |swaps|
  {
    if swaps == [] then map[]
    else
      var last := swaps[|swaps| - 1];
      KnownOf(swaps[..|swaps| - 1])[last.0 := last.1]
  }

  function At(counts: map<string, nat>, ty: string): nat { if ty in counts then counts[ty] else 0 }

  function CountsOf(labels: map<string, string>, swaps: Swaps): map<string, nat>
    decreases |swaps|
  {
    if swaps == [] then map[]
    else
      var counts, ty := CountsOf(labels, swaps[..|swaps| - 1]), TypeOf(labels, swaps[|swaps| - 1].1);
      counts[ty := At(counts, ty) + 1]
  }

  /** Where `swaps` replaces a value of the type. */
  function Places(labels: map<string, string>, swaps: Swaps, ty: string): set<int> {
    set k | 0 <= k < |swaps| && TypeOf(labels, swaps[k].1) == ty
  }

  /** A type is counted as often as a value of it was replaced, and not at all when none was. */
  lemma {:induction false} CountsAre(labels: map<string, string>, swaps: Swaps, ty: string)
    ensures At(CountsOf(labels, swaps), ty) == |Places(labels, swaps, ty)|
    ensures ty in CountsOf(labels, swaps) <==> Places(labels, swaps, ty) != {}
    decreases |swaps|
  {
    if swaps != [] {
      var n := |swaps| - 1;
      CountsAre(labels, swaps[..n], ty);
      assert Places(labels, swaps, ty)
          == Places(labels, swaps[..n], ty) + if TypeOf(labels, swaps[n].1) == ty then {n} else {};
    }
  }

  /** The last replacement by a token decides what it is known for. */
  lemma {:induction false} KnownLast(swaps: Swaps, k: nat)
    requires k < |swaps| && forall j :: k < j < |swaps| ==> swaps[j].0 != swaps[k].0
    ensures KnownOf(swaps)[swaps[k].0] == swaps[k].1
    decreases |swaps|
  {
    if k < |swaps| - 1 { KnownLast(swaps[..|swaps| - 1], k); }
  }

  function Merged(a: map<string, nat>, b: map<string, nat>): map<string, nat> {
    map ty | ty in a.Keys + b.Keys :: At(a, ty) + At(b, ty)
  }

  predicate Survives(e: Env, labels: map<string, string>, stripped: string) {
    exists v, j: nat :: v in labels && j <= |stripped| && Whole(e, stripped, v, j)
  }

  datatype Outcome =
    | Done(text: string, counts: map<string, nat>)
    | EngineFailed      // AnonymizationEngineError
    | ValueSurvived     // AnonymizationInvariantError
    | ForeignMark       // IndexError on a mark that was never placed

  // ----- what the passes answer -----

  /** The entity pass on the text `s` with the hosts in `spans` taken out: the text it
      leaves, and the replacements it makes. */
  function Out(e: Env, labels: map<string, string>, s: string, spans: seq<Span>): string
    requires Within(s, spans)
  {
    PassText(NamesRule(e, labels), Without(s, spans, 0, 0))
  }

  function Swapped(e: Env, labels: map<string, string>, s: string, spans: seq<Span>): Swaps
    requires Within(s, spans)
  {
    if labels == map[] then [] else PassSwaps(NamesRule(e, labels), Without(s, spans, 0, 0))
  }

  function EntityPass(e: Env, labels: map<string, string>, s: string, spans: seq<Span>): Outcome
    requires Within(s, spans)
  {
    if labels == map[] then Done(s, map[])
    else
      var out, swaps := Out(e, labels, s, spans), Swapped(e, labels, s, spans);
      if Survives(e, labels, Stripped(e, KnownOf(swaps), out)) then ValueSurvived
      else if !MarksPlaced(Taken(s, spans, 0, 0), out) then ForeignMark
      else Done(Back(Taken(s, spans, 0, 0), out), CountsOf(labels, swaps))
  }

  /** The store after the deterministic layer. */
  function LayerStore(e: Env, ds: seq<Detector>, s: string, d: Store): Store {
    if ds == [] then d
    else LayerStore(e, ds[1..], PassText(DetRule(e, ds[0]), s),
                    PutAll(e, DetRule(e, ds[0]), d, PassSwaps(DetRule(e, ds[0]), s)))
  }

  function LayerCounts(e: Env, ds: seq<Detector>, s: string, counts: map<string, nat>): map<string, nat> {
    if ds == [] then counts
    else LayerCounts(e, ds[1..], PassText(DetRule(e, ds[0]), s),
                     counts[DetLabel(ds[0]) := |PassSwaps(DetRule(e, ds[0]), s)|])
  }

  /** Each detector is counted under its own label, with what it replaced in the text the
      ones before it left. */
  lemma {:induction false} LayerCounted(e: Env, ds: seq<Detector>, s: string, counts: map<string, nat>, k: nat)
    requires k < |ds| && forall i, j :: 0 <= i < j < |ds| ==> DetLabel(ds[i]) != DetLabel(ds[j])
    ensures At(LayerCounts(e, ds, s, counts), DetLabel(ds[k]))
         == |PassSwaps(DetRule(e, ds[k]), Layer(e, ds[..k], s))|
  {
    var next := counts[DetLabel(ds[0]) := |PassSwaps(DetRule(e, ds[0]), s)|];
    if k == 0 {
      LayerElse(e, ds[1..], PassText(DetRule(e, ds[0]), s), next, DetLabel(ds[0]));
    } else {
      LayerCounted(e, ds[1..], PassText(DetRule(e, ds[0]), s), next, k - 1);
      assert ds[..k][1..] == ds[1..][..k - 1] && ds[..k][0] == ds[0];
    }
  }

  /** And nothing else is. */
  lemma {:induction false} LayerElse(e: Env, ds: seq<Detector>, s: string, counts: map<string, nat>, l: string)
    requires forall j :: 0 <= j < |ds| ==> DetLabel(ds[j]) != l
    ensures l in LayerCounts(e, ds, s, counts) <==> l in counts
    ensures l in counts ==> LayerCounts(e, ds, s, counts)[l] == counts[l]
  {
    if ds != [] {
      LayerElse(e, ds[1..], PassText(DetRule(e, ds[0]), s),
                counts[DetLabel(ds[0]) := |PassSwaps(DetRule(e, ds[0]), s)|], l);
    }
  }

  const FOREIGN: string := "FOREIGN_TOKEN_NEUTRALISED"

  function DetCounts(e: Env, text: string): map<string, nat> {
    var counts := LayerCounts(e, DETECTORS, Neutral(text), map[]);
    if TokenCount(text) > 0 then counts[FOREIGN := TokenCount(text)] else counts
  }

  /** The text behind the deterministic layer. */
  function Body(e: Env, text: string): string { Layer(e, DETECTORS, Neutral(text)) }

  predicate Blank(e: Env, s: string) { forall k :: 0 <= k < |s| ==> e.space(s[k]) }

  /** What is found in a text: the reported values (or a failure), and the spans of
      allowed addresses. */
  datatype Finder = Finder(entities: string -> Option<seq<Entity>>, addresses: string -> seq<Span>)

  predicate InText(f: Finder, s: string) { Within(s, f.addresses(s)) }

  /** Of the address at `a`, `h` is what stands in front of the first separator behind the
      scheme. */
  ghost predicate IsHost(s: string, a: Span, h: Span)
    requires a.0 <= a.1 <= |s|
  {
    && h.0 == a.0 <= h.1 <= a.1 && (h.1 < a.1 ==> s[h.1] in "/?#")
    && forall j :: AfterScheme(s[a.0..a.1], 0) <= j < h.1 - a.0 ==> s[a.0..a.1][j] !in "/?#"
  }

  predicate SchemeMark(s: string, j: int) { 0 <= j <= |s| - 3 && s[j..j + 3] == "://" }

  /** Where the scheme ends: behind the first `://`, or at the start when there is none. */
  lemma {:induction false} SchemeEnds(s: string, i: nat)
    requires i <= |s|
    ensures var k := AfterScheme(s, i);
            || (k == 0 && forall j :: i <= j ==> !SchemeMark(s, j))
            || (i + 3 <= k && SchemeMark(s, k - 3) && forall j :: i <= j < k - 3 ==> !SchemeMark(s, j))
    decreases |s| - i
  {
    if i + 3 <= |s| && s[i..i + 3] != "://" { SchemeEnds(s, i + 1); }
  }

  function HostsOf(s: string, addresses: seq<Span>): (spans: seq<Span>)
    requires Within(s, addresses)
    ensures Within(s, spans)
    ensures |spans| == |addresses| && forall k :: 0 <= k < |spans| ==> IsHost(s, addresses[k], spans[k])
  {
    seq(|addresses|, k requires 0 <= k < |addresses| => HostSpan(s, addresses[k].0, addresses[k].1))
  }

  lemma SortedWithin(s: string, spans: seq<Span>)
    requires Within(s, spans)
    ensures Within(s, Sorted(spans))
  {
    assert forall k :: 0 <= k < |Sorted(spans)| ==> Sorted(spans)[k] in multiset(spans);
  }

  /** None starts in front of one before it. */
  ghost predicate InOrder(spans: seq<Span>) { forall i, j :: 0 <= i < j < |spans| ==> spans[i].0 <= spans[j].0 }

  lemma {:induction false} InsertInOrder(a: Span, spans: seq<Span>)
    requires InOrder(spans)
    ensures InOrder(Insert(a, spans))
  {
    if spans != [] && !Hosts.Before(a, spans[0]) {
      InsertInOrder(a, spans[1..]);
      var r := Insert(a, spans[1..]);
      forall j | 0 <= j < |r| ensures spans[0].0 <= r[j].0 {
        assert r[j] in multiset(r);
        assert r[j] == a || r[j] in multiset(spans[1..]);
      }
    }
  }

  lemma {:induction false} SortedInOrder(spans: seq<Span>)
    ensures InOrder(Sorted(spans))
  {
    if spans != [] {
      SortedInOrder(spans[1..]);
      InsertInOrder(spans[0], Sorted(spans[1..]));
    }
  }

  /** The spans the entity pass leaves alone, in order. */
  function Protected(f: Finder, s: string): (spans: seq<Span>)
    requires InText(f, s)
    ensures Within(s, spans) && InOrder(spans)
    ensures multiset(spans) == multiset(HostsOf(s, f.addresses(s)))
  {
    SortedWithin(s, HostsOf(s, f.addresses(s)));
    SortedInOrder(HostsOf(s, f.addresses(s)));
    Sorted(HostsOf(s, f.addresses(s)))
  }

  function Labels(e: Env, f: Finder, s: string): map<string, string> {
    if f.entities(s).Some? then LabelsFrom(e, f.entities(s).value, map[]) else map[]
  }

  /** With the counts of the layers together. */
  function WithCounts(counts: map<string, nat>, r: Outcome): Outcome {
    match r case Done(out, more) => Done(out, Merged(counts, more)) case failed => failed
  }

  /** A whole run on `text`. */
  function Run(e: Env, f: Finder, text: string): Outcome
    requires InText(f, Body(e, text))
  {
    var s, counts := Body(e, text), DetCounts(e, text);
    if Blank(e, s) then Done(s, counts)
    else if f.entities(s).None? then EngineFailed
    else WithCounts(counts, EntityPass(e, Labels(e, f, s), s, Protected(f, s)))
  }

  /** The store after it: also a failed run has put the rows of its tokens. */
  function RunStore(e: Env, f: Finder, text: string, d: Store): Store
    requires InText(f, Body(e, text))
  {
    var s, d1 := Body(e, text), LayerStore(e, DETECTORS, Neutral(text), d);
    if Blank(e, s) then d1
    else PutAll(e, NamesRule(e, Labels(e, f, s)), d1, Swapped(e, Labels(e, f, s), s, Protected(f, s)))
  }

  lemma NamedPass(e: Env, f: Finder, text: string, d: Store, s: string, labels: map<string, string>, spans: seq<Span>)
    requires s == Body(e, text) && InText(f, s) && !Blank(e, s) && f.entities(s).Some?
    requires labels == LabelsFrom(e, f.entities(s).value, map[]) && spans == Sorted(HostsOf(s, f.addresses(s)))
    ensures Within(s, spans) && Run(e, f, text) == WithCounts(DetCounts(e, text), EntityPass(e, labels, s, spans))
    ensures RunStore(e, f, text, d)
         == PutAll(e, NamesRule(e, labels), LayerStore(e, DETECTORS, Neutral(text), d), Swapped(e, labels, s, spans))
  {
    SortedWithin(s, HostsOf(s, f.addresses(s)));
  }

  // ----- the driver -----

  /** A pass in progress: the text written, the replacements made, the store. */
  datatype Progress = Progress(out: string, swaps: Swaps, d: Store)

  function Advance(e: Env, r: Rule, s: string, i: nat, c: Cut, g: Progress): Progress
    requires i + c.n <= |s|
  {
    match c
    case Keep(n) => g.(out := g.out + s[i..i + n])
    case Swap(n, p) =>
      var v := s[i..i + n];
      Progress(g.out + p, g.swaps + [(p, v)], PutFirst(g.d, p, Row(e, r.ty(v), p, v)))
  }

  lemma TextCut(e: Env, r: Rule, s: string, i: nat, cuts: seq<Cut>, g: Progress)
    requires Covers(s, i, cuts) && cuts != []
    ensures g.out + Emit(s, i, cuts) == Advance(e, r, s, i, cuts[0], g).out + Emit(s, i + cuts[0].n, cuts[1..])
  {
    Assoc(g.out, Piece0(s, i, cuts[0]), Emit(s, i + cuts[0].n, cuts[1..]));
  }

  lemma SwapsCut(e: Env, r: Rule, s: string, i: nat, cuts: seq<Cut>, g: Progress)
    requires Covers(s, i, cuts) && cuts != []
    ensures g.swaps + SwapsOf(s, i, cuts)
         == Advance(e, r, s, i, cuts[0], g).swaps + SwapsOf(s, i + cuts[0].n, cuts[1..])
  {
    Assoc(g.swaps, SwapIn(s, i, cuts[0]), SwapsOf(s, i + cuts[0].n, cuts[1..]));
    assert g.swaps + [] == g.swaps;
  }

  lemma StoreCut(e: Env, r: Rule, s: string, i: nat, cuts: seq<Cut>, g: Progress)
    requires Covers(s, i, cuts) && cuts != []
    ensures PutAll(e, r, g.d, SwapsOf(s, i, cuts))
         == PutAll(e, r, Advance(e, r, s, i, cuts[0], g).d, SwapsOf(s, i + cuts[0].n, cuts[1..]))
  {
    var c, more := cuts[0], SwapsOf(s, i + cuts[0].n, cuts[1..]);
    if c.Swap? { PutOne(e, r, g.d, (c.p, s[i..i + c.n]), more); } else { assert SwapIn(s, i, c) + more == more; }
  }

  lemma PutOne(e: Env, r: Rule, d: Store, x: (string, string), swaps: Swaps)
    ensures PutAll(e, r, d, [x] + swaps) == PutAll(e, r, PutFirst(d, x.0, Row(e, r.ty(x.1), x.0, x.1)), swaps)
  {
    assert ([x] + swaps)[1..] == swaps;
  }

  /** A pass from position `i` to the end. */
  ghost function Onward(e: Env, r: Rule, s: string, i: nat, g: Progress): Progress
    requires i <= |s|
    decreases |s| - i
  {
    if i == |s| then g else Onward(e, r, s, i + CutAt(r, s, i).n, Advance(e, r, s, i, CutAt(r, s, i), g))
  }

  lemma OnwardStep(e: Env, r: Rule, s: string, i: nat, c: Cut, j: nat, g: Progress, g': Progress)
    requires i < |s| && c == CutAt(r, s, i) && j == i + c.n && g' == Advance(e, r, s, i, c, g)
    ensures j <= |s| && Onward(e, r, s, i, g) == Onward(e, r, s, j, g')
  {}

  /** The cuts, carried out one by one. */
  ghost function Carried(e: Env, r: Rule, s: string, i: nat, cuts: seq<Cut>, g: Progress): Progress
    requires Covers(s, i, cuts)
    decreases |cuts|
  {
    if cuts == [] then g else Carried(e, r, s, i + cuts[0].n, cuts[1..], Advance(e, r, s, i, cuts[0], g))
  }

  lemma {:induction false} CarriedText(e: Env, r: Rule, s: string, i: nat, cuts: seq<Cut>, g: Progress)
    requires Covers(s, i, cuts)
    ensures Carried(e, r, s, i, cuts, g).out == g.out + Emit(s, i, cuts)
    decreases |cuts|
  {
    if cuts == [] {
      assert g.out + "" == g.out;
    } else {
      TextCut(e, r, s, i, cuts, g);
      CarriedText(e, r, s, i + cuts[0].n, cuts[1..], Advance(e, r, s, i, cuts[0], g));
    }
  }

  lemma {:induction false} CarriedSwaps(e: Env, r: Rule, s: string, i: nat, cuts: seq<Cut>, g: Progress)
    requires Covers(s, i, cuts)
    ensures Carried(e, r, s, i, cuts, g).swaps == g.swaps + SwapsOf(s, i, cuts)
    decreases |cuts|
  {
    if cuts == [] {
      assert g.swaps + [] == g.swaps;
    } else {
      SwapsCut(e, r, s, i, cuts, g);
      CarriedSwaps(e, r, s, i + cuts[0].n, cuts[1..], Advance(e, r, s, i, cuts[0], g));
    }
  }

  lemma {:induction false} CarriedStore(e: Env, r: Rule, s: string, i: nat, cuts: seq<Cut>, g: Progress)
    requires Covers(s, i, cuts)
    ensures Carried(e, r, s, i, cuts, g).d == PutAll(e, r, g.d, SwapsOf(s, i, cuts))
    decreases |cuts|
  {
    if cuts != [] {
      StoreCut(e, r, s, i, cuts, g);
      CarriedStore(e, r, s, i + cuts[0].n, cuts[1..], Advance(e, r, s, i, cuts[0], g));
    }
  }

  lemma CarriedStep(e: Env, r: Rule, s: string, i: nat, c: Cut, cuts: seq<Cut>, j: nat, after: seq<Cut>, g: Progress,
                    g': Progress)
    requires Covers(s, i, cuts) && cuts == [c] + after && j == i + c.n && g' == Advance(e, r, s, i, c, g)
    ensures Covers(s, j, after) && Carried(e, r, s, i, cuts, g) == Carried(e, r, s, j, after, g')
  {
    assert cuts[1..] == after;
  }

  lemma {:induction false} OnwardIs(e: Env, r: Rule, s: string, i: nat, g: Progress)
    requires i <= |s|
    ensures Onward(e, r, s, i, g) == Carried(e, r, s, i, Pass(r, s, i), g)
    decreases |s| - i
  {
    if i < |s| {
      var c := CutAt(r, s, i);
      var j, g' := i + c.n, Advance(e, r, s, i, c, g);
      PassStep(r, s, i);
      CarriedStep(e, r, s, i, c, Pass(r, s, i), j, Pass(r, s, j), g, g');
      OnwardStep(e, r, s, i, c, j, g, g');
      OnwardIs(e, r, s, j, g');
    }
  }

  lemma WholePass(e: Env, r: Rule, s: string, d: Store)
    ensures Onward(e, r, s, 0, Progress("", [], d))
         == Progress(PassText(r, s), PassSwaps(r, s), PutAll(e, r, d, PassSwaps(r, s)))
  {
    OnwardIs(e, r, s, 0, Progress("", [], d));
    CarriedText(e, r, s, 0, Pass(r, s, 0), Progress("", [], d));
    CarriedSwaps(e, r, s, 0, Pass(r, s, 0), Progress("", [], d));
    CarriedStore(e, r, s, 0, Pass(r, s, 0), Progress("", [], d));
  }

  ghost predicate Mints(e: Env, r: Rule) { forall v :: r.name(v) == Pseudonym(e, r.ty(v), v) }

  ghost predicate Spanned(r: Rule, s: string, spans: Option<seq<(nat, nat)>>) {
    spans.Some? ==> forall i: nat, n: nat :: i < |s| ==> (r.takes(s, i, n) <==> !InSpans(spans.value, i))
  }

  class ReversibleAnonymizer {
    const e: Env
    const store: InMemoryMappingStore

    constructor (e: Env, store: InMemoryMappingStore)
      ensures this.e == e && this.store == store
    {
      this.e, this.store := e, store;
    }

    /** The token for one value of one type, with its original stored. */
    method MakePseudonym(ty: string, v: string) returns (p: string)
      modifies store
      ensures p == Pseudonym(e, ty, v) && store.d == PutFirst(old(store.d), p, Row(e, ty, p, v))
    {
      var key := e.key(UpperCase(ty));
      p := "[" + UpperCase(ty) + ":" + e.mac(key.material, ty + ":" + e.norm(ty, v)) + "]";
      store.Put(p, Mapping(Encrypt(key.material, e.nonce(p), v), key.id));
    }

    /** What becomes of position `i`. */
    method NextCut(r: Rule, s: string, i: nat, spans: Option<seq<(nat, nat)>>) returns (c: Cut)
      requires i < |s| && Spanned(r, s, spans)
      ensures c == CutAt(r, s, i) && 0 < c.n && (c.Swap? ==> c.p == r.name(s[i..i + c.n]))
    {
      var n := MatchLen(r, s, i);
      if n == 0 { return Keep(1); }
      var taken := if spans.Some? then !InSpans(spans.value, i) else r.takes(s, i, n);
      c := if taken then Swap(n, r.name(s[i..i + n])) else Keep(n);
    }

    method Apply(r: Rule, s: string, i: nat, c: Cut, out: string, swaps: Swaps) returns (out': string, swaps': Swaps)
      requires i + c.n <= |s| && Mints(e, r) && (c.Swap? ==> c.p == r.name(s[i..i + c.n]))
      modifies store
      ensures Progress(out', swaps', store.d) == Advance(e, r, s, i, c, Progress(out, swaps, old(store.d)))
    {
      match c
      case Keep(n) =>
        out', swaps' := out + s[i..i + n], swaps;
      case Swap(n, _) =>
        var v := s[i..i + n];
        var p := MakePseudonym(r.ty(v), v);
        out', swaps' := out + p, swaps + [(p, v)];
    }

    /** One round of the loop. */
    method Round(r: Rule, s: string, i: nat, spans: Option<seq<(nat, nat)>>, out: string, swaps: Swaps)
      returns (i': nat, out': string, swaps': Swaps)
      requires i < |s| && Spanned(r, s, spans) && Mints(e, r)
      modifies store
      ensures i < i' <= |s|
      ensures Onward(e, r, s, i', Progress(out', swaps', store.d))
           == Onward(e, r, s, i, Progress(out, swaps, old(store.d)))
    {
      var c := NextCut(r, s, i, spans);
      out', swaps' := Apply(r, s, i, c, out, swaps);
      i' := i + c.n;
      OnwardStep(e, r, s, i, c, i', Progress(out, swaps, old(store.d)), Progress(out', swaps', store.d));
    }

    /** `re.sub` with a replacement that stores what it replaces. Given the spans of
        the tokens, a match that starts in one stays. */
    method Substitute(r: Rule, s: string, spans: Option<seq<(nat, nat)>>) returns (out: string, swaps: Swaps)
      requires Spanned(r, s, spans) && Mints(e, r)
      modifies store
      ensures out == PassText(r, s) && swaps == PassSwaps(r, s)
      ensures store.d == PutAll(e, r, old(store.d), swaps)
    {
      out, swaps := "", [];
      var i := 0;
      WholePass(e, r, s, store.d);
      while i < |s|
        invariant 0 <= i <= |s|
        invariant Onward(e, r, s, i, Progress(out, swaps, store.d))
               == Onward(e, r, s, 0, Progress("", [], old(store.d)))
      {
        i, out, swaps := Round(r, s, i, spans, out, swaps);
      }
    }

    /** `Pseudonymizer.anonymize`: tokens in the input are taken apart, then each
        detector runs over what the one before it left. */
    method AnonymizeDeterministic(text: string) returns (out: string, counts: map<string, nat>)
      modifies store
      ensures out == Body(e, text) && counts == DetCounts(e, text)
      ensures store.d == LayerStore(e, DETECTORS, Neutral(text), old(store.d))
    {
      var foreign;
      out, foreign := NeutraliseForeignTokens(text);
      counts := map[];
      var todo := DETECTORS;
      while todo != []
        invariant Layer(e, todo, out) == Body(e, text)
        invariant LayerCounts(e, todo, out, counts) == LayerCounts(e, DETECTORS, Neutral(text), map[])
        invariant LayerStore(e, todo, out, store.d) == LayerStore(e, DETECTORS, Neutral(text), old(store.d))
      {
        var swaps;
        out, swaps := Substitute(DetRule(e, todo[0]), out, None);
        counts := counts[DetLabel(todo[0]) := |swaps|];
        todo := todo[1..];
      }
      if foreign > 0 { counts := counts[FOREIGN := foreign]; }
    }

    /** Replaces every reported value, checks that none survived, and puts the
        protected hosts back. */
    method PseudonymizeEntities(s: string, entities: seq<Entity>, protected: seq<Span>) returns (r: Outcome)
      requires Within(s, protected)
      modifies store
      ensures Within(s, Sorted(protected))
      ensures var labels := LabelsFrom(e, entities, map[]);
              && Reports(e, entities, labels)
              && r == EntityPass(e, labels, s, Sorted(protected))
              && store.d == PutAll(e, NamesRule(e, labels), old(store.d), Swapped(e, labels, s, Sorted(protected)))
    {
      SortedWithin(s, protected);
      var labels := LabelsFrom(e, entities, map[]);
      LabelsAre(e, entities);
      if labels == map[] { return Done(s, map[]); }
      var t, taken := HostsOut(s, protected);
      var spans := TokenSpans(t);
      var out, swaps := Substitute(NamesRule(e, labels), t, Some(spans));
      if Survives(e, labels, Stripped(e, KnownOf(swaps), out)) { return ValueSurvived; }
      if !MarksPlaced(taken, out) { return ForeignMark; }
      r := Done(Back(taken, out), CountsOf(labels, swaps));
    }

    /** `ReversibleAnonymizer.anonymize`. */
    method Anonymize(f: Finder, text: string) returns (r: Outcome)
      requires InText(f, Body(e, text))
      modifies store
      ensures r == Run(e, f, text) && store.d == RunStore(e, f, text, old(store.d))
    {
      var body, counts := AnonymizeDeterministic(text);
      if Blank(e, body) { return Done(body, counts); }
      var entities := f.entities(body);
      if entities.None? { return EngineFailed; }
      ghost var labels, spans := LabelsFrom(e, entities.value, map[]), Sorted(HostsOf(body, f.addresses(body)));
      NamedPass(e, f, text, old(store.d), body, labels, spans);
      r := PseudonymizeEntities(body, entities.value, HostsOf(body, f.addresses(body)));
      if r.Done? { r := Done(r.text, Merged(counts, r.counts)); }
    }
  }
}
