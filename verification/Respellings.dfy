/** Two runs with two spellings of one token: the second text comes back with the spelling
    of the first, and what it is put into becomes a token that was in neither text. */
module Respellings {
  import opened Lexer
  import opened Pieces
  import opened Cuts
  import opened Mappings
  import opened Matching
  import opened Rules
  import opened Detection
  import opened Survivors
  import opened Hosts
  import opened Reveal
  import opened Anonymizer
  import opened Barriers
  import opened RoundTrip
  import opened Limits
  import Lookalikes

  const FIRST: string := "PERSON"
  const SECOND: string := "person"
  const BEHIND: string := ":12345678]"

  // ----- texts the detectors leave alone -----

  /** Without an at-sign, and without digits or without capitals and long numbers. */
  ghost predicate Undetected(e: Env, s: string) {
    '@' !in s && ((forall c :: c in s ==> !e.digit(c)) || ((forall c :: c in s ==> !Upper(c)) && NoNumber(e, s)))
  }

  ghost predicate Gap(e: Env, s: string, i: nat) { exists k :: i <= k < i + 9 && k < |s| && !e.digit(s[k]) }

  ghost predicate NoNumber(e: Env, s: string) { forall i: nat :: i + 9 <= |s| ==> Gap(e, s, i) }

  lemma FitsNeeds(e: Env, d: Detector, v: string)
    requires Sane(e) && DetFits(e, d, v)
    ensures '@' in v || exists c :: c in v && e.digit(c)
    ensures '@' in v || (exists c :: c in v && Upper(c)) || (|v| == 9 && forall k :: 0 <= k < 9 ==> e.digit(v[k]))
  {
    match d
    case Bsn => assert e.digit(v[0]) && v[0] in v;
    case Iban => assert e.digit(v[2]) && v[2] in v && Upper(v[0]) && v[0] in v;
    case Email =>
    case Postcode => assert e.digit(v[1]) && v[1] in v && Upper(v[|v| - 1]) && v[|v| - 1] in v;
  }

  lemma NothingFits(e: Env, d: Detector, s: string, i: nat, n: nat)
    requires Sane(e) && Undetected(e, s) && i + n <= |s|
    ensures !DetFits(e, d, s[i..i + n])
  {
    var v := s[i..i + n];
    forall c | c in v ensures c in s {}
    if |v| == 9 && NoNumber(e, s) {
      assert Gap(e, s, i);
      var k :| i <= k < i + 9 && k < |s| && !e.digit(s[k]);
      assert v[k - i] == s[k];
    }
    if DetFits(e, d, v) { FitsNeeds(e, d, v); }
  }

  lemma NothingHit(e: Env, d: Detector, s: string)
    requires Sane(e) && Undetected(e, s)
    ensures NoneTaken(DetRule(e, d), s, 0)
  {
    forall j: nat, n: nat ensures !Hit(DetRule(e, d), s, j, n) {
      if j + n <= |s| { NothingFits(e, d, s, j, n); }
    }
  }

  lemma PassLeaves(e: Env, d: Detector, s: string)
    requires Sane(e) && Undetected(e, s)
    ensures PassText(DetRule(e, d), s) == s && PassSwaps(DetRule(e, d), s) == []
  {
    NothingHit(e, d, s);
    Untouched(DetRule(e, d), s, 0, 0);
    assert s[0..] == s;
  }

  lemma {:induction false} LayerLeaves(e: Env, ds: seq<Detector>, s: string, d: Store)
    requires Sane(e) && Undetected(e, s)
    ensures Layer(e, ds, s) == s && LayerStore(e, ds, s, d) == d
  {
    if ds != [] {
      PassLeaves(e, ds[0], s);
      LayerLeaves(e, ds[1..], s, d);
    }
  }

  lemma BodyIs(e: Env, s: string, d: Store)
    requires Sane(e) && Undetected(e, s) && AtomFree(TokenShape, s)
    ensures Neutral(s) == s && Body(e, s) == s && LayerStore(e, DETECTORS, Neutral(s), d) == d
  {
    NeutralKeepsFree(s);
    LayerLeaves(e, DETECTORS, s, d);
  }

  // ----- a run over one value that stands there once -----

  lemma {:induction false} KeptUpTo(r: Rule, s: string, i: nat, m: nat)
    requires i <= m <= |s| && forall k: nat :: i <= k < m ==> CutAt(r, s, k) == Keep(1)
    ensures Onwards(r, s, i) == Ahead(s[i..m], [], Onwards(r, s, m))
    decreases m - i
  {
    if i == m {
      ThenNothing(("", []), Onwards(r, s, m));
      assert s[i..m] == "";
    } else {
      OnwardsStep(r, s, i, Keep(1));
      KeptUpTo(r, s, i + 1, m);
      KeptOne(s, i, m, Onwards(r, s, m));
    }
  }

  lemma KeptOne(s: string, i: nat, m: nat, rest: (string, seq<(string, string)>))
    requires i < m <= |s|
    ensures Ahead(s[i..i + 1], [], Ahead(s[i + 1..m], [], rest)) == Ahead(s[i..m], [], rest)
  {
    SplitSlice(s, i, i + 1, m, rest.0);
    assert [] + ([] + rest.1) == [] + rest.1;
  }

  lemma NotThere(e: Env, v: string, ty: string, s: string, k: nat)
    requires k < |s| && v != "" && s[k] != v[0]
    ensures forall n: nat :: !Hit(NamesRule(e, map[v := ty]), s, k, n)
    ensures CutAt(NamesRule(e, map[v := ty]), s, k) == Keep(1)
  {
    var r := NamesRule(e, map[v := ty]);
    forall n: nat ensures !Hit(r, s, k, n) {
      Lookalikes.OnlyValue(e, v, ty, s, k, n);
      if k + |v| <= |s| { assert s[k..k + |v|][0] == s[k]; }
    }
    Matched(r, s, k);
  }

  /** The value stands in `s` behind `a`, as a word, and nowhere else. */
  ghost predicate Once(e: Env, v: string, a: string, b: string) {
    && v != "" && v[0] !in a && v[0] !in b && AtomFree(TokenShape, a + (v + b))
    && (a == "" || !e.word(a[|a| - 1])) && (b == "" || !e.word(b[0]))
  }

  lemma StandsThere(e: Env, v: string, a: string, b: string, s: string)
    requires Once(e, v, a, b) && s == a + (v + b)
    ensures Whole(e, s, v, |a|) && !InToken(s, |a|)
  {
    assert s[|a|..|a| + |v|] == v;
    assert a != "" ==> s[|a| - 1] == a[|a| - 1];
    assert b != "" ==> s[|a| + |v|] == b[0];
  }

  /** The only match of a rule that takes it. */
  lemma OnlyCut(r: Rule, s: string, i: nat, n: nat, v: string)
    requires i < |s| && Hit(r, s, i, n) && (forall k: nat :: Hit(r, s, i, k) ==> k == n) && r.takes(s, i, n)
    requires i + n <= |s| && s[i..i + n] == v
    ensures CutAt(r, s, i) == Swap(n, r.name(v))
  {
    Matched(r, s, i);
  }

  lemma ValueHit(e: Env, v: string, ty: string, s: string, i: nat)
    requires v != "" && Whole(e, s, v, i) && !InToken(s, i)
    ensures var r := NamesRule(e, map[v := ty]);
            Hit(r, s, i, |v|) && r.takes(s, i, |v|) && r.name(v) == Pseudonym(e, ty, v)
  {}

  lemma CutThere(e: Env, v: string, ty: string, s: string, i: nat)
    requires v != "" && Whole(e, s, v, i) && !InToken(s, i)
    ensures i < |s| && CutAt(NamesRule(e, map[v := ty]), s, i) == Swap(|v|, Pseudonym(e, ty, v))
  {
    var r := NamesRule(e, map[v := ty]);
    ValueHit(e, v, ty, s, i);
    forall k: nat | Hit(r, s, i, k) ensures k == |v| { Lookalikes.OnlyValue(e, v, ty, s, i, k); }
    OnlyCut(r, s, i, |v|, v);
  }

  lemma FrontKept(e: Env, v: string, ty: string, a: string, b: string, s: string)
    requires Once(e, v, a, b) && s == a + (v + b)
    ensures Onwards(NamesRule(e, map[v := ty]), s, 0) == Ahead(a, [], Onwards(NamesRule(e, map[v := ty]), s, |a|))
  {
    var r := NamesRule(e, map[v := ty]);
    forall k: nat | k < |a| ensures CutAt(r, s, k) == Keep(1) {
      assert s[k] == a[k] && a[k] in a;
      NotThere(e, v, ty, s, k);
    }
    KeptUpTo(r, s, 0, |a|);
    assert s[0..|a|] == a;
  }

  lemma NothingBehind(e: Env, v: string, ty: string, a: string, b: string, s: string, m: nat)
    requires Once(e, v, a, b) && s == a + (v + b) && m == |a| + |v|
    ensures NoneTaken(NamesRule(e, map[v := ty]), s, m)
  {
    forall k: nat, n: nat | m <= k ensures !Hit(NamesRule(e, map[v := ty]), s, k, n) {
      if k < |s| {
        assert s[k] == b[k - m] && b[k - m] in b;
        NotThere(e, v, ty, s, k);
      }
    }
  }

  lemma RestKept(e: Env, v: string, ty: string, a: string, b: string, s: string, m: nat)
    requires Once(e, v, a, b) && s == a + (v + b) && m == |a| + |v|
    ensures Onwards(NamesRule(e, map[v := ty]), s, m) == (b, [])
  {
    NothingBehind(e, v, ty, a, b, s, m);
    Untouched(NamesRule(e, map[v := ty]), s, m, m);
    OnwardsIs(NamesRule(e, map[v := ty]), s, m);
    assert s[m..] == b;
  }

  lemma SwapOnwards(r: Rule, s: string, i: nat, v: string, p: string, m: nat)
    requires i < |s| && v != "" && m == i + |v| <= |s| && s[i..m] == v && CutAt(r, s, i) == Swap(|v|, p)
    ensures Onwards(r, s, i) == Ahead(p, [(p, v)], Onwards(r, s, m))
  {
    OnwardsStep(r, s, i, Swap(|v|, p));
  }

  lemma SwapWhole(e: Env, v: string, ty: string, s: string, i: nat, m: nat)
    requires v != "" && Whole(e, s, v, i) && !InToken(s, i) && m == i + |v|
    ensures var r, p := NamesRule(e, map[v := ty]), Pseudonym(e, ty, v);
            i < m <= |s| && Onwards(r, s, i) == Ahead(p, [(p, v)], Onwards(r, s, m))
  {
    CutThere(e, v, ty, s, i);
    SwapOnwards(NamesRule(e, map[v := ty]), s, i, v, Pseudonym(e, ty, v), m);
  }

  lemma SwapThere(e: Env, v: string, ty: string, a: string, b: string, s: string, m: nat)
    requires Once(e, v, a, b) && s == a + (v + b) && m == |a| + |v|
    ensures var r, p := NamesRule(e, map[v := ty]), Pseudonym(e, ty, v);
            m <= |s| && Onwards(r, s, |a|) == Ahead(p, [(p, v)], Onwards(r, s, m))
  {
    StandsThere(e, v, a, b, s);
    SwapWhole(e, v, ty, s, |a|, m);
  }

  lemma OnePass(e: Env, v: string, ty: string, a: string, b: string, s: string)
    requires Once(e, v, a, b) && s == a + (v + b)
    ensures var r, p := NamesRule(e, map[v := ty]), Pseudonym(e, ty, v);
            PassText(r, s) == a + (p + b) && PassSwaps(r, s) == [(p, v)]
  {
    var r, p, m := NamesRule(e, map[v := ty]), Pseudonym(e, ty, v), |a| + |v|;
    FrontKept(e, v, ty, a, b, s);
    SwapThere(e, v, ty, a, b, s, m);
    RestKept(e, v, ty, a, b, s, m);
    OnwardsIs(r, s, 0);
    assert [] + ([(p, v)] + []) == [(p, v)];
  }

  /** What a finder reports for the text: one value of letters, and no allowed address. */
  ghost predicate Reports(e: Env, f: Finder, s: string, v: string, ty: string) {
    && InText(f, s) && f.addresses(s) == [] && f.entities(s).Some? && Labels(e, f, s) == map[v := ty]
    && |v| >= MIN_ENTITY_LEN && Letters(v) && LabelOk(ty)
  }

  lemma NotBlank(e: Env, v: string, a: string, b: string)
    requires Sane(e) && v != "" && Letters(v)
    ensures !Blank(e, a + (v + b))
  {
    assert (a + (v + b))[|a|] == v[0] && AsciiLetter(v[0]);
  }

  /** The run over `s` replaces the value and nothing else. */
  ghost predicate OnlyOne(e: Env, f: Finder, s: string, v: string, ty: string, out: string, d: Store) {
    && InText(f, Body(e, s)) && Body(e, s) == s && RunIs(e, f, s, out)
    && RunStore(e, f, s, d) == PutFirst(d, Pseudonym(e, ty, v), Row(e, ty, Pseudonym(e, ty, v), v))
  }

  lemma RunSucceeds(e: Env, f: Finder, v: string, ty: string, s: string, d: Store)
    requires Sane(e) && InText(f, Body(e, s)) && Body(e, s) == s && Reports(e, f, s, v, ty)
    ensures Run(e, f, s).Done?
  {
    LettersAreGood(e, f, s);
    var fs := RunKeeps(e, f, s, d);
  }

  lemma NothingProtected(f: Finder, s: string)
    requires InText(f, s) && f.addresses(s) == []
    ensures Protected(f, s) == []
  {
    assert HostsOf(s, []) == [];
  }

  lemma EntityDone(e: Env, f: Finder, v: string, ty: string, s: string)
    requires InText(f, Body(e, s)) && Body(e, s) == s && Reports(e, f, s, v, ty) && !Blank(e, s)
    requires Run(e, f, s).Done? && Protected(f, s) == []
    ensures EntityPass(e, map[v := ty], s, []).Done?
  {}

  lemma OneRun(e: Env, f: Finder, v: string, ty: string, a: string, b: string, s: string, d: Store)
    requires s == a + (v + b) && Sane(e) && Once(e, v, a, b) && Undetected(e, s) && Reports(e, f, s, v, ty)
    ensures OnlyOne(e, f, s, v, ty, a + (Pseudonym(e, ty, v) + b), d)
  {
    BodyIs(e, s, d);
    NotBlank(e, v, a, b);
    RunSucceeds(e, f, v, ty, s, d);
    NothingProtected(f, s);
    EntityDone(e, f, v, ty, s);
    OnePass(e, v, ty, a, b, s);
    OneOut(e, v, ty, s);
    RunNames(e, f, s, d, s, d);
    PutOneRow(e, v, ty, d);
  }

  lemma OneOut(e: Env, v: string, ty: string, s: string)
    ensures Out(e, map[v := ty], s, []) == PassText(NamesRule(e, map[v := ty]), s)
    ensures Swapped(e, map[v := ty], s, []) == PassSwaps(NamesRule(e, map[v := ty]), s)
    ensures var o := EntityPass(e, map[v := ty], s, []); o.Done? ==> o.text == Out(e, map[v := ty], s, [])
  {
    assert Without(s, [], 0, 0) == s by { assert s[0..] == s; }
  }

  lemma PutOneRow(e: Env, v: string, ty: string, d: Store)
    ensures var r, p := NamesRule(e, map[v := ty]), Pseudonym(e, ty, v);
            PutAll(e, r, d, [(p, v)]) == PutFirst(d, p, Row(e, ty, p, v))
  {
    assert [(Pseudonym(e, ty, v), v)][1..] == [];
  }

  // ----- two spellings -----

  /** A detector that reports one value, and no address. */
  function Only(v: string): Finder { Finder(s => Some([Entity("person", v)]), s => []) }

  lemma Lowered()
    ensures LowerCase("person") == "person"
  {
    forall k | 0 <= k <= 6 ensures LowerCase("person"[k..]) == "person"[k..] { LoweredFrom(k); }
    assert "person"[0..] == "person";
  }

  lemma {:induction false} LoweredFrom(k: nat)
    requires k <= 6
    ensures LowerCase("person"[k..]) == "person"[k..]
    decreases 6 - k
  {
    var s := "person"[k..];
    if k < 6 {
      LoweredFrom(k + 1);
      assert s[1..] == "person"[k + 1..] && s == [s[0]] + s[1..];
    }
  }

  lemma OnlyReports(e: Env, v: string, s: string)
    requires Sane(e) && |v| >= MIN_ENTITY_LEN && Letters(v)
    ensures Reports(e, Only(v), s, v, "person")
  {
    Lookalikes.UpperPerson();
    Lowered();
    assert AsciiLetter(v[0]) && AsciiLetter(v[|v| - 1]);
    LabelsOne(e, v);
  }

  lemma LabelsOne(e: Env, v: string)
    requires |v| >= MIN_ENTITY_LEN && Trim(e, v) == v && LowerCase("person") == "person"
    ensures LabelsFrom(e, [Entity("person", v)], map[]) == map[v := "person"]
  {
    var es, labels: map<string, string> := [Entity("person", v)], map[];
    assert es[0] == Entity("person", v) && es[1..] == [];
    assert labels[v := "person"] == map[v := "person"];
    assert LabelsFrom(e, es[1..], map[v := "person"]) == map[v := "person"];
  }

  lemma FirstText(e: Env)
    requires Sane(e)
    ensures Undetected(e, FIRST) && Once(e, FIRST, "", "") && FIRST == "" + (FIRST + "") && Letters(FIRST)
  {
    NoBrackets(FIRST);
  }

  lemma SecondGaps(e: Env, s: string)
    requires Sane(e) && s == "[" + (SECOND + BEHIND)
    ensures NoNumber(e, s)
  {
    assert |s| == 17 && s[7] == ':' && s[16] == ']';
    forall i: nat | i + 9 <= |s| ensures Gap(e, s, i) {
      var k := if i <= 7 then 7 else 16;
      assert i <= k < i + 9 && k < |s| && !e.digit(s[k]);
    }
  }

  lemma SecondText(e: Env, s: string)
    requires Sane(e) && s == "[" + (SECOND + BEHIND)
    ensures Undetected(e, s) && Once(e, SECOND, "[", BEHIND) && Letters(SECOND) && AtomFree(TokenShape, s)
  {
    LowerNoToken(s);
    SecondUndetected(e, s);
    SecondOnce(e, s);
    SecondLetters();
  }

  lemma SecondUndetected(e: Env, s: string)
    requires Sane(e) && s == "[" + (SECOND + BEHIND)
    ensures Undetected(e, s)
  {
    SecondGaps(e, s);
    assert forall c :: c in s ==> c in "[" || c in SECOND || c in BEHIND;
  }

  lemma SecondOnce(e: Env, s: string)
    requires Sane(e) && s == "[" + (SECOND + BEHIND) && AtomFree(TokenShape, s)
    ensures Once(e, SECOND, "[", BEHIND)
  {}

  lemma SecondLetters()
    ensures Letters(SECOND)
  {}

  lemma StoredFirst(d: Store, p: string, m: Mapping, m': Mapping)
    requires d == PutFirst(map[], p, m)
    ensures PutFirst(d, p, m') == d && p in d && d[p] == m
  {}

  lemma FirstShows(e: Env, d: Store, keys: map<string, Key>, ty: string, p: string, v: string)
    requires p in d && d[p] == Row(e, ty, p, v)
    requires var k := e.key(UpperCase(ty)); k.id in keys && keys[k.id].material == k.material
    ensures Shows(RoundTrip.Open(d, keys, {p}), p) == Some(v)
  {}

  /** When `PERSON` and `person` share a token, a run over `PERSON` and then one over
      `[person:12345678]` both end well, neither text holds a token, and the reveal of the
      second output is one: `[PERSON:12345678]`. */
  lemma TwoSpellings(e: Env, keys: map<string, Key>)
    requires Sane(e) && Pseudonym(e, "person", FIRST) == Pseudonym(e, "person", SECOND)
    requires var k := e.key("PERSON"); k.id in keys && keys[k.id].material == k.material
    ensures var s, p := "[" + (SECOND + BEHIND), Pseudonym(e, "person", FIRST);
            && InText(Only(FIRST), Body(e, FIRST)) && RunIs(e, Only(FIRST), FIRST, p)
            && InText(Only(SECOND), Body(e, s)) && RunIs(e, Only(SECOND), s, "[" + (p + BEHIND))
            && AtomFree(TokenShape, s) && IsToken("[" + (FIRST + BEHIND))
            && var d := RunStore(e, Only(SECOND), s, RunStore(e, Only(FIRST), FIRST, map[]));
               RevealText(RoundTrip.Open(d, keys, {p}), "[" + (p + BEHIND)) == "[" + (FIRST + BEHIND)
  {
    var s, p := "[" + (SECOND + BEHIND), Pseudonym(e, "person", FIRST);
    FirstText(e);
    OnlyReports(e, FIRST, FIRST);
    OneRun(e, Only(FIRST), FIRST, "person", "", "", FIRST, map[]);
    assert "" + (p + "") == p;
    SecondText(e, s);
    OnlyReports(e, SECOND, s);
    var d := RunStore(e, Only(FIRST), FIRST, map[]);
    OneRun(e, Only(SECOND), SECOND, "person", "[", BEHIND, s, d);
    StoredFirst(d, p, Row(e, "person", p, FIRST), Row(e, "person", p, SECOND));
    Lookalikes.UpperPerson();
    FirstShows(e, d, keys, "person", p, FIRST);
    PseudonymIsToken(e, "person", FIRST);
    SpellingJoins(RoundTrip.Open(d, keys, {p}), p);
  }
}
