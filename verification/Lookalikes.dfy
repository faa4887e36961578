/** Values that can be read into the masks of the fail-hard check. One such value is
    enough: some clean text that holds it is rejected although every occurrence was
    replaced. For all others no text is. */
module Lookalikes {
  import opened Lexer
  import opened Pieces
  import opened Cuts
  import opened Matching
  import opened Rules
  import opened Hosts
  import opened Survivors
  import opened Reveal
  import opened Anonymizer
  import opened RoundTrip
  import opened Limits

  /** A value that is matched as a word and replaced by a token. */
  ghost predicate Plausible(v: string, ty: string) {
    |v| >= MIN_ENTITY_LEN && NoBracket(v, 0, |v|) && LabelOk(ty)
  }

  /** The value can be spelled with the masks of a run that replaces it: it holds `xx` or
      its own mask, or one of its own mask's characters at an edge behind a NUL. */
  predicate Spelled(e: Env, v: string) {
    !Immune(Shapes(e, {v}), v) || [NUL, v[0]] in Shapes(e, {v}) || [v[|v| - 1], NUL] in Shapes(e, {v})
  }

  // ----- a text that echoes the value -----

  lemma TokenCloses(s: string)
    requires AtomLen(TokenShape, s) > 0
    ensures ']' in s
  {
    var n := AtomLen(TokenShape, s);
    assert s[n - 1] == s[..n][n - 1] == ']';
  }

  /** No token in a text without a closing bracket. */
  lemma NoClosing(s: string)
    requires ']' !in s
    ensures AtomFree(TokenShape, s)
  {
    forall i | 0 <= i <= |s| ensures AtomLen(TokenShape, s[i..]) == 0 {
      assert forall c :: c in s[i..] ==> c in s;
      if AtomLen(TokenShape, s[i..]) > 0 { TokenCloses(s[i..]); }
    }
  }

  /** The text: the value, an opening bracket, and a token between two stretches. */
  function EchoText(v: string, a: string, q: string, b: string): string { (v + "[" + a) + (q + b) }

  function EchoPieces(v: string, a: string, q: string, b: string): seq<Piece> {
    Plain(v + "[" + a) + ([Tok(q, " ")] + Plain(b))
  }

  lemma EchoClean(v: string, a: string, q: string, b: string)
    requires IsToken(q) && ']' !in v && ']' !in a && ']' !in b
    ensures Clean(EchoPieces(v, a, q, b)) && Render(EchoPieces(v, a, q, b)) == EchoText(v, a, q, b)
  {
    OneToken(v + "[" + a, q, " ", b);
    NoClosing(Source(EchoPieces(v, a, q, b)));
  }

  /** Inside the token of the text. */
  lemma EchoInside(v: string, a: string, q: string, b: string, j: nat)
    requires IsToken(q) && ']' !in v && ']' !in a && ']' !in b
    requires |v| + 1 + |a| <= j < |v| + 1 + |a| + |q|
    ensures InToken(EchoText(v, a, q, b), j)
  {
    var ps, k := EchoPieces(v, a, q, b), |v| + 1 + |a|;
    EchoClean(v, a, q, b);
    assert ps[..k] == Plain(v + "[" + a);
    PlainRender(v + "[" + a);
    TokInToken(ps, k, j - k);
  }

  lemma Bracketless(s: string, v: string, j: nat)
    requires j + |v| <= |s| && s[j..j + |v|] == v && NoBracket(v, 0, |v|)
    ensures NoBracket(s, j, |v|)
  {
    forall k | j <= k < j + |v| ensures s[k] != '[' && s[k] != ']' { assert s[k] == v[k - j]; }
  }

  /** Behind its first occurrence the value stands nowhere but in the token. */
  lemma EchoOnce(v: string, a: string, q: string, b: string, j: nat)
    requires IsToken(q) && NoBracket(v, 0, |v|) && |a| < |v| && |b| < |v|
    requires |v| <= j && j + |v| <= |EchoText(v, a, q, b)| && EchoText(v, a, q, b)[j..j + |v|] == v
    ensures |v| + 1 + |a| <= j < |v| + 1 + |a| + |q|
  {
    var s, k := EchoText(v, a, q, b), |v| + 1 + |a|;
    assert s[|v|] == '[' && s[k] == q[0] == '[' && s[k + |q| - 1] == q[|q| - 1] == ']';
    Bracketless(s, v, j);
  }

  lemma OnlyValue(e: Env, v: string, ty: string, s: string, j: nat, n: nat)
    ensures Hit(NamesRule(e, map[v := ty]), s, j, n) ==> n == |v| && j + n <= |s| && s[j..j + n] == v
  {}

  lemma EchoNoMore(e: Env, v: string, ty: string, a: string, q: string, b: string)
    requires Plausible(v, ty) && IsToken(q) && ']' !in a && ']' !in b && |a| < |v| && |b| < |v|
    ensures NoneTaken(NamesRule(e, map[v := ty]), EchoText(v, a, q, b), |v|)
  {
    var r, s := NamesRule(e, map[v := ty]), EchoText(v, a, q, b);
    assert forall c :: c in v ==> c != '[' && c != ']';
    forall j: nat, n: nat | |v| <= j && Hit(r, s, j, n) ensures !r.takes(s, j, n) {
      OnlyValue(e, v, ty, s, j, n);
      EchoOnce(v, a, q, b, j);
      EchoInside(v, a, q, b, j);
    }
  }

  /** The pass replaces the first occurrence and nothing else. */
  lemma EchoPass(e: Env, v: string, ty: string, a: string, q: string, b: string)
    requires Sane(e) && Plausible(v, ty) && IsToken(q) && ']' !in a && ']' !in b && |a| < |v| && |b| < |v|
    ensures var r, s := NamesRule(e, map[v := ty]), EchoText(v, a, q, b);
            && PassText(r, s) == Pseudonym(e, ty, v) + s[|v|..]
            && PassSwaps(r, s) == [(Pseudonym(e, ty, v), v)]
  {
    var r, s := NamesRule(e, map[v := ty]), EchoText(v, a, q, b);
    EchoNoMore(e, v, ty, a, q, b);
    Untouched(r, s, |v|, |v|);
    EchoFirst(e, v, ty, a, q, b);
    var c := Swap(|v|, Pseudonym(e, ty, v));
    var cuts, rest := Pass(r, s, 0), Pass(r, s, |v|);
    assert cuts == [c] + rest by { PassStep(r, s, 0); }
    FirstSwap(s, c, cuts, rest);
  }

  lemma FirstSwap(s: string, c: Cut, cuts: seq<Cut>, rest: seq<Cut>)
    requires Covers(s, 0, cuts) && cuts == [c] + rest && c.Swap?
    ensures Covers(s, c.n, rest) && Emit(s, 0, cuts) == c.p + Emit(s, c.n, rest)
    ensures SwapsOf(s, 0, cuts) == [(c.p, s[..c.n])] + SwapsOf(s, c.n, rest)
  {
    assert cuts[1..] == rest;
  }

  lemma EchoFirst(e: Env, v: string, ty: string, a: string, q: string, b: string)
    requires Sane(e) && Plausible(v, ty)
    ensures var s := EchoText(v, a, q, b);
            |v| <= |s| && s[..|v|] == v && CutAt(NamesRule(e, map[v := ty]), s, 0) == Swap(|v|, Pseudonym(e, ty, v))
  {
    var r, s := NamesRule(e, map[v := ty]), EchoText(v, a, q, b);
    assert s[..|v|] == v && s[0..0 + |v|] == v && s[|v|] == '[' && s[0] == v[0];
    assert !WordAt(e, s, 0 - 1) && !WordAt(e, s, 0 + |v|);
    Matched(r, s, 0);
    assert Hit(r, s, 0, |v|);
    OnlyValue(e, v, ty, s, 0, MatchLen(r, s, 0));
    assert !InToken(s, 0) by {
      forall b: nat | b <= 0 ensures AtomLen(TokenShape, s[b..]) == 0 { NoBracketNoAtom(s[b..]); }
    }
  }

  /** What the check looks at. */
  function EchoMasked(e: Env, v: string, a: string, x: string, b: string): string
    requires v != ""
  {
    MaskOf(e, v) + (("[" + a) + (x + b))
  }

  lemma {:induction false} MaskedConcat(e: Env, known: map<string, string>, ps: seq<Piece>, qs: seq<Piece>)
    ensures Masked(e, known, ps + qs) == Masked(e, known, ps) + Masked(e, known, qs)
  {
    if ps == [] {
      assert ps + qs == qs;
    } else {
      assert (ps + qs)[1..] == ps[1..] + qs;
      MaskedConcat(e, known, ps[1..], qs);
    }
  }

  lemma {:induction false} MaskedPlain(e: Env, known: map<string, string>, s: string)
    ensures Masked(e, known, Plain(s)) == s
  {
    if s != "" {
      assert Plain(s)[1..] == Plain(s[1..]);
      MaskedPlain(e, known, s[1..]);
      assert s == [s[0]] + s[1..];
    }
  }

  lemma MaskedOne(e: Env, known: map<string, string>, p: string, v: string, ps: seq<Piece>)
    ensures Masked(e, known, [Tok(p, v)] + ps) == Mask(e, known, p) + Masked(e, known, ps)
  {
    assert ([Tok(p, v)] + ps)[1..] == ps;
  }

  lemma EchoResult(v: string, p: string, a: string, q: string, b: string, inner: seq<Piece>)
    requires v != "" && ']' !in v && ']' !in a && ']' !in b && IsToken(p) && IsToken(q)
    requires inner == Plain("[" + a) + ([Tok(q, " ")] + Plain(b))
    ensures Clean([Tok(p, v)] + inner) && Render([Tok(p, v)] + inner) == p + (("[" + a) + (q + b))
  {
    var qs := [Tok(p, v)] + inner;
    OneToken("[" + a, q, " ", b);
    assert qs[0] == Tok(p, v) && qs[1..] == inner;
    assert Render(qs) == p + Render(inner) && Source(qs) == v + Source(inner);
    NoClosing(Source(qs));
  }

  lemma EchoStripped(e: Env, v: string, p: string, a: string, q: string, b: string)
    requires v != "" && ']' !in v && ']' !in a && ']' !in b && IsToken(p) && IsToken(q)
    ensures Stripped(e, map[p := v], p + (("[" + a) + (q + b))) == EchoMasked(e, v, a, Mask(e, map[p := v], q), b)
  {
    var known := map[p := v];
    var inner := Plain("[" + a) + ([Tok(q, " ")] + Plain(b));
    EchoResult(v, p, a, q, b, inner);
    StrippedPieces(e, known, [Tok(p, v)] + inner);
    MaskedOne(e, known, p, v, inner);
    MaskedConcat(e, known, Plain("[" + a), [Tok(q, " ")] + Plain(b));
    MaskedOne(e, known, q, " ", Plain(b));
    MaskedPlain(e, known, "[" + a);
    MaskedPlain(e, known, b);
  }

  lemma KnownOne(p: string, v: string)
    ensures KnownOf([(p, v)]) == map[p := v]
  {
    assert [(p, v)][..0] == [];
  }

  lemma DropHead(v: string, c: string, a: string, t: string)
    ensures ((v + c + a) + t)[|v|..] == (c + a) + t
  {}

  /** A run whose masked text shows the value is rejected. */
  lemma ShownRejects(e: Env, v: string, ty: string, s: string, out: string, swaps: Swaps, masked: string, j: nat)
    requires PassText(NamesRule(e, map[v := ty]), s) == out && PassSwaps(NamesRule(e, map[v := ty]), s) == swaps
    requires Stripped(e, KnownOf(swaps), out) == masked && Whole(e, masked, v, j)
    ensures EntityPass(e, map[v := ty], s, []) == ValueSurvived
  {
    assert s[0..] == s;
    assert v in map[v := ty];
  }

  lemma EchoRejected(e: Env, v: string, ty: string, a: string, q: string, b: string, j: nat)
    requires Sane(e) && Plausible(v, ty) && IsToken(q) && ']' !in a && ']' !in b && |a| < |v| && |b| < |v|
    requires Whole(e, EchoMasked(e, v, a, Mask(e, map[Pseudonym(e, ty, v) := v], q), b), v, j)
    ensures EntityPass(e, map[v := ty], EchoText(v, a, q, b), []) == ValueSurvived
  {
    var s, p := EchoText(v, a, q, b), Pseudonym(e, ty, v);
    assert ']' !in v;
    EchoPass(e, v, ty, a, q, b);
    DropHead(v, "[", a, q + b);
    assert IsToken(p) by { PseudonymIsToken(e, ty, v); }
    EchoStripped(e, v, p, a, q, b);
    KnownOne(p, v);
    ShownRejects(e, v, ty, s, p + s[|v|..], [(p, v)], EchoMasked(e, v, a, Mask(e, map[p := v], q), b), j);
  }

  // ----- spelled values -----

  const ZEROS: string := "[BSN:00000000]"
  const ONES: string := "[BSN:11111111]"

  lemma ZerosOnes()
    ensures IsToken(ZEROS) && IsToken(ONES) && ZEROS != ONES
  {
    var z, o := ZEROS, ONES;
    assert |z| == 14 && z[1..4] == "BSN" && z[5..13] == "00000000";
    assert |o| == 14 && o[1..4] == "BSN" && o[5..13] == "11111111";
    assert z[5] != o[5];
  }

  /** For each mask of the run, a token that is masked so. */
  lemma TokenFor(e: Env, v: string, ty: string, x: string) returns (q: string)
    requires Sane(e) && Plausible(v, ty) && x in Shapes(e, {v})
    ensures IsToken(q) && Mask(e, map[Pseudonym(e, ty, v) := v], q) == x
  {
    ZerosOnes();
    var p := Pseudonym(e, ty, v);
    if x == MaskOf(e, v) {
      PseudonymIsToken(e, ty, v);
      q := p;
    } else {
      q := if p == ZEROS then ONES else ZEROS;
    }
  }

  lemma WholeBehind(e: Env, v: string, head: string, tail: string)
    requires head != "" && !e.word(head[|head| - 1]) && (tail != "" ==> !e.word(tail[0]))
    ensures Whole(e, head + (v + tail), v, |head|)
  {
    var m := head + (v + tail);
    assert m[|head|..|head| + |v|] == v;
  }

  lemma EchoShows(e: Env, v: string, a: string, x: string, b: string, pre: string, post: string)
    requires Sane(e) && v != "" && a + (x + b) == pre + (v + post)
    requires pre != "" ==> pre == [NUL]
    requires post != "" ==> post == [NUL]
    ensures exists j: nat :: Whole(e, EchoMasked(e, v, a, x, b), v, j)
  {
    var head := MaskOf(e, v) + "[" + pre;
    assert EchoMasked(e, v, a, x, b) == MaskOf(e, v) + "[" + (a + (x + b));
    assert MaskOf(e, v) + "[" + (pre + (v + post)) == head + (v + post);
    WholeBehind(e, v, head, post);
  }

  /** A clean text with an echo of the value. */
  ghost predicate Refused(e: Env, v: string, ty: string, ps: seq<Piece>) {
    Clean(ps) && EntityPass(e, map[v := ty], Render(ps), []) == ValueSurvived
  }

  lemma EchoRefused(e: Env, v: string, ty: string, a: string, x: string, b: string, pre: string, post: string)
    returns (ps: seq<Piece>)
    requires Sane(e) && Plausible(v, ty) && x in Shapes(e, {v}) && |a| < |v| && |b| < |v| && ']' !in a && ']' !in b
    requires a + (x + b) == pre + (v + post) && (pre != "" ==> pre == [NUL]) && (post != "" ==> post == [NUL])
    ensures Refused(e, v, ty, ps)
  {
    var q := TokenFor(e, v, ty, x);
    EchoShows(e, v, a, x, b, pre, post);
    var j: nat :| Whole(e, EchoMasked(e, v, a, x, b), v, j);
    assert ']' !in v;
    EchoClean(v, a, q, b);
    EchoRejected(e, v, ty, a, q, b, j);
    ps := EchoPieces(v, a, q, b);
  }

  lemma NoClosingPart(v: string, i: nat, j: nat)
    requires NoBracket(v, 0, |v|) && i <= j <= |v|
    ensures ']' !in v[i..j]
  {}

  lemma HoldsMask(e: Env, v: string, ty: string, k: nat) returns (ps: seq<Piece>)
    requires Sane(e) && Plausible(v, ty) && k + 1 < |v| && [v[k], v[k + 1]] in Shapes(e, {v})
    ensures Refused(e, v, ty, ps)
  {
    var a, x, b := v[0..k], [v[k], v[k + 1]], v[k + 2..|v|];
    NoClosingPart(v, 0, k);
    NoClosingPart(v, k + 2, |v|);
    assert a + (x + b) == "" + (v + "");
    ps := EchoRefused(e, v, ty, a, x, b, "", "");
  }

  lemma StartsWithMask(e: Env, v: string, ty: string) returns (ps: seq<Piece>)
    requires Sane(e) && Plausible(v, ty) && [NUL, v[0]] in Shapes(e, {v})
    ensures Refused(e, v, ty, ps)
  {
    var x, b := [NUL, v[0]], v[1..|v|];
    NoClosingPart(v, 1, |v|);
    assert "" + (x + b) == [NUL] + (v + "");
    ps := EchoRefused(e, v, ty, "", x, b, [NUL], "");
  }

  lemma EndsWithMask(e: Env, v: string, ty: string) returns (ps: seq<Piece>)
    requires Sane(e) && Plausible(v, ty) && [v[|v| - 1], NUL] in Shapes(e, {v})
    ensures Refused(e, v, ty, ps)
  {
    var a, x := v[0..|v| - 1], [v[|v| - 1], NUL];
    NoClosingPart(v, 0, |v| - 1);
    assert a + (x + "") == "" + (v + [NUL]);
    ps := EchoRefused(e, v, ty, a, x, "", "", [NUL]);
  }

  lemma SpelledRefused(e: Env, v: string, ty: string) returns (ps: seq<Piece>)
    requires Sane(e) && Plausible(v, ty) && Spelled(e, v)
    ensures Refused(e, v, ty, ps)
  {
    if [NUL, v[0]] in Shapes(e, {v}) {
      ps := StartsWithMask(e, v, ty);
    } else if [v[|v| - 1], NUL] in Shapes(e, {v}) {
      ps := EndsWithMask(e, v, ty);
    } else {
      var k :| 0 <= k < |v| - 1 && [v[k], v[k + 1]] in Shapes(e, {v});
      ps := HoldsMask(e, v, ty, k);
    }
  }

  // ----- all others -----

  /** The rule of the one value. */
  ghost predicate OneRule(e: Env, r: Rule, v: string, p: string) {
    && WordRule(e, r) && Names(r) && (forall w :: r.fits(w) <==> w == v) && r.name(v) == p
  }

  lemma OnlyOne(labels: map<string, string>, v: string, ty: string)
    requires Plausible(v, ty) && labels.Keys == {v} && labels[v] == ty
    ensures LabelsOk(labels) && forall w :: w in labels ==> w != "" && NoBracket(w, 0, |w|)
  {
    forall w | w in labels ensures w == v { assert w in labels.Keys; }
  }

  lemma OneIsRule(e: Env, labels: map<string, string>, v: string, ty: string)
    requires Sane(e) && Plausible(v, ty) && labels.Keys == {v} && labels[v] == ty
    ensures OneRule(e, NamesRule(e, labels), v, Pseudonym(e, ty, v))
  {
    OnlyOne(labels, v, ty);
    NamesRuleNames(e, labels);
    NamesAreWholeWords(e, labels);
    OneFits(e, labels, v, ty);
  }

  lemma OneFits(e: Env, labels: map<string, string>, v: string, ty: string)
    requires labels.Keys == {v} && labels[v] == ty
    ensures var r := NamesRule(e, labels); (forall w :: r.fits(w) <==> w == v) && r.name(v) == Pseudonym(e, ty, v)
  {}

  lemma OneNotMisread(e: Env, r: Rule, olds: iset<string>, v: string, p: string)
    requires OneRule(e, r, v, p) && !Spelled(e, v)
    ensures NoneMisread(e, r, olds)
  {
    forall a, b ensures !Reads(e, r, olds, v, a, b) { OneNotRead(e, r, olds, v, p, a, b); }
  }

  lemma OneNotRead(e: Env, r: Rule, olds: iset<string>, v: string, p: string, a: Side, b: Side)
    requires OneRule(e, r, v, p) && !Spelled(e, v)
    ensures !Reads(e, r, olds, v, a, b)
  {
    assert MaskOf(e, v) in Shapes(e, {v});
    if a == Clear && b == Clear { ClearSides(e, r, olds, v); }
  }

  /** No text shows a value that cannot be spelled. */
  lemma OneUnseen(e: Env, r: Rule, labels: map<string, string>, v: string, p: string, ps: seq<Piece>)
    requires Sane(e) && OneRule(e, r, v, p) && !Spelled(e, v) && Clean(ps) && labels.Keys == {v}
    ensures var s := Render(ps);
            !Survives(e, labels, Stripped(e, KnownOf(PassSwaps(r, s)), PassText(r, s)))
  {
    OneNotMisread(e, r, AnyToken(), v, p);
    assert forall w :: w in labels <==> w in labels.Keys;
    NoneSurvive(e, r, labels, AnyToken(), ps);
  }

  lemma OneSurvives(e: Env, labels: map<string, string>, v: string, masked: string)
    requires labels.Keys == {v} && forall j: nat :: !Whole(e, masked, v, j)
    ensures !Survives(e, labels, masked)
  {
    forall w | w in labels ensures w == v { assert w in labels.Keys; }
  }

  lemma NotSurviving(e: Env, labels: map<string, string>, s: string, r: Rule)
    requires r == NamesRule(e, labels)
    requires !Survives(e, labels, Stripped(e, KnownOf(PassSwaps(r, s)), PassText(r, s)))
    ensures EntityPass(e, labels, s, []) != ValueSurvived
  {
    assert Without(s, [], 0, 0) == s by { assert s[0..] == s; }
  }

  lemma OthersPass(e: Env, v: string, ty: string, ps: seq<Piece>)
    requires Sane(e) && Plausible(v, ty) && !Spelled(e, v) && Clean(ps)
    ensures EntityPass(e, map[v := ty], Render(ps), []) != ValueSurvived
  {
    var labels := map[v := ty];
    var r := NamesRule(e, labels);
    OneIsRule(e, labels, v, ty);
    assert labels.Keys == {v};
    OneUnseen(e, r, labels, v, Pseudonym(e, ty, v), ps);
    NotSurviving(e, labels, Render(ps), r);
  }

  /** A value makes the check reject some clean text exactly when it can be spelled with the
      masks of the run. */
  lemma RefusedExactly(e: Env, v: string, ty: string)
    requires Sane(e) && Plausible(v, ty)
    ensures (exists ps :: Refused(e, v, ty, ps)) <==> Spelled(e, v)
  {
    if Spelled(e, v) {
      var ps := SpelledRefused(e, v, ty);
    }
    if ps :| Refused(e, v, ty, ps) {
      if !Spelled(e, v) { OthersPass(e, v, ty, ps); }
    }
  }

  lemma EchoToken(e: Env, v: string)
    requires Sane(e) && |v| >= MIN_ENTITY_LEN && NoBracket(v, 0, |v|)
    ensures Plausible(v, "person") && IsToken(ZEROS)
    ensures Mask(e, map[Pseudonym(e, "person", v) := v], ZEROS) == "xx"
  {
    UpperPerson();
    ZerosOnes();
    assert Pseudonym(e, "person", v)[1] == 'P' && ZEROS[1] == 'B';
  }

  /** For instance `a xx`: the text `a xx[a [BSN:00000000]` is rejected, though its one
      occurrence was replaced. */
  lemma MaskLookalike(e: Env)
    requires Sane(e)
    ensures Spelled(e, "a xx")
    ensures EntityPass(e, map["a xx" := "person"], EchoText("a xx", "a ", ZEROS, ""), []) == ValueSurvived
  {
    var v := "a xx";
    assert [v[2], v[3]] == "xx" && NoBracket(v, 0, |v|);
    EchoToken(e, v);
    assert "a " + ("xx" + "") == "" + (v + "");
    EchoShows(e, v, "a ", "xx", "", "", "");
    var j: nat :| Whole(e, EchoMasked(e, v, "a ", "xx", ""), v, j);
    EchoRejected(e, v, "person", "a ", ZEROS, "", j);
  }

  lemma UpperPerson()
    ensures UpperCase("person") == "PERSON" && LabelOk("person")
  {
    forall k | 0 <= k < 6 ensures UpperCase("person")[k] == "PERSON"[k] { UpperAt("person", k); }
  }
}
