/** The fail-hard check behind the entity pass: with every token masked, no
    detected value may stand in the output as a whole word. The scan is complete,
    so the check has nothing to find; it can only be fooled by a value that can be
    read into the masks, or next to the mask of another value. */
module Survivors {
  import opened Lexer
  import opened Pieces
  import opened Cuts
  import opened Matching
  import opened Rules

  // ----- one step of the entity pass on pieces -----

  /** A rule for literal values: a value holds no bracket, matches as a whole word,
      and is replaced unless it starts in a token. */
  ghost predicate WordRule(e: Env, r: Rule) {
    && Bare(r) && (forall v :: r.fits(v) ==> v != "")
    && (forall s, i: nat, n: nat ::
          (r.edges(s, i, n) <==> !WordAt(e, s, i - 1) && !WordAt(e, s, i + n))
          && (r.takes(s, i, n) <==> !InToken(s, i)))
  }

  ghost function Result(r: Rule, s: string, i: nat, ps: seq<Piece>): seq<Piece>
    requires i <= |s|
  {
    Build(s, i, ps, Pass(r, s, i))
  }

  lemma CutInToken(r: Rule, s: string, i: nat, end: nat) returns (m: nat)
    requires Bare(r) && Spares(r, s) && i < end <= |s| && s[end - 1] == ']' && InToken(s, i)
    ensures CutAt(r, s, i).Keep? && i < m == i + CutAt(r, s, i).n <= end
  {
    var n := MatchLen(r, s, i);
    Matched(r, s, i);
    if n > 0 {
      HitFacts(r, s, i, n);
    }
    m := i + CutAt(r, s, i).n;
  }

  /** Between `start` and `end` lies nothing but tokens. */
  lemma {:induction false} SkipPass(r: Rule, s: string, start: nat, i: nat, end: nat)
    requires Bare(r) && Spares(r, s) && start <= i <= end <= |s|
    requires start < end ==> s[end - 1] == ']' && forall j :: start <= j < end ==> InToken(s, j)
    ensures Skip(i, end, Pass(r, s, i)) == Pass(r, s, end)
    decreases end - i
  {
    if i == end {
      SkipNone(end, Pass(r, s, end));
    } else {
      var m := CutInToken(r, s, i, end);
      SkipPass(r, s, start, m, end);
      SkipCut(r, s, i, m, end);
    }
  }

  lemma SkipCut(r: Rule, s: string, i: nat, m: nat, end: nat)
    requires i < end <= |s| && m == i + CutAt(r, s, i).n && Skip(m, end, Pass(r, s, m)) == Pass(r, s, end)
    ensures Skip(i, end, Pass(r, s, i)) == Pass(r, s, end)
  {
    var cuts, after, last := Pass(r, s, i), Pass(r, s, m), Pass(r, s, end);
    assert cuts == [CutAt(r, s, i)] + after by { PassStep(r, s, i); }
    SkipStep(i, end, CutAt(r, s, i), cuts, after, last);
  }

  lemma SkipNone(end: nat, cuts: seq<Cut>)
    ensures Skip(end, end, cuts) == cuts
  {}

  lemma SkipStep(i: nat, end: nat, c: Cut, cuts: seq<Cut>, after: seq<Cut>, last: seq<Cut>)
    requires i < end && cuts == [c] + after && Skip(i + c.n, end, after) == last
    ensures Skip(i, end, cuts) == last
  {
    assert cuts[1..] == after;
  }

  lemma WordSpares(e: Env, r: Rule, s: string)
    requires WordRule(e, r)
    ensures Spares(r, s)
  {}

  lemma ResultAtToken(r: Rule, s: string, i: nat, ps: seq<Piece>)
    requires Bare(r) && Spares(r, s) && Aligned(s, i, ps) && ps != [] && ps[0].Tok?
    ensures i + |ps[0].p| <= |s| && Aligned(s, i + |ps[0].p|, ps[1..])
    ensures Result(r, s, i, ps) == [ps[0]] + Result(r, s, i + |ps[0].p|, ps[1..])
    ensures s[i] == '[' && s[i + |ps[0].p| - 1] == ']'
  {
    EndsOf(s, i, ps);
    SkipToken(r, s, i, ps);
    ResultAfter(r, s, i, ps, i + |ps[0].p|);
  }

  lemma SkipToken(r: Rule, s: string, i: nat, ps: seq<Piece>)
    requires Bare(r) && Spares(r, s) && Aligned(s, i, ps) && ps != [] && ps[0].Tok?
    ensures i + |ps[0].p| <= |s| && Skip(i, i + |ps[0].p|, Pass(r, s, i)) == Pass(r, s, i + |ps[0].p|)
  {
    TokFacts(s, i, ps);
    SkipPass(r, s, i, i, i + |ps[0].p|);
  }

  lemma ResultAfter(r: Rule, s: string, i: nat, ps: seq<Piece>, end: nat)
    requires ps != [] && ps[0].Tok? && end == i + |ps[0].p| <= |s|
    requires Skip(i, end, Pass(r, s, i)) == Pass(r, s, end)
    ensures Result(r, s, i, ps) == [ps[0]] + Result(r, s, end, ps[1..])
  {
    BuildAtToken(s, i, ps, Pass(r, s, i), Pass(r, s, end));
  }

  lemma BuildAtToken(s: string, i: nat, ps: seq<Piece>, cuts: seq<Cut>, after: seq<Cut>)
    requires ps != [] && ps[0].Tok? && Skip(i, i + |ps[0].p|, cuts) == after
    ensures Build(s, i, ps, cuts) == [ps[0]] + Build(s, i + |ps[0].p|, ps[1..], after)
  {}

  lemma BuildAtCut(s: string, i: nat, ps: seq<Piece>, c: Cut, cuts: seq<Cut>, after: seq<Cut>)
    requires ps != [] && ps[0].Raw? && 0 < c.n <= |ps| && i + c.n <= |s| && cuts == [c] + after
    ensures Build(s, i, ps, cuts) == Made(s, i, c) + Build(s, i + c.n, ps[c.n..], after)
  {
    assert cuts[1..] == after;
  }

  lemma EndsOf(s: string, i: nat, ps: seq<Piece>)
    requires Aligned(s, i, ps) && ps != [] && ps[0].Tok?
    ensures i < i + |ps[0].p| <= |s| && s[i] == '[' && s[i + |ps[0].p| - 1] == ']'
    ensures Aligned(s, i + |ps[0].p|, ps[1..])
  {
    LastOf(s, i, ps[0].p);
    assert s[i] == s[i..i + |ps[0].p|][0];
  }

  /** The longest value found at `i`, or 0. */
  function Found(r: Rule, s: string, i: nat): nat
    requires i <= |s|
  {
    MatchLen(r, s, i)
  }

  /** What the pass makes of a plain position. */
  lemma ResultAtCut(r: Rule, s: string, i: nat, ps: seq<Piece>, c: Cut)
    requires ps != [] && ps[0].Raw? && i < |s| && c == CutAt(r, s, i) && c.n <= |ps|
    ensures Result(r, s, i, ps) == Made(s, i, c) + Result(r, s, i + c.n, ps[c.n..])
  {
    var cuts, after := Pass(r, s, i), Pass(r, s, i + c.n);
    assert cuts == [c] + after by { PassStep(r, s, i); }
    BuildAtCut(s, i, ps, c, cuts, after);
  }

  lemma ResultUnmatched(r: Rule, s: string, i: nat, ps: seq<Piece>)
    requires Aligned(s, i, ps) && ps != [] && ps[0].Raw? && Found(r, s, i) == 0
    ensures i < |s| && s[i] == ps[0].c && Aligned(s, i + 1, ps[1..])
    ensures Result(r, s, i, ps) == [ps[0]] + Result(r, s, i + 1, ps[1..])
  {
    ResultAtCut(r, s, i, ps, Keep(1));
    assert Plain(s[i..i + 1]) == [Raw(s[i])];
  }

  lemma ResultMatched(r: Rule, s: string, i: nat, ps: seq<Piece>, n: nat)
    requires Bare(r) && Aligned(s, i, ps) && ps != [] && ps[0].Raw? && n == Found(r, s, i) > 0
    requires r.takes(s, i, n)
    ensures n <= |ps| && Aligned(s, i + n, ps[n..]) && r.fits(s[i..i + n]) && s[i] == ps[0].c
    ensures Result(r, s, i, ps) == [Tok(r.name(s[i..i + n]), s[i..i + n])] + Result(r, s, i + n, ps[n..])
  {
    Matched(r, s, i);
    HitFacts(r, s, i, n);
    PlainStretch(s, i, n, ps);
    ResultTaken(r, s, i, ps, n);
  }

  lemma ResultTaken(r: Rule, s: string, i: nat, ps: seq<Piece>, n: nat)
    requires ps != [] && ps[0].Raw? && i + n <= |s| && n <= |ps| && n == Found(r, s, i) > 0 && r.takes(s, i, n)
    ensures Result(r, s, i, ps) == [Tok(r.name(s[i..i + n]), s[i..i + n])] + Result(r, s, i + n, ps[n..])
  {
    ResultAtCut(r, s, i, ps, Swap(n, r.name(s[i..i + n])));
  }

  lemma FreeTaken(e: Env, r: Rule, s: string, i: nat, n: nat, ps: seq<Piece>)
    requires WordRule(e, r) && Aligned(s, i, ps) && ps != [] && ps[0].Raw?
    ensures i < |s| && !InToken(s, i) && r.takes(s, i, n)
  {}

  /** The value found at `i` comes first in the result, as its token. */
  lemma ResultAtFound(e: Env, r: Rule, s: string, i: nat, ps: seq<Piece>, n: nat)
    returns (v: string, q: Piece, rest: seq<Piece>)
    requires WordRule(e, r) && Aligned(s, i, ps) && ps != [] && ps[0].Raw? && i <= |s| && n == Found(r, s, i) > 0
    ensures n <= |ps| && i + n <= |s| && v == s[i..i + n] && q == Tok(r.name(v), v) && r.fits(v)
    ensures Aligned(s, i + n, ps[n..]) && rest == Result(r, s, i + n, ps[n..]) && Result(r, s, i, ps) == [q] + rest
  {
    FreeTaken(e, r, s, i, n, ps);
    ResultMatched(r, s, i, ps, n);
    v := s[i..i + n];
    q, rest := Tok(r.name(v), v), Result(r, s, i + n, ps[n..]);
  }

  // ----- masks -----

  const NUL: char := '\U{0000}'

  function MaskChar(e: Env, c: char): char { if e.word(c) then 'x' else NUL }

  /** `_masker`: a token placed by this pass has the edges of its value, any other
      token counts as a word. */
  function Mask(e: Env, known: map<string, string>, p: string): string {
    if p in known && known[p] != ""
    then [MaskChar(e, known[p][0]), MaskChar(e, known[p][|known[p]| - 1])]
    else "xx"
  }

  function MaskPiece(e: Env, known: map<string, string>, q: Piece): string {
    match q case Raw(c) => [c] case Tok(p, _) => Mask(e, known, p)
  }

  function Masked(e: Env, known: map<string, string>, qs: seq<Piece>): string {
    if qs == [] then ""
    else MaskPiece(e, known, qs[0]) + Masked(e, known, qs[1..])
  }

  lemma {:induction false} MapMasked(e: Env, known: map<string, string>, qs: seq<Piece>)
    ensures MapFlat(t => Mask(e, known, t), Lexemes(qs)) == Masked(e, known, qs)
  {
    if qs != [] {
      LexemesTail(qs);
      MapMasked(e, known, qs[1..]);
    }
  }

  /** `_PSEUDONYM_RE.sub(_masker, text)`. */
  function Stripped(e: Env, known: map<string, string>, s: string): string {
    ReSub(TokenShape, t => Mask(e, known, t), s)
  }

  lemma StrippedPieces(e: Env, known: map<string, string>, qs: seq<Piece>)
    requires Clean(qs)
    ensures Stripped(e, known, Render(qs)) == Masked(e, known, qs)
  {
    CleanCanonical(qs);
    FlatLexemes(qs);
    ReSubFlat(TokenShape, t => Mask(e, known, t), Lexemes(qs));
    MapMasked(e, known, qs);
  }

  // ----- survivors -----

  /** `v` stands at `j` in `s` as a whole word. */
  predicate Whole(e: Env, s: string, v: string, j: nat) {
    && j + |v| <= |s| && s[j..j + |v|] == v
    && !WordAt(e, s, j - 1) && !WordAt(e, s, j + |v|)
  }

  /** The mask of a token placed for `v`. */
  function MaskOf(e: Env, v: string): string
    requires v != ""
  {
    [MaskChar(e, v[0]), MaskChar(e, v[|v| - 1])]
  }

  /** The masks a run over the values can write. */
  function Shapes(e: Env, vals: set<string>): set<string> { {"xx"} + set v | v in vals && v != "" :: MaskOf(e, v) }

  /** The text holds none of the masks. */
  predicate Maskless(shapes: set<string>, u: string) { forall k :: 0 <= k < |u| - 1 ==> [u[k], u[k + 1]] !in shapes }

  /** Nor does a value, and no two masks side by side can make it up. */
  predicate Immune(shapes: set<string>, v: string) { |v| >= 3 && Maskless(shapes, v) }

  // ----- what a value can be read next to -----

  /** What stands on one side of a value that the check finds: nothing of note; the token
      just placed for `u`, masked as `w`, which may lend the value the half of its mask; or
      a token that stood in the text, masked as `w`, that lends it half of its mask. */
  datatype Side = Clear | Placed(u: string, w: string, half: bool) | Standing(w: string)

  predicate Half(b: Side) { b.Standing? || (b.Placed? && b.half) }

  /** The plain text of that side. */
  function Flank(b: Side): string { if b.Placed? then b.u else "" }

  /** The mask of a token placed for `u` is that of a value with the same token. */
  predicate Shares(r: Rule, u: string, w: string) {
    r.fits(u) && r.fits(w) && r.name(u) == r.name(w) && u != "" && w != ""
  }

  ghost predicate LeftSide(e: Env, r: Rule, olds: iset<string>, v: string, b: Side) {
    v != "" &&
    match b
    case Clear => true
    case Placed(u, w, half) =>
      Shares(r, u, w)
      && if half then MaskOf(e, w) == [NUL, v[0]] else e.word(u[|u| - 1]) && !e.word(w[|w| - 1])
    case Standing(w) => Shares(r, w, w) && r.name(w) in olds && MaskOf(e, w) == [NUL, v[0]]
  }

  ghost predicate RightSide(e: Env, r: Rule, olds: iset<string>, v: string, b: Side) {
    v != "" &&
    match b
    case Clear => true
    case Placed(u, w, half) =>
      Shares(r, u, w)
      && if half then MaskOf(e, w) == [v[|v| - 1], NUL] else e.word(u[0]) && !e.word(w[0])
    case Standing(w) => Shares(r, w, w) && r.name(w) in olds && MaskOf(e, w) == [v[|v| - 1], NUL]
  }

  /** A token is masked as one value only. */
  predicate OneMask(r: Rule, a: Side, b: Side) {
    !a.Clear? && !b.Clear? && r.name(a.w) == r.name(b.w) ==> a.w == b.w
  }

  /** The part of the value that stands in the text. */
  function Middle(v: string, a: Side, b: Side): string
    requires |v| >= 2
  {
    v[if Half(a) then 1 else 0..if Half(b) then |v| - 1 else |v|]
  }

  /** A match of `n` characters at `t` starts in one of the flanks, and is no longer than
      the flank when it starts where that does. */
  predicate Aside(l: nat, mid: nat, h: nat, n: nat, t: nat) {
    (t < l && (t == 0 ==> n <= l)) || (l + mid <= t && (t == l + mid ==> n <= h))
  }

  /** In `z`, which is `l`, `mid` characters and `h`, the pass replaces `l` and `h`, and
      nothing between them. */
  ghost predicate Leaves(e: Env, r: Rule, z: string, l: string, mid: nat, h: string) {
    && (l != "" ==> Whole(e, z, l, 0)) && (h != "" ==> Whole(e, z, h, |l| + mid))
    && forall w, t: nat :: r.fits(w) && Whole(e, z, w, t) ==> Aside(|l|, mid, |h|, |w|, t)
  }

  ghost predicate LeavesBetween(e: Env, r: Rule, a: Side, b: Side, mid: string) {
    Leaves(e, r, Flank(a) + mid + Flank(b), Flank(a), |mid|, Flank(b))
  }

  ghost predicate Reads(e: Env, r: Rule, olds: iset<string>, v: string, a: Side, b: Side) {
    && |v| >= 2 && r.fits(v) && LeftSide(e, r, olds, v, a) && RightSide(e, r, olds, v, b) && OneMask(r, a, b)
    && LeavesBetween(e, r, a, b, Middle(v, a, b))
  }

  /** Next to other values, or to tokens of `olds`, the check can find `v` where it does not
      stand. */
  ghost predicate Misread(e: Env, r: Rule, olds: iset<string>, v: string) {
    exists a, b :: Reads(e, r, olds, v, a, b)
  }

  // ----- the result, run by run -----

  lemma MaskChars(e: Env, known: map<string, string>, p: string)
    requires Sane(e)
    ensures var x := Mask(e, known, p);
            && |x| == 2 && (x[0] == 'x' || x[0] == NUL) && (x[1] == 'x' || x[1] == NUL)
            && (e.word(x[0]) <==> x[0] == 'x') && (e.word(x[1]) <==> x[1] == 'x')
            && (x[0] == 'x' && x[1] == 'x' ==> x == "xx")
  {}

  /** How many plain pieces lead `qs`. */
  function Raws(qs: seq<Piece>): (k: nat)
    ensures k <= |qs| && (forall t :: 0 <= t < k ==> qs[t].Raw?) && (k < |qs| ==> qs[k].Tok?)
  {
    if qs == [] || qs[0].Tok? then 0 else 1 + Raws(qs[1..])
  }

  /** `v` is what the pass finds at `i`. */
  ghost predicate FoundAt(e: Env, r: Rule, s: string, i: nat, v: string) {
    i < |s| && r.fits(v) && v != "" && Whole(e, s, v, i) && Found(r, s, i) == |v|
  }

  /** The token `q` of the result stands in the text from `i` on, or was placed for the
      value found there. */
  ghost predicate TokenFrom(e: Env, r: Rule, olds: iset<string>, s: string, i: nat, q: Piece) {
    q.Tok? && i < |s| && ((q.p in olds && s[i] == '[') || (q.p == r.name(q.v) && FoundAt(e, r, s, i, q.v)))
  }

  /** And reaches to `m`. */
  ghost predicate TokenTo(e: Env, r: Rule, olds: iset<string>, s: string, m: nat, q: Piece) {
    && q.Tok? && 0 < m <= |s|
    && ((q.p in olds && s[m - 1] == ']')
        || (q.p == r.name(q.v) && |q.v| <= m && FoundAt(e, r, s, m - |q.v|, q.v)))
  }

  ghost function AnyToken(): iset<string> { iset t | IsToken(t) }

  ghost predicate AllOld(olds: iset<string>, ps: seq<Piece>) { forall q :: q in ps && q.Tok? ==> q.p in olds }

  lemma HitWhole(e: Env, r: Rule, s: string, i: nat, n: nat)
    requires WordRule(e, r) && Hit(r, s, i, n)
    ensures i + n <= |s| && r.fits(s[i..i + n]) && Whole(e, s, s[i..i + n], i)
  {}

  lemma FoundWhole(e: Env, r: Rule, s: string, i: nat, n: nat)
    requires WordRule(e, r) && i <= |s| && n == Found(r, s, i) > 0
    ensures i + n <= |s| && FoundAt(e, r, s, i, s[i..i + n])
  {
    Matched(r, s, i);
    HitWhole(e, r, s, i, n);
  }

  /** The result at `i` is the token `q`, covering the text up to `m`, and the result there. */
  ghost predicate Steps(e: Env, r: Rule, olds: iset<string>, s: string, i: nat, ps: seq<Piece>,
                        q: Piece, m: nat, ps': seq<Piece>)
    requires i <= |s| && m <= |s|
  {
    && |ps'| < |ps| && Aligned(s, m, ps') && AllOld(olds, ps')
    && TokenFrom(e, r, olds, s, i, q) && TokenTo(e, r, olds, s, m, q)
    && Result(r, s, i, ps) == [q] + Result(r, s, m, ps')
  }

  /** The standing assumptions at position `i`. */
  ghost predicate Scene(e: Env, r: Rule, olds: iset<string>, s: string, i: nat, ps: seq<Piece>) {
    Sane(e) && WordRule(e, r) && Aligned(s, i, ps) && AllOld(olds, ps)
  }

  lemma OldSteps(r: Rule, s: string, i: nat, ps: seq<Piece>, m: nat, ps': seq<Piece>)
    requires Bare(r) && Spares(r, s) && Aligned(s, i, ps) && ps != [] && ps[0].Tok?
    requires m == i + |ps[0].p| && ps' == ps[1..]
    ensures i < m <= |s| && Aligned(s, m, ps') && s[i] == '[' && s[m - 1] == ']'
    ensures Result(r, s, i, ps) == [ps[0]] + Result(r, s, m, ps')
  {
    EndsOf(s, i, ps);
    ResultAtToken(r, s, i, ps);
  }

  lemma OldStep(e: Env, r: Rule, olds: iset<string>, s: string, i: nat, ps: seq<Piece>)
    returns (q: Piece, m: nat, ps': seq<Piece>)
    requires i <= |s| && Scene(e, r, olds, s, i, ps) && ps != [] && ps[0].Tok?
    ensures m <= |s| && Steps(e, r, olds, s, i, ps, q, m, ps')
  {
    q, m, ps' := ps[0], i + |ps[0].p|, ps[1..];
    WordSpares(e, r, s);
    OldSteps(r, s, i, ps, m, ps');
  }

  lemma NewSteps(e: Env, r: Rule, s: string, i: nat, ps: seq<Piece>, n: nat)
    returns (v: string, q: Piece, m: nat, ps': seq<Piece>)
    requires WordRule(e, r) && Aligned(s, i, ps) && ps != [] && ps[0].Raw? && i <= |s| && n == Found(r, s, i) > 0
    ensures n <= |ps| && m == i + n <= |s| && ps' == ps[n..] && v == s[i..m] && q == Tok(r.name(v), v)
    ensures Aligned(s, m, ps') && Result(r, s, i, ps) == [q] + Result(r, s, m, ps')
  {
    var v', q', rest := ResultAtFound(e, r, s, i, ps, n);
    v, q, m, ps' := v', q', i + n, ps[n..];
  }

  lemma NewStep(e: Env, r: Rule, olds: iset<string>, s: string, i: nat, ps: seq<Piece>)
    returns (q: Piece, m: nat, ps': seq<Piece>)
    requires i <= |s| && Scene(e, r, olds, s, i, ps) && ps != [] && ps[0].Raw? && Found(r, s, i) > 0
    ensures m <= |s| && Steps(e, r, olds, s, i, ps, q, m, ps')
  {
    var n := Found(r, s, i);
    var v, q', m', rest := NewSteps(e, r, s, i, ps, n);
    FoundWhole(e, r, s, i, n);
    q, m, ps' := q', m', rest;
  }

  lemma TokenStep(e: Env, r: Rule, olds: iset<string>, s: string, i: nat, ps: seq<Piece>)
    returns (q: Piece, m: nat, ps': seq<Piece>)
    requires i <= |s| && Scene(e, r, olds, s, i, ps) && ps != [] && (ps[0].Raw? ==> Found(r, s, i) > 0)
    ensures m <= |s| && Steps(e, r, olds, s, i, ps, q, m, ps')
  {
    if ps[0].Tok? {
      q, m, ps' := OldStep(e, r, olds, s, i, ps);
    } else {
      q, m, ps' := NewStep(e, r, olds, s, i, ps);
    }
  }

  /** `qs` starts with `k` plain pieces that spell `s` from `i` on, where nothing is found;
      behind them comes a token of the result, or the end of `s`. */
  ghost predicate RunOf(e: Env, r: Rule, olds: iset<string>, s: string, i: nat, qs: seq<Piece>) {
    var k := Raws(qs);
    && i + k <= |s| && (forall t :: 0 <= t < k ==> qs[t] == Raw(s[i + t]))
    && (forall j: nat :: i <= j < i + k ==> Found(r, s, j) == 0)
    && (if k == |qs| then i + k == |s| else TokenFrom(e, r, olds, s, i + k, qs[k]))
  }

  lemma RunToken(e: Env, r: Rule, olds: iset<string>, s: string, i: nat, q: Piece, rest: seq<Piece>)
    requires TokenFrom(e, r, olds, s, i, q)
    ensures RunOf(e, r, olds, s, i, [q] + rest)
  {}

  lemma RunCons(e: Env, r: Rule, olds: iset<string>, s: string, i: nat, rest: seq<Piece>)
    requires i < |s| && RunOf(e, r, olds, s, i + 1, rest) && Found(r, s, i) == 0
    ensures RunOf(e, r, olds, s, i, [Raw(s[i])] + rest)
  {
    assert ([Raw(s[i])] + rest)[1..] == rest;
  }

  lemma {:induction false} RunFacts(e: Env, r: Rule, olds: iset<string>, s: string, i: nat, ps: seq<Piece>)
    requires i <= |s| && Scene(e, r, olds, s, i, ps)
    ensures RunOf(e, r, olds, s, i, Result(r, s, i, ps))
    decreases |ps|
  {
    if ps == [] {
    } else if ps[0].Tok? || Found(r, s, i) > 0 {
      var q, m, ps' := TokenStep(e, r, olds, s, i, ps);
      RunToken(e, r, olds, s, i, q, Result(r, s, m, ps'));
    } else {
      ResultUnmatched(r, s, i, ps);
      RunFacts(e, r, olds, s, i + 1, ps[1..]);
      RunCons(e, r, olds, s, i, Result(r, s, i + 1, ps[1..]));
    }
  }

  lemma {:induction false} MaskedRun(e: Env, known: map<string, string>, qs: seq<Piece>)
    ensures var m := Masked(e, known, qs);
            var k := Raws(qs);
            && k <= |m| && (forall t :: 0 <= t < k ==> m[t] == qs[t].c)
            && (k == |qs| ==> |m| == k)
            && (k < |qs| ==>
                  k + 2 <= |m| && m[k] == Mask(e, known, qs[k].p)[0] && m[k + 1] == Mask(e, known, qs[k].p)[1])
  {
    if qs != [] && qs[0].Raw? {
      MaskedRun(e, known, qs[1..]);
    }
  }

  // ----- the right side -----

  /** What the masker knows of a token is a value with that token. */
  ghost predicate Knows(r: Rule, known: map<string, string>) {
    forall p :: p in known ==> r.fits(known[p]) && known[p] != "" && r.name(known[p]) == p
  }

  /** A mask with a NUL is that of a value. */
  lemma MaskedAs(e: Env, r: Rule, known: map<string, string>, p: string) returns (w: string)
    requires Knows(r, known) && (Mask(e, known, p)[0] == NUL || Mask(e, known, p)[1] == NUL)
    ensures p in known && w == known[p] && w != "" && r.fits(w) && r.name(w) == p && MaskOf(e, w) == Mask(e, known, p)
  {
    w := known[p];
  }

  /** The side is masked as the masker knows. */
  ghost predicate AsKnown(r: Rule, known: map<string, string>, b: Side) {
    !b.Clear? ==> r.name(b.w) in known && known[r.name(b.w)] == b.w
  }

  /** From `i` to `j` nothing is found, and at `j` stands the right side. */
  ghost predicate EndsAt(e: Env, r: Rule, s: string, j: nat, b: Side) {
    j <= |s| && if b.Placed? then FoundAt(e, r, s, j, b.u) else !WordAt(e, s, j)
  }

  lemma BehindToken(e: Env, r: Rule, olds: iset<string>, known: map<string, string>, s: string, j: nat,
                    q: Piece, v: string) returns (b: Side)
    requires Sane(e) && Knows(r, known) && v != "" && TokenFrom(e, r, olds, s, j, q) && Mask(e, known, q.p)[0] == NUL
    ensures RightSide(e, r, olds, v, b) && AsKnown(r, known, b) && !Half(b) && EndsAt(e, r, s, j, b)
  {
    var w := MaskedAs(e, r, known, q.p);
    b := Clear;
    if s[j] != '[' && e.word(s[j]) {
      assert s[j..j + |q.v|][0] == s[j];
      b := Placed(q.v, w, false);
    }
  }

  lemma IntoToken(e: Env, r: Rule, olds: iset<string>, known: map<string, string>, s: string, j: nat,
                  q: Piece, v: string) returns (b: Side)
    requires Sane(e) && Knows(r, known) && v != "" && TokenFrom(e, r, olds, s, j, q)
    requires Mask(e, known, q.p) == [v[|v| - 1], NUL]
    ensures RightSide(e, r, olds, v, b) && AsKnown(r, known, b) && Half(b) && EndsAt(e, r, s, j, b)
  {
    var w := MaskedAs(e, r, known, q.p);
    if q.p == r.name(q.v) && FoundAt(e, r, s, j, q.v) {
      b := Placed(q.v, w, true);
    } else {
      b := Standing(w);
    }
  }

  /** The shapes hold every mask of the run. */
  ghost predicate Masks(e: Env, r: Rule, shapes: set<string>) {
    "xx" in shapes && forall w :: r.fits(w) && w != "" ==> MaskOf(e, w) in shapes
  }

  /** `u` stands at `g` in `m`, with no word behind it. */
  predicate StandsAt(e: Env, m: string, g: nat, u: string) {
    g + |u| <= |m| && m[g..g + |u|] == u && !WordAt(e, m, g + |u|)
  }

  /** The masked text from `g` on is that of `qs`, which the text from `i` on became. */
  ghost predicate MaskedFrom(e: Env, r: Rule, olds: iset<string>, known: map<string, string>, s: string, i: nat,
                             qs: seq<Piece>, m: string, g: nat)
  {
    g <= |m| && m[g..] == Masked(e, known, qs) && RunOf(e, r, olds, s, i, qs) && Knows(r, known)
  }

  lemma MaskedAt(e: Env, known: map<string, string>, qs: seq<Piece>, m: string, g: nat, t: nat)
    requires g <= |m| && m[g..] == Masked(e, known, qs)
    ensures t < Raws(qs) ==> g + t < |m| && m[g + t] == qs[t].c
    ensures t == Raws(qs) < |qs| ==>
              g + t + 2 <= |m| && Mask(e, known, qs[t].p) == [m[g + t], m[g + t + 1]]
    ensures t == Raws(qs) == |qs| ==> g + t == |m|
  {
    MaskedRun(e, known, qs);
    if t < Raws(qs) { assert m[g + t] == m[g..][t]; }
    if t == Raws(qs) < |qs| { assert m[g + t] == m[g..][t] && m[g + t + 1] == m[g..][t + 1]; }
  }

  /** The plain part spells the text. */
  lemma SpellsText(e: Env, r: Rule, olds: iset<string>, known: map<string, string>, s: string, i: nat,
                   qs: seq<Piece>, m: string, g: nat, u: string, n: nat)
    requires MaskedFrom(e, r, olds, known, s, i, qs, m, g) && StandsAt(e, m, g, u) && n <= |u| && n <= Raws(qs)
    ensures i + n <= |s| && s[i..i + n] == u[..n] && forall j: nat :: i <= j < i + n ==> Found(r, s, j) == 0
  {
    forall t: nat | t < n ensures s[i + t] == u[t] {
      MaskedAt(e, known, qs, m, g, t);
      assert u[t] == m[g..g + |u|][t];
    }
  }

  /** Two characters of `u` are no mask. */
  lemma NoMaskInside(e: Env, r: Rule, olds: iset<string>, known: map<string, string>, shapes: set<string>, s: string,
                     i: nat, qs: seq<Piece>, m: string, g: nat, u: string)
    requires MaskedFrom(e, r, olds, known, s, i, qs, m, g) && StandsAt(e, m, g, u)
    requires Masks(e, r, shapes) && Maskless(shapes, u) && |u| >= 2
    ensures |u| - 1 <= Raws(qs)
  {
    var k := Raws(qs);
    if k + 1 < |u| {
      MaskedAt(e, known, qs, m, g, k);
      assert u[k] == m[g..g + |u|][k] && u[k + 1] == m[g..g + |u|][k + 1];
      MaskIn(e, r, known, shapes, qs[k].p);
    }
  }

  lemma MaskIn(e: Env, r: Rule, known: map<string, string>, shapes: set<string>, p: string)
    requires Masks(e, r, shapes) && Knows(r, known)
    ensures Mask(e, known, p) in shapes
  {
    if p in known { assert Mask(e, known, p) == MaskOf(e, known[p]); }
  }

  /** The value ends in plain text. */
  lemma EndsPlain(e: Env, r: Rule, olds: iset<string>, known: map<string, string>, s: string, i: nat,
                  qs: seq<Piece>, m: string, g: nat, u: string) returns (b: Side)
    requires Sane(e) && MaskedFrom(e, r, olds, known, s, i, qs, m, g) && StandsAt(e, m, g, u)
    requires u != "" && |u| <= Raws(qs)
    ensures RightSide(e, r, olds, u, b) && AsKnown(r, known, b) && !Half(b) && EndsAt(e, r, s, i + |u|, b)
  {
    MaskedAt(e, known, qs, m, g, |u|);
    if |u| == Raws(qs) < |qs| {
      MaskChars(e, known, qs[|u|].p);
      b := BehindToken(e, r, olds, known, s, i + |u|, qs[|u|], u);
    } else {
      b := Clear;
    }
  }

  /** The value ends in the middle of a mask. */
  lemma EndsHalf(e: Env, r: Rule, olds: iset<string>, known: map<string, string>, s: string, i: nat,
                 qs: seq<Piece>, m: string, g: nat, u: string) returns (b: Side)
    requires Sane(e) && MaskedFrom(e, r, olds, known, s, i, qs, m, g) && StandsAt(e, m, g, u)
    requires |u| == Raws(qs) + 1
    ensures RightSide(e, r, olds, u, b) && AsKnown(r, known, b) && Half(b) && EndsAt(e, r, s, i + |u| - 1, b)
  {
    var k := Raws(qs);
    MaskedAt(e, known, qs, m, g, k);
    MaskChars(e, known, qs[k].p);
    assert u[k] == m[g..g + |u|][k];
    b := IntoToken(e, r, olds, known, s, i + k, qs[k], u);
  }

  lemma RightOf(e: Env, r: Rule, olds: iset<string>, known: map<string, string>, shapes: set<string>, s: string,
                i: nat, qs: seq<Piece>, m: string, g: nat, u: string) returns (b: Side, n: nat)
    requires Sane(e) && MaskedFrom(e, r, olds, known, s, i, qs, m, g) && StandsAt(e, m, g, u)
    requires Masks(e, r, shapes) && Maskless(shapes, u) && |u| >= 2
    ensures RightSide(e, r, olds, u, b) && AsKnown(r, known, b) && n == (if Half(b) then |u| - 1 else |u|)
    ensures i + n <= |s| && s[i..i + n] == u[..n] && forall j: nat :: i <= j < i + n ==> Found(r, s, j) == 0
    ensures EndsAt(e, r, s, i + n, b)
  {
    NoMaskInside(e, r, olds, known, shapes, s, i, qs, m, g, u);
    if |u| <= Raws(qs) {
      n := |u|;
      b := EndsPlain(e, r, olds, known, s, i, qs, m, g, u);
    } else {
      n := |u| - 1;
      b := EndsHalf(e, r, olds, known, s, i, qs, m, g, u);
    }
    SpellsText(e, r, olds, known, s, i, qs, m, g, u, n);
  }

  // ----- the left side -----

  /** In front of `i` stands the left side. */
  ghost predicate StartsAt(e: Env, r: Rule, s: string, i: nat, a: Side) {
    i <= |s| && if a.Placed? then |a.u| <= i && FoundAt(e, r, s, i - |a.u|, a.u) else !WordAt(e, s, i - 1)
  }

  lemma LastFound(e: Env, r: Rule, s: string, i: nat, u: string)
    requires |u| <= i && FoundAt(e, r, s, i - |u|, u)
    ensures 0 < i <= |s| && s[i - 1] == u[|u| - 1]
  {
    assert s[i - 1] == s[i - |u|..i][|u| - 1];
  }

  /** A value starts behind a token. */
  lemma FromBehind(e: Env, r: Rule, olds: iset<string>, known: map<string, string>, s: string, i: nat,
                   q: Piece, v: string) returns (a: Side)
    requires Sane(e) && Knows(r, known) && v != "" && TokenTo(e, r, olds, s, i, q) && Mask(e, known, q.p)[1] == NUL
    ensures LeftSide(e, r, olds, v, a) && AsKnown(r, known, a) && !Half(a) && StartsAt(e, r, s, i, a)
  {
    var w := MaskedAs(e, r, known, q.p);
    a := Clear;
    if s[i - 1] != ']' && e.word(s[i - 1]) {
      LastFound(e, r, s, i, q.v);
      a := Placed(q.v, w, false);
    }
  }

  /** A value starts in the middle of a mask. */
  lemma FromMiddle(e: Env, r: Rule, olds: iset<string>, known: map<string, string>, s: string, i: nat,
                   q: Piece, v: string) returns (a: Side)
    requires Sane(e) && Knows(r, known) && v != "" && TokenTo(e, r, olds, s, i, q)
    requires Mask(e, known, q.p) == [NUL, v[0]]
    ensures LeftSide(e, r, olds, v, a) && AsKnown(r, known, a) && Half(a) && StartsAt(e, r, s, i, a)
  {
    var w := MaskedAs(e, r, known, q.p);
    if q.p == r.name(q.v) && |q.v| <= i && FoundAt(e, r, s, i - |q.v|, q.v) {
      a := Placed(q.v, w, true);
    } else {
      a := Standing(w);
    }
  }

  /** What stands in front of `g` in the masked text, and of `i` in the text: the mask of a
      token, or two characters that are words alike. */
  ghost predicate Prior(e: Env, r: Rule, olds: iset<string>, known: map<string, string>, s: string, i: nat,
                        m: string, g: nat, q: Piece)
  {
    if q.Raw? then WordAt(e, m, g - 1) == WordAt(e, s, i - 1)
    else TokenTo(e, r, olds, s, i, q) && 2 <= g <= |m| && Mask(e, known, q.p) == [m[g - 2], m[g - 1]]
  }

  lemma LeftClear(e: Env, r: Rule, olds: iset<string>, known: map<string, string>, s: string, i: nat,
                  m: string, g: nat, q: Piece, v: string) returns (a: Side)
    requires Sane(e) && Knows(r, known) && v != "" && Prior(e, r, olds, known, s, i, m, g, q) && i <= |s|
    requires !WordAt(e, m, g - 1)
    ensures LeftSide(e, r, olds, v, a) && AsKnown(r, known, a) && !Half(a) && StartsAt(e, r, s, i, a)
  {
    if q.Raw? {
      a := Clear;
    } else {
      MaskChars(e, known, q.p);
      a := FromBehind(e, r, olds, known, s, i, q, v);
    }
  }

  lemma LeftHalf(e: Env, r: Rule, olds: iset<string>, known: map<string, string>, s: string, i: nat,
                 m: string, g: nat, q: Piece, v: string) returns (a: Side)
    requires Sane(e) && Knows(r, known) && v != "" && Prior(e, r, olds, known, s, i, m, g, q) && q.Tok?
    requires !WordAt(e, m, g - 2) && m[g - 1] == v[0]
    ensures LeftSide(e, r, olds, v, a) && AsKnown(r, known, a) && Half(a) && StartsAt(e, r, s, i, a)
  {
    MaskChars(e, known, q.p);
    a := FromMiddle(e, r, olds, known, s, i, q, v);
  }

  // ----- both sides -----

  lemma SliceSlice(s: string, x: nat, y: nat, i: nat, j: nat)
    requires x <= y <= |s| && i <= j <= y - x
    ensures s[x..y][i..j] == s[x + i..x + j]
  {
    forall k | 0 <= k < j - i ensures s[x..y][i..j][k] == s[x + i..x + j][k] {}
  }

  /** A stretch of `s` between non-words has its whole words where `s` has them. */
  lemma Inside(e: Env, s: string, x: nat, y: nat, z: string, w: string, t: nat, k: nat)
    requires x <= y <= |s| && s[x..y] == z && !WordAt(e, s, x - 1) && !WordAt(e, s, y)
    requires k == x + t && t + |w| <= |z|
    ensures Whole(e, z, w, t) <==> Whole(e, s, w, k)
  {
    SliceSlice(s, x, y, t, t + |w|);
    assert 0 < t ==> z[t - 1] == s[k - 1];
    assert t + |w| < |z| ==> z[t + |w|] == s[k + |w|];
  }

  lemma WholeInside(e: Env, s: string, x: nat, y: nat, z: string, w: string, t: nat, k: nat)
    requires x <= y <= |s| && s[x..y] == z && !WordAt(e, s, x - 1) && !WordAt(e, s, y) && k == x + t
    requires w != "" && Whole(e, z, w, t)
    ensures Whole(e, s, w, k) && k < y
  {
    Inside(e, s, x, y, z, w, t, k);
  }

  lemma NoneFound(e: Env, r: Rule, s: string, j: nat, w: string)
    requires WordRule(e, r) && j <= |s| && r.fits(w) && Whole(e, s, w, j)
    ensures |w| <= Found(r, s, j)
  {
    Matched(r, s, j);
    assert Hit(r, s, j, |w|);
  }

  lemma ThreeParts(s: string, x: nat, i: nat, j: nat, y: nat)
    requires x <= i <= j <= y <= |s|
    ensures s[x..y] == s[x..i] + s[i..j] + s[j..y]
  {}

  lemma PlacedFound(e: Env, r: Rule, s: string, x: nat, i: nat, j: nat, y: nat, w: string, k: nat,
                    l: nat, mid: nat, h: nat, t: nat)
    requires WordRule(e, r) && i == x + l && j == i + mid && y == j + h && y <= |s| && k == x + t && k < y
    requires (0 < l ==> Found(r, s, x) == l) && (0 < h ==> Found(r, s, j) == h)
    requires forall t: nat :: i <= t < j ==> Found(r, s, t) == 0
    requires r.fits(w) && Whole(e, s, w, k)
    ensures Aside(l, mid, h, |w|, t)
  {
    NoneFound(e, r, s, k, w);
  }

  /** The stretch of the text that holds both flanks and the middle. */
  ghost predicate Stretch(e: Env, r: Rule, s: string, x: nat, i: nat, j: nat, y: nat, a: Side, b: Side) {
    && x <= i <= j <= y <= |s| && i - x == |Flank(a)| && y - j == |Flank(b)|
    && StartsAt(e, r, s, i, a) && EndsAt(e, r, s, j, b)
    && forall t: nat :: i <= t < j ==> Found(r, s, t) == 0
  }

  lemma StretchLeft(e: Env, r: Rule, s: string, x: nat, i: nat, j: nat, y: nat, a: Side, b: Side)
    requires Stretch(e, r, s, x, i, j, y, a, b)
    ensures s[x..i] == Flank(a) && !WordAt(e, s, x - 1)
    ensures Flank(a) != "" ==> Found(r, s, x) == |Flank(a)| && Whole(e, s, Flank(a), x)
  {}

  lemma StretchRight(e: Env, r: Rule, s: string, x: nat, i: nat, j: nat, y: nat, a: Side, b: Side)
    requires Stretch(e, r, s, x, i, j, y, a, b)
    ensures s[j..y] == Flank(b) && !WordAt(e, s, y)
    ensures Flank(b) != "" ==> Found(r, s, j) == |Flank(b)| && Whole(e, s, Flank(b), j)
  {}

  lemma StretchWhole(e: Env, r: Rule, s: string, x: nat, i: nat, j: nat, y: nat, z: string,
                     l: nat, mid: nat, h: nat, w: string, t: nat)
    requires WordRule(e, r) && i == x + l && j == i + mid && y == j + h && y <= |s| && z == s[x..y]
    requires !WordAt(e, s, x - 1) && !WordAt(e, s, y)
    requires (0 < l ==> Found(r, s, x) == l) && (0 < h ==> Found(r, s, j) == h)
    requires forall t: nat :: i <= t < j ==> Found(r, s, t) == 0
    requires r.fits(w) && w != "" && Whole(e, z, w, t)
    ensures Aside(l, mid, h, |w|, t)
  {
    var k := x + t;
    WholeInside(e, s, x, y, z, w, t, k);
    PlacedFound(e, r, s, x, i, j, y, w, k, l, mid, h, t);
  }

  lemma StretchFlanks(e: Env, r: Rule, s: string, x: nat, i: nat, j: nat, y: nat, a: Side, b: Side, z: string, t: nat)
    requires Stretch(e, r, s, x, i, j, y, a, b) && z == s[x..y] && t == |Flank(a)| + (j - i)
    ensures Flank(a) != "" ==> Whole(e, z, Flank(a), 0)
    ensures Flank(b) != "" ==> Whole(e, z, Flank(b), t)
  {
    StretchLeft(e, r, s, x, i, j, y, a, b);
    StretchRight(e, r, s, x, i, j, y, a, b);
    Inside(e, s, x, y, z, Flank(a), 0, x);
    Inside(e, s, x, y, z, Flank(b), t, j);
  }

  lemma LeavesBy(e: Env, r: Rule, z: string, l: string, mid: nat, h: string, t: nat)
    requires t == |l| + mid && (l != "" ==> Whole(e, z, l, 0)) && (h != "" ==> Whole(e, z, h, t))
    requires forall w, t: nat :: r.fits(w) && Whole(e, z, w, t) ==> Aside(|l|, mid, |h|, |w|, t)
    ensures Leaves(e, r, z, l, mid, h)
  {}

  lemma StretchLeaves(e: Env, r: Rule, s: string, x: nat, i: nat, j: nat, y: nat, a: Side, b: Side, z: string, n: nat)
    requires WordRule(e, r) && Stretch(e, r, s, x, i, j, y, a, b) && z == s[x..y] && n == j - i
    ensures Leaves(e, r, z, Flank(a), n, Flank(b))
  {
    var t := |Flank(a)| + n;
    StretchFlanks(e, r, s, x, i, j, y, a, b, z, t);
    StretchWords(e, r, s, x, i, j, y, a, b, z, |Flank(a)|, n, |Flank(b)|);
    LeavesBy(e, r, z, Flank(a), n, Flank(b), t);
  }

  lemma StretchParts(e: Env, r: Rule, s: string, x: nat, i: nat, j: nat, y: nat, a: Side, b: Side)
    requires Stretch(e, r, s, x, i, j, y, a, b)
    ensures s[x..y] == Flank(a) + s[i..j] + Flank(b)
  {
    StretchLeft(e, r, s, x, i, j, y, a, b);
    StretchRight(e, r, s, x, i, j, y, a, b);
    ThreeParts(s, x, i, j, y);
  }

  lemma StretchWords(e: Env, r: Rule, s: string, x: nat, i: nat, j: nat, y: nat, a: Side, b: Side, z: string,
                     l: nat, mid: nat, h: nat)
    requires WordRule(e, r) && Stretch(e, r, s, x, i, j, y, a, b) && z == s[x..y]
    requires l == |Flank(a)| && mid == j - i && h == |Flank(b)|
    ensures forall w, t: nat :: r.fits(w) && Whole(e, z, w, t) ==> Aside(l, mid, h, |w|, t)
  {
    StretchLeft(e, r, s, x, i, j, y, a, b);
    StretchRight(e, r, s, x, i, j, y, a, b);
    forall w, t: nat | r.fits(w) && Whole(e, z, w, t) ensures Aside(l, mid, h, |w|, t) {
      StretchWhole(e, r, s, x, i, j, y, z, l, mid, h, w, t);
    }
  }

  lemma Bounds(e: Env, r: Rule, s: string, i: nat, j: nat, a: Side, b: Side) returns (x: nat, y: nat)
    requires i <= j && StartsAt(e, r, s, i, a) && EndsAt(e, r, s, j, b)
    requires forall t: nat :: i <= t < j ==> Found(r, s, t) == 0
    ensures Stretch(e, r, s, x, i, j, y, a, b)
  {
    x, y := i - |Flank(a)|, j + |Flank(b)|;
  }

  lemma LeavesBetweenIs(e: Env, r: Rule, a: Side, b: Side, z: string, mid: string, n: nat)
    requires z == Flank(a) + mid + Flank(b) && n == |mid| && Leaves(e, r, z, Flank(a), n, Flank(b))
    ensures LeavesBetween(e, r, a, b, mid)
  {}

  lemma StretchOf(e: Env, r: Rule, s: string, i: nat, j: nat, a: Side, b: Side, mid: string)
    requires WordRule(e, r) && i <= j && StartsAt(e, r, s, i, a) && EndsAt(e, r, s, j, b) && mid == s[i..j]
    requires forall t: nat :: i <= t < j ==> Found(r, s, t) == 0
    ensures LeavesBetween(e, r, a, b, mid)
  {
    var x, y := Bounds(e, r, s, i, j, a, b);
    StretchParts(e, r, s, x, i, j, y, a, b);
    StretchLeaves(e, r, s, x, i, j, y, a, b, s[x..y], j - i);
    LeavesBetweenIs(e, r, a, b, s[x..y], mid, j - i);
  }

  lemma SidesRead(e: Env, r: Rule, olds: iset<string>, known: map<string, string>, v: string, a: Side, b: Side)
    requires r.fits(v) && |v| >= 2 && LeftSide(e, r, olds, v, a) && RightSide(e, r, olds, v, b)
    requires AsKnown(r, known, a) && AsKnown(r, known, b) && LeavesBetween(e, r, a, b, Middle(v, a, b))
    ensures Misread(e, r, olds, v)
  {
    assert Reads(e, r, olds, v, a, b);
  }

  // ----- where the value starts -----

  lemma ReadFrom(e: Env, r: Rule, olds: iset<string>, known: map<string, string>, shapes: set<string>, s: string,
                 i: nat, qs: seq<Piece>, m: string, g: nat, q: Piece, v: string)
    requires Sane(e) && WordRule(e, r) && MaskedFrom(e, r, olds, known, s, i, qs, m, g)
    requires Masks(e, r, shapes) && Immune(shapes, v) && r.fits(v)
    requires Prior(e, r, olds, known, s, i, m, g, q) && Whole(e, m, v, g) && i <= |s|
    ensures Misread(e, r, olds, v)
  {
    var a := LeftClear(e, r, olds, known, s, i, m, g, q, v);
    var b, n := RightOf(e, r, olds, known, shapes, s, i, qs, m, g, v);
    StretchOf(e, r, s, i, i + n, a, b, Middle(v, a, b));
    SidesRead(e, r, olds, known, v, a, b);
  }

  lemma HalfStands(e: Env, m: string, g: nat, v: string, u: string, j: nat)
    requires g == j + 1 && Whole(e, m, v, j) && |v| >= 2 && u == v[1..]
    ensures StandsAt(e, m, g, u) && m[g - 1] == v[0] && !WordAt(e, m, g - 2)
  {
    assert m[j..j + |v|][1..] == m[g..g + |u|];
  }

  lemma HalfMaskless(shapes: set<string>, v: string, u: string)
    requires Immune(shapes, v) && u == v[1..]
    ensures Maskless(shapes, u)
  {
    forall k | 0 <= k < |u| - 1 ensures [u[k], u[k + 1]] !in shapes { assert u[k] == v[k + 1] && u[k + 1] == v[k + 2]; }
  }

  lemma HalfMiddle(v: string, u: string, a: Side, b: Side, n: nat)
    requires |v| >= 2 && u == v[1..] && Half(a) && n == (if Half(b) then |u| - 1 else |u|)
    ensures u[..n] == Middle(v, a, b)
  {}

  lemma RightOfHalf(e: Env, r: Rule, olds: iset<string>, v: string, u: string, b: Side)
    requires |v| >= 2 && u == v[1..] && RightSide(e, r, olds, u, b)
    ensures RightSide(e, r, olds, v, b)
  {
    assert u[|u| - 1] == v[|v| - 1];
  }

  lemma HalfLeft(e: Env, r: Rule, olds: iset<string>, known: map<string, string>, shapes: set<string>, s: string,
                 i: nat, m: string, g: nat, q: Piece, v: string, j: nat) returns (a: Side, u: string)
    requires Sane(e) && Knows(r, known) && Immune(shapes, v)
    requires Prior(e, r, olds, known, s, i, m, g, q) && q.Tok? && g == j + 1 && Whole(e, m, v, j)
    ensures LeftSide(e, r, olds, v, a) && AsKnown(r, known, a) && Half(a) && StartsAt(e, r, s, i, a)
    ensures u == v[1..] && |u| >= 2 && Maskless(shapes, u) && StandsAt(e, m, g, u)
  {
    u := v[1..];
    HalfStands(e, m, g, v, u, j);
    HalfMaskless(shapes, v, u);
    a := LeftHalf(e, r, olds, known, s, i, m, g, q, v);
  }

  lemma ReadFromHalf(e: Env, r: Rule, olds: iset<string>, known: map<string, string>, shapes: set<string>, s: string,
                     i: nat, qs: seq<Piece>, m: string, g: nat, q: Piece, v: string, j: nat)
    requires Sane(e) && WordRule(e, r) && MaskedFrom(e, r, olds, known, s, i, qs, m, g)
    requires Masks(e, r, shapes) && Immune(shapes, v) && r.fits(v)
    requires Prior(e, r, olds, known, s, i, m, g, q) && q.Tok? && g == j + 1 && Whole(e, m, v, j)
    ensures Misread(e, r, olds, v)
  {
    var a, u := HalfLeft(e, r, olds, known, shapes, s, i, m, g, q, v, j);
    var b, n := RightOf(e, r, olds, known, shapes, s, i, qs, m, g, u);
    HalfMiddle(v, u, a, b, n);
    RightOfHalf(e, r, olds, v, u, b);
    StretchOf(e, r, s, i, i + n, a, b, Middle(v, a, b));
    SidesRead(e, r, olds, known, v, a, b);
  }

  lemma MaskedCons(e: Env, known: map<string, string>, q: Piece, qs: seq<Piece>)
    ensures Masked(e, known, [q] + qs) == MaskPiece(e, known, q) + Masked(e, known, qs)
  {
    assert ([q] + qs)[1..] == qs;
  }

  lemma DropMask(m: string, g: nat, head: string, rest: string)
    requires g <= |m| && m[g..] == head + rest
    ensures g + |head| <= |m| && m[g + |head|..] == rest && forall t :: 0 <= t < |head| ==> m[g + t] == head[t]
  {
    DropDrop(m, g, g + |head|);
    assert forall t :: 0 <= t < |head| ==> m[g + t] == m[g..][t];
  }

  lemma SplitMask(e: Env, known: map<string, string>, q: Piece, rest: seq<Piece>, m: string, g: nat)
    requires q.Tok? && g <= |m| && m[g..] == Masked(e, known, [q] + rest)
    ensures g + 2 <= |m| && m[g + 2..] == Masked(e, known, rest) && Mask(e, known, q.p) == [m[g], m[g + 1]]
  {
    MaskedCons(e, known, q, rest);
    DropMask(m, g, Mask(e, known, q.p), Masked(e, known, rest));
    assert m[g + 1] == Mask(e, known, q.p)[1];
  }

  /** A value that starts at the first character of a mask holds it. */
  lemma WholeAtMask(e: Env, r: Rule, known: map<string, string>, shapes: set<string>, p: string, m: string, g: nat,
                    v: string)
    requires Masks(e, r, shapes) && Knows(r, known) && Whole(e, m, v, g)
    requires g + 2 <= |m| && Mask(e, known, p) == [m[g], m[g + 1]]
    ensures !Immune(shapes, v)
  {
    MaskIn(e, r, known, shapes, p);
    if |v| >= 2 { assert v[0] == m[g..g + |v|][0] && v[1] == m[g..g + |v|][1]; }
  }

  /** What the search for the value takes as given. */
  ghost predicate Search(e: Env, r: Rule, known: map<string, string>, shapes: set<string>, v: string) {
    Masks(e, r, shapes) && Knows(r, known) && Immune(shapes, v) && r.fits(v)
  }

  /** The masked text from `g` on is that of the result at `i`. */
  ghost predicate MaskedResult(e: Env, r: Rule, known: map<string, string>, s: string, i: nat, ps: seq<Piece>,
                               m: string, g: nat)
  {
    i <= |s| && g <= |m| && m[g..] == Masked(e, known, Result(r, s, i, ps))
  }

  lemma AfterPlain(e: Env, r: Rule, known: map<string, string>, s: string, i: nat, ps: seq<Piece>, m: string, g: nat)
    requires MaskedResult(e, r, known, s, i, ps, m, g) && Aligned(s, i, ps)
    requires ps != [] && ps[0].Raw? && Found(r, s, i) == 0
    ensures i < |s| && Aligned(s, i + 1, ps[1..]) && MaskedResult(e, r, known, s, i + 1, ps[1..], m, g + 1)
    ensures m[g] == s[i]
  {
    ResultUnmatched(r, s, i, ps);
    var rest := Result(r, s, i + 1, ps[1..]);
    MaskedCons(e, known, ps[0], rest);
    DropMask(m, g, [s[i]], Masked(e, known, rest));
  }

  lemma AfterToken(e: Env, r: Rule, olds: iset<string>, known: map<string, string>, s: string, i: nat, ps: seq<Piece>,
                   m: string, g: nat) returns (q: Piece, i': nat, ps': seq<Piece>)
    requires MaskedResult(e, r, known, s, i, ps, m, g) && Scene(e, r, olds, s, i, ps)
    requires ps != [] && (ps[0].Raw? ==> Found(r, s, i) > 0)
    ensures g + 2 <= |m| && MaskedResult(e, r, known, s, i', ps', m, g + 2) && |ps'| < |ps|
    ensures Scene(e, r, olds, s, i', ps') && Prior(e, r, olds, known, s, i', m, g + 2, q) && q.Tok?
    ensures Mask(e, known, q.p) == [m[g], m[g + 1]]
  {
    q, i', ps' := TokenStep(e, r, olds, s, i, ps);
    SplitMask(e, known, q, Result(r, s, i', ps'), m, g);
  }

  lemma PastToken(e: Env, r: Rule, olds: iset<string>, known: map<string, string>, shapes: set<string>, s: string,
                  i: nat, ps: seq<Piece>, m: string, g: nat, v: string, j: nat)
    returns (q: Piece, i': nat, ps': seq<Piece>, g': nat)
    requires Scene(e, r, olds, s, i, ps) && Search(e, r, known, shapes, v) && MaskedResult(e, r, known, s, i, ps, m, g)
    requires ps != [] && (ps[0].Raw? ==> Found(r, s, i) > 0) && Whole(e, m, v, j) && g <= j
    ensures g' <= j + 1 && MaskedResult(e, r, known, s, i', ps', m, g') && |ps'| < |ps|
    ensures Scene(e, r, olds, s, i', ps') && Prior(e, r, olds, known, s, i', m, g', q) && q.Tok?
  {
    q, i', ps' := AfterToken(e, r, olds, known, s, i, ps, m, g);
    g' := g + 2;
    if j == g { WholeAtMask(e, r, known, shapes, q.p, m, g, v); }
  }

  lemma PastPlain(e: Env, r: Rule, olds: iset<string>, known: map<string, string>, s: string, i: nat, ps: seq<Piece>,
                  m: string, g: nat) returns (i': nat, ps': seq<Piece>, g': nat)
    requires Scene(e, r, olds, s, i, ps) && MaskedResult(e, r, known, s, i, ps, m, g)
    requires ps != [] && ps[0].Raw? && Found(r, s, i) == 0
    ensures g' == g + 1 && MaskedResult(e, r, known, s, i', ps', m, g') && |ps'| < |ps|
    ensures Scene(e, r, olds, s, i', ps') && Prior(e, r, olds, known, s, i', m, g', ps[0])
  {
    AfterPlain(e, r, known, s, i, ps, m, g);
    i', ps', g' := i + 1, ps[1..], g + 1;
  }

  lemma ReadHere(e: Env, r: Rule, olds: iset<string>, known: map<string, string>, shapes: set<string>, s: string,
                 i: nat, ps: seq<Piece>, m: string, g: nat, q: Piece, v: string)
    requires Scene(e, r, olds, s, i, ps) && Search(e, r, known, shapes, v)
    requires MaskedResult(e, r, known, s, i, ps, m, g) && Prior(e, r, olds, known, s, i, m, g, q) && Whole(e, m, v, g)
    ensures Misread(e, r, olds, v)
  {
    RunFacts(e, r, olds, s, i, ps);
    ReadFrom(e, r, olds, known, shapes, s, i, Result(r, s, i, ps), m, g, q, v);
  }

  lemma HalfHere(e: Env, r: Rule, olds: iset<string>, known: map<string, string>, shapes: set<string>, s: string,
                 i: nat, ps: seq<Piece>, m: string, g: nat, q: Piece, v: string, j: nat)
    requires Scene(e, r, olds, s, i, ps) && Search(e, r, known, shapes, v)
    requires MaskedResult(e, r, known, s, i, ps, m, g) && Prior(e, r, olds, known, s, i, m, g, q) && q.Tok?
    requires g == j + 1 && Whole(e, m, v, j)
    ensures Misread(e, r, olds, v)
  {
    RunFacts(e, r, olds, s, i, ps);
    ReadFromHalf(e, r, olds, known, shapes, s, i, Result(r, s, i, ps), m, g, q, v, j);
  }

  /** A value that stands in the masked rest, or reaches back into the mask before it, can be
      misread. */
  lemma {:induction false} Located(e: Env, r: Rule, olds: iset<string>, known: map<string, string>, shapes: set<string>,
                                   s: string, i: nat, ps: seq<Piece>, m: string, g: nat, q: Piece, v: string, j: nat)
    requires Scene(e, r, olds, s, i, ps) && Search(e, r, known, shapes, v)
    requires MaskedResult(e, r, known, s, i, ps, m, g) && Prior(e, r, olds, known, s, i, m, g, q)
    requires Whole(e, m, v, j) && (g <= j || (q.Tok? && g == j + 1))
    ensures Misread(e, r, olds, v)
    decreases |ps|
  {
    if j < g {
      HalfHere(e, r, olds, known, shapes, s, i, ps, m, g, q, v, j);
    } else if ps == [] {
    } else if ps[0].Tok? || Found(r, s, i) > 0 {
      var q', i', ps', g' := PastToken(e, r, olds, known, shapes, s, i, ps, m, g, v, j);
      Located(e, r, olds, known, shapes, s, i', ps', m, g', q', v, j);
    } else if j == g {
      ReadHere(e, r, olds, known, shapes, s, i, ps, m, g, q, v);
    } else {
      var i', ps', g' := PastPlain(e, r, olds, known, s, i, ps, m, g);
      Located(e, r, olds, known, shapes, s, i', ps', m, g', ps[0], v, j);
    }
  }

  // ----- the check passes -----

  /** A value with nothing of note on either side is found, not misread. */
  lemma ClearSides(e: Env, r: Rule, olds: iset<string>, v: string)
    ensures !Reads(e, r, olds, v, Clear, Clear)
  {
    var z := "" + v + "";
    assert z == v && (|v| >= 2 ==> Middle(v, Clear, Clear) == v);
    assert Whole(e, z, v, 0);
    assert v != "" ==> !Aside(0, |v|, 0, |v|, 0);
  }

  /** The survivor check finds only values that can be misread: in the masked output of the
      entity pass no other value stands as a whole word. */
  lemma NoSurvivor(e: Env, r: Rule, olds: iset<string>, known: map<string, string>, shapes: set<string>, ps: seq<Piece>,
                   v: string, j: nat)
    requires Sane(e) && WordRule(e, r) && Names(r) && Clean(ps) && AllOld(olds, ps)
    requires Search(e, r, known, shapes, v) && !Misread(e, r, olds, v)
    ensures !Whole(e, Stripped(e, known, PassText(r, Render(ps))), v, j)
  {
    var s := Render(ps);
    assert Spares(r, s);
    var qs := RulePass(r, ps);
    StrippedPieces(e, known, qs);
    assert ps[..0] == [] && ps[0..] == ps;
    CleanAligned(ps, 0, 0);
    var m := Masked(e, known, qs);
    assert m[0..] == m;
    if Whole(e, m, v, j) { Located(e, r, olds, known, shapes, s, 0, ps, m, 0, Raw(' '), v, j); }
  }
}
