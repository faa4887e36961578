/** Values that the check finds where they do not stand: next to the token of another value
    whose mask has other edges, or half in the mask of a token. Some clean text is rejected
    exactly when one of the values can be misread so. */
module Misreadings {
  import opened Lexer
  import opened Pieces
  import opened Cuts
  import opened Matching
  import opened Rules
  import opened Hosts
  import opened Survivors
  import opened Reveal
  import opened Anonymizer
  import opened Barriers
  import opened RoundTrip
  import opened Limits
  import Lookalikes

  // ----- a text in which the value is misread -----

  /** One side of the value in the text, and what the pass makes of it. */
  function SideText(r: Rule, a: Side): string {
    match a case Clear => "" case Placed(u, _, _) => u case Standing(w) => r.name(w)
  }

  function SidePieces(r: Rule, a: Side): seq<Piece> {
    match a case Clear => [] case Placed(u, _, _) => Plain(u) case Standing(w) => [Tok(r.name(w), " ")]
  }

  function SideResult(r: Rule, a: Side): seq<Piece> {
    match a case Clear => [] case Placed(u, _, _) => [Tok(r.name(u), u)] case Standing(w) => [Tok(r.name(w), " ")]
  }

  /** Behind a barrier, the value that settles the mask of the side. */
  function Settle(a: Side, c: char): string { if a.Clear? then "" else [c] + a.w }

  function SettleSwaps(r: Rule, a: Side): seq<(string, string)> { if a.Clear? then [] else [(r.name(a.w), a.w)] }

  /** The text of the sides with the middle of the value between them, and of what settles
      their masks. */
  function MisleadingPieces(r: Rule, a: Side, mid: string, b: Side, t: string): seq<Piece> {
    SidePieces(r, a) + (Plain(mid) + (SidePieces(r, b) + Plain(t)))
  }

  // ----- the masks it settles -----

  lemma ValueAlone(e: Env, r: Rule, w: string)
    requires WordRule(e, r) && r.fits(w)
    ensures PassText(r, w) == r.name(w) && PassSwaps(r, w) == [(r.name(w), w)]
  {
    assert w[0..0 + |w|] == w && !WordAt(e, w, 0 - 1) && !WordAt(e, w, 0 + |w|);
    Matched(r, w, 0);
    assert Hit(r, w, 0, |w|);
    NoTokenFirst(w, r);
    OnwardsStep(r, w, 0, Swap(|w|, r.name(w)));
    OnwardsIs(r, w, 0);
    assert r.name(w) + "" == r.name(w) && [(r.name(w), w)] + [] == [(r.name(w), w)];
  }

  lemma NoTokenFirst(w: string, r: Rule)
    requires Bare(r) && r.fits(w) && w != ""
    ensures !InToken(w, 0)
  {
    assert w[0..] == w && w[0] != '[';
    NoBracketNoAtom(w);
  }

  lemma KnownLast(xs: seq<(string, string)>, p: string, w: string)
    ensures KnownOf(xs + [(p, w)]) == KnownOf(xs)[p := w]
  {
    assert (xs + [(p, w)])[..|xs|] == xs;
  }

  lemma SettleValue(e: Env, r: Rule, x: string, w: string, c: char, s: string)
    requires Sane(e) && WordRule(e, r) && Lookarounds(e, r) && KeepsApart(e, r, c) && r.fits(w) && s == x + ([c] + w)
    ensures PassSwaps(r, s) == PassSwaps(r, x) + [(r.name(w), w)]
  {
    Assoc(x, [c], w);
    BarrierPass(e, r, x, c, w);
    ValueAlone(e, r, w);
  }

  lemma SettleSide(e: Env, r: Rule, x: string, a: Side, c: char, s: string)
    requires Sane(e) && WordRule(e, r) && Lookarounds(e, r) && KeepsApart(e, r, c) && (!a.Clear? ==> r.fits(a.w))
    requires s == x + Settle(a, c)
    ensures PassSwaps(r, s) == PassSwaps(r, x) + SettleSwaps(r, a)
  {
    if a.Clear? {
      assert s == x && PassSwaps(r, x) + [] == PassSwaps(r, x);
    } else {
      SettleValue(e, r, x, a.w, c, s);
    }
  }

  lemma SettledKnown(r: Rule, xs: seq<(string, string)>, a: Side, known: map<string, string>)
    requires known == KnownOf(xs + SettleSwaps(r, a)) && !a.Clear?
    ensures AsKnown(r, known, a)
  {
    KnownLast(xs, r.name(a.w), a.w);
  }

  lemma SettledBefore(r: Rule, xs: seq<(string, string)>, a: Side, b: Side, known: map<string, string>)
    requires known == KnownOf(xs + SettleSwaps(r, b)) && AsKnown(r, KnownOf(xs), a) && OneMask(r, a, b)
    ensures AsKnown(r, known, a)
  {
    if b.Clear? {
      assert xs + [] == xs;
    } else {
      KnownLast(xs, r.name(b.w), b.w);
    }
  }

  lemma SettledSwaps(r: Rule, xs: seq<(string, string)>, ys: seq<(string, string)>, a: Side, b: Side,
                     known: map<string, string>)
    requires ys == xs + SettleSwaps(r, a) && known == KnownOf(ys + SettleSwaps(r, b)) && OneMask(r, a, b)
    ensures AsKnown(r, known, a) && AsKnown(r, known, b)
  {
    if !a.Clear? { SettledKnown(r, xs, a, KnownOf(ys)); }
    SettledBefore(r, ys, a, b, known);
    if !b.Clear? { SettledKnown(r, ys, b, known); }
  }

  lemma Settled(e: Env, r: Rule, x: string, a: Side, b: Side, c: char, y: string, s: string)
    requires Sane(e) && WordRule(e, r) && Lookarounds(e, r) && KeepsApart(e, r, c) && OneMask(r, a, b)
    requires (!a.Clear? ==> r.fits(a.w)) && (!b.Clear? ==> r.fits(b.w))
    requires y == x + Settle(a, c) && s == y + Settle(b, c)
    ensures var known := KnownOf(PassSwaps(r, s)); AsKnown(r, known, a) && AsKnown(r, known, b)
  {
    SettleSide(e, r, x, a, c, y);
    SettleSide(e, r, y, b, c, s);
    SettledSwaps(r, PassSwaps(r, x), PassSwaps(r, y), a, b, KnownOf(PassSwaps(r, s)));
  }

  // ----- what the pass makes of it -----

  /** What ends a stretch: the end of the text, a bracket, or the barrier. */
  predicate Stops(s: string, y: nat, c: char) { y <= |s| && (y < |s| ==> s[y] == '[' || s[y] == c) }

  /** The stretch `z` of the text, between such ends. */
  ghost predicate Framed(e: Env, r: Rule, s: string, x: nat, y: nat, z: string, c: char) {
    x <= y <= |s| && s[x..y] == z && !WordAt(e, s, x - 1) && Stops(s, y, c) && KeepsApart(e, r, c)
  }

  lemma PastEnd(s: string, y: nat, c: char, k: nat, n: nat, w: string)
    requires Stops(s, y, c) && k < y && k + n <= |s| && w == s[k..k + n]
    ensures y < k + n ==> '[' in w || c in w
  {
    if y < k + n { assert w[y - k] == s[y]; }
  }

  /** A match in the stretch stays in it. */
  lemma HitInside(e: Env, r: Rule, s: string, x: nat, y: nat, z: string, c: char, k: nat, n: nat, t: nat)
    requires Sane(e) && WordRule(e, r) && Framed(e, r, s, x, y, z, c) && x <= k < y && t == k - x && Hit(r, s, k, n)
    ensures k + n <= y && Whole(e, z, s[k..k + n], t) && r.fits(s[k..k + n])
  {
    var w := s[k..k + n];
    HitWhole(e, r, s, k, n);
    PastEnd(s, y, c, k, n, w);
    Inside(e, s, x, y, z, w, t, k);
  }

  lemma MiddleFree(e: Env, r: Rule, s: string, x: nat, y: nat, z: string, c: char, l: string, mid: nat, h: string,
                   k: nat)
    requires Sane(e) && WordRule(e, r) && Framed(e, r, s, x, y, z, c) && Leaves(e, r, z, l, mid, h)
    requires x + |l| <= k < x + |l| + mid && x + |l| + mid + |h| == y
    ensures Found(r, s, k) == 0
  {
    Matched(r, s, k);
    var n, t := Found(r, s, k), k - x;
    if n > 0 {
      HitInside(e, r, s, x, y, z, c, k, n, t);
    }
  }

  /** The flank that starts the stretch, or the one that ends it, is what is found there. */
  lemma FlankFound(e: Env, r: Rule, s: string, x: nat, y: nat, z: string, c: char, u: string, t: nat, k: nat)
    requires Sane(e) && WordRule(e, r) && Framed(e, r, s, x, y, z, c) && r.fits(u) && Whole(e, z, u, t) && k == x + t
    requires forall w :: r.fits(w) && Whole(e, z, w, t) ==> |w| <= |u|
    ensures FoundAt(e, r, s, k, u)
  {
    WholeInside(e, s, x, y, z, u, t, k);
    Matched(r, s, k);
    NoneFound(e, r, s, k, u);
    HitInside(e, r, s, x, y, z, c, k, Found(r, s, k), t);
  }

  // ----- the result -----

  lemma FoundStep(e: Env, r: Rule, s: string, i: nat, ps: seq<Piece>, n: nat, u: string, rest: seq<Piece>, m: nat)
    requires WordRule(e, r) && Aligned(s, i, ps) && i <= |s| && ps != [] && ps[0].Raw? && n == Found(r, s, i) > 0
    requires m == i + n && (n <= |ps| ==> ps[n..] == rest) && (m <= |s| ==> s[i..m] == u)
    ensures m <= |s| && Aligned(s, m, rest) && Result(r, s, i, ps) == [Tok(r.name(u), u)] + Result(r, s, m, rest)
  {
    var v, q, m', ps' := NewSteps(e, r, s, i, ps, n);
  }

  lemma DropPlain(u: string, rest: seq<Piece>, ps: seq<Piece>)
    requires ps == Plain(u) + rest && u != ""
    ensures ps != [] && ps[0].Raw? && |u| <= |ps| && ps[|u|..] == rest
  {}

  lemma PlacedStep(e: Env, r: Rule, s: string, i: nat, ps: seq<Piece>, u: string, rest: seq<Piece>, m: nat)
    requires WordRule(e, r) && Aligned(s, i, ps) && i <= |s| && ps == Plain(u) + rest && m == i + |u|
    requires FoundAt(e, r, s, i, u)
    ensures m <= |s| && Aligned(s, m, rest) && Result(r, s, i, ps) == [Tok(r.name(u), u)] + Result(r, s, m, rest)
  {
    DropPlain(u, rest, ps);
    FoundStep(e, r, s, i, ps, |u|, u, rest, m);
  }

  lemma StandingStep(e: Env, r: Rule, s: string, i: nat, ps: seq<Piece>, q: Piece, rest: seq<Piece>, m: nat)
    requires WordRule(e, r) && Aligned(s, i, ps) && i <= |s| && ps == [q] + rest && q.Tok? && m == i + |q.p|
    ensures m <= |s| && Aligned(s, m, rest) && Result(r, s, i, ps) == [q] + Result(r, s, m, rest)
    ensures s[i] == '[' && s[m - 1] == ']'
  {
    WordSpares(e, r, s);
    assert ps[1..] == rest;
    OldSteps(r, s, i, ps, m, rest);
  }

  lemma SideStep(e: Env, r: Rule, s: string, i: nat, ps: seq<Piece>, a: Side, rest: seq<Piece>, m: nat)
    requires WordRule(e, r) && Aligned(s, i, ps) && i <= |s| && ps == SidePieces(r, a) + rest
    requires m == i + |SideText(r, a)| && (a.Placed? ==> FoundAt(e, r, s, i, a.u))
    ensures m <= |s| && Aligned(s, m, rest) && Result(r, s, i, ps) == SideResult(r, a) + Result(r, s, m, rest)
  {
    match a
    case Clear =>
      assert ps == rest && [] + Result(r, s, i, rest) == Result(r, s, i, rest);
    case Placed(u, _, _) =>
      PlacedStep(e, r, s, i, ps, u, rest, m);
    case Standing(w) =>
      StandingStep(e, r, s, i, ps, Tok(r.name(w), " "), rest, m);
  }

  lemma PlainHeads(mid: string, rest: seq<Piece>, ps: seq<Piece>)
    requires mid != "" && ps == Plain(mid) + rest
    ensures ps != [] && ps[0] == Raw(mid[0]) && ps[1..] == Plain(mid[1..]) + rest
  {}

  lemma PlainGlue(mid: string, more: seq<Piece>, all: seq<Piece>, later: seq<Piece>)
    requires mid != "" && all == [Raw(mid[0])] + later && later == Plain(mid[1..]) + more
    ensures all == Plain(mid) + more
  {}

  lemma {:induction false} PlainRun(r: Rule, s: string, i: nat, ps: seq<Piece>, mid: string, rest: seq<Piece>, m: nat)
    requires Aligned(s, i, ps) && ps == Plain(mid) + rest && m == i + |mid|
    requires forall k: nat :: i <= k < m && k <= |s| ==> Found(r, s, k) == 0
    ensures i <= m <= |s| && Aligned(s, m, rest) && Result(r, s, i, ps) == Plain(mid) + Result(r, s, m, rest)
    decreases |mid|
  {
    AlignedIn(s, i, ps);
    if mid == "" {
      assert ps == rest && [] + Result(r, s, m, rest) == Result(r, s, m, rest);
    } else {
      PlainHeads(mid, rest, ps);
      ResultUnmatched(r, s, i, ps);
      PlainRun(r, s, i + 1, ps[1..], mid[1..], rest, m);
      PlainGlue(mid, Result(r, s, m, rest), Result(r, s, i, ps), Result(r, s, i + 1, ps[1..]));
    }
  }

  lemma AlignedIn(s: string, i: nat, ps: seq<Piece>)
    requires Aligned(s, i, ps)
    ensures i <= |s|
  {}

  /** Nothing, or a barrier first. */
  predicate Ends(m: string, c: char) { m == "" || m[0] == c }

  lemma BarrierFree(e: Env, r: Rule, s: string, k: nat, c: char)
    requires WordRule(e, r) && KeepsApart(e, r, c) && k < |s| && s[k] == c
    ensures Found(r, s, k) == 0
  {
    Matched(r, s, k);
    var n := Found(r, s, k);
    if n > 0 { HoldsFirst(s, k, n); }
  }

  lemma HoldsFirst(s: string, k: nat, n: nat)
    requires 0 < n && k + n <= |s|
    ensures s[k] in s[k..k + n]
  {
    assert s[k..k + n][0] == s[k];
  }

  lemma EndStep(e: Env, r: Rule, s: string, i: nat, t: string, c: char, known: map<string, string>)
    requires WordRule(e, r) && KeepsApart(e, r, c) && Aligned(s, i, Plain(t)) && i <= |s| && Ends(t, c)
    ensures Ends(Masked(e, known, Result(r, s, i, Plain(t))), c)
  {
    if t != "" {
      assert Plain(t)[0] == Raw(c);
      BarrierFree(e, r, s, i, c);
      ResultUnmatched(r, s, i, Plain(t));
      MaskedCons(e, known, Raw(c), Result(r, s, i + 1, Plain(t)[1..]));
    }
  }

  /** Where the parts of the text stand. */
  ghost predicate Laid(r: Rule, s: string, a: Side, mid: string, b: Side, t: string, i: nat, j: nat, k: nat) {
    && i == |SideText(r, a)| && j == i + |mid| && k == j + |SideText(r, b)| && |s| == k + |t|
    && s[..i] == SideText(r, a) && s[i..j] == mid && s[j..k] == SideText(r, b) && s[k..] == t
  }

  lemma LaidOut(r: Rule, s: string, a: Side, mid: string, b: Side, t: string) returns (i: nat, j: nat, k: nat)
    requires s == SideText(r, a) + (mid + (SideText(r, b) + t))
    ensures Laid(r, s, a, mid, b, t, i, j, k)
  {
    i := |SideText(r, a)|;
    j := i + |mid|;
    k := j + |SideText(r, b)|;
  }

  lemma FrameLeft(e: Env, r: Rule, s: string, a: Side, mid: string, b: Side, t: string, i: nat, j: nat, k: nat, x: nat)
    requires Sane(e) && Laid(r, s, a, mid, b, t, i, j, k) && x + |Flank(a)| == i
    requires a.Standing? ==> IsToken(r.name(a.w))
    ensures s[x..i] == Flank(a) && !WordAt(e, s, x - 1)
  {
    if a.Standing? { assert s[x - 1] == s[..i][i - 1]; }
  }

  lemma FrameRight(e: Env, r: Rule, s: string, a: Side, mid: string, b: Side, t: string, i: nat, j: nat, k: nat, y: nat,
                   c: char)
    requires Laid(r, s, a, mid, b, t, i, j, k) && y == j + |Flank(b)| && Ends(t, c)
    requires b.Standing? ==> IsToken(r.name(b.w))
    ensures y <= |s| && s[j..y] == Flank(b) && Stops(s, y, c)
  {
    if b.Standing? {
      assert s[y] == s[j..k][0];
    } else if t != "" {
      assert s[y] == s[k..][0];
    }
  }

  /** What the text is made for: a value that can be read between the two sides. */
  ghost predicate Setting(e: Env, r: Rule, olds: iset<string>, v: string, a: Side, b: Side, c: char) {
    Sane(e) && WordRule(e, r) && Names(r) && Reads(e, r, olds, v, a, b) && KeepsApart(e, r, c) && |v| >= 3
  }

  lemma SidesFit(e: Env, r: Rule, olds: iset<string>, v: string, a: Side, b: Side, c: char)
    requires Setting(e, r, olds, v, a, b, c)
    ensures !a.Clear? ==> r.fits(a.w) && IsToken(r.name(a.w))
    ensures !b.Clear? ==> r.fits(b.w) && IsToken(r.name(b.w))
    ensures a.Placed? ==> r.fits(a.u) && a.u != "" && r.name(a.u) == r.name(a.w)
    ensures b.Placed? ==> r.fits(b.u) && b.u != "" && r.name(b.u) == r.name(b.w)
  {}

  lemma FramedText(e: Env, r: Rule, olds: iset<string>, v: string, a: Side, b: Side, c: char, s: string, mid: string,
                   t: string, i: nat, j: nat, k: nat, x: nat, y: nat, z: string)
    requires Setting(e, r, olds, v, a, b, c) && Laid(r, s, a, mid, b, t, i, j, k) && Ends(t, c)
    requires x + |Flank(a)| == i && y == j + |Flank(b)| && z == Flank(a) + mid + Flank(b)
    ensures Framed(e, r, s, x, y, z, c)
  {
    SidesFit(e, r, olds, v, a, b, c);
    FrameLeft(e, r, s, a, mid, b, t, i, j, k, x);
    FrameRight(e, r, s, a, mid, b, t, i, j, k, y, c);
    ThreeParts(s, x, i, j, y);
  }

  lemma LeavesLeft(e: Env, r: Rule, z: string, l: string, mid: nat, h: string)
    requires Leaves(e, r, z, l, mid, h) && l != ""
    ensures Whole(e, z, l, 0) && forall w :: r.fits(w) && Whole(e, z, w, 0) ==> |w| <= |l|
  {
    forall w | r.fits(w) && Whole(e, z, w, 0) ensures |w| <= |l| { assert Aside(|l|, mid, |h|, |w|, 0); }
  }

  lemma LeavesRight(e: Env, r: Rule, z: string, l: string, mid: nat, h: string, t: nat)
    requires Leaves(e, r, z, l, mid, h) && h != "" && t == |l| + mid && 0 < mid
    ensures Whole(e, z, h, t) && forall w :: r.fits(w) && Whole(e, z, w, t) ==> |w| <= |h|
  {
    forall w | r.fits(w) && Whole(e, z, w, t) ensures |w| <= |h| { assert Aside(|l|, mid, |h|, |w|, t); }
  }

  lemma LeftFound(e: Env, r: Rule, s: string, x: nat, y: nat, z: string, c: char, l: string, mid: nat, h: string)
    requires Sane(e) && WordRule(e, r) && Framed(e, r, s, x, y, z, c) && Leaves(e, r, z, l, mid, h)
    requires l != "" && r.fits(l)
    ensures FoundAt(e, r, s, x, l)
  {
    LeavesLeft(e, r, z, l, mid, h);
    FlankFound(e, r, s, x, y, z, c, l, 0, x);
  }

  lemma RightFound(e: Env, r: Rule, s: string, x: nat, y: nat, z: string, c: char, l: string, mid: nat, h: string,
                   j: nat)
    requires Sane(e) && WordRule(e, r) && Framed(e, r, s, x, y, z, c) && Leaves(e, r, z, l, mid, h)
    requires h != "" && r.fits(h) && 0 < mid && j == x + |l| + mid
    ensures FoundAt(e, r, s, j, h)
  {
    LeavesRight(e, r, z, l, mid, h, |l| + mid);
    FlankFound(e, r, s, x, y, z, c, h, |l| + mid, j);
  }

  /** What is found in the text: the placed sides, and nothing between them. */
  ghost predicate Founds(e: Env, r: Rule, s: string, a: Side, b: Side, i: nat, j: nat) {
    && i <= j <= |s| && (a.Placed? ==> FoundAt(e, r, s, 0, a.u)) && (b.Placed? ==> FoundAt(e, r, s, j, b.u))
    && forall k: nat :: i <= k < j ==> Found(r, s, k) == 0
  }

  lemma TextFounds(e: Env, r: Rule, olds: iset<string>, v: string, a: Side, b: Side, c: char, s: string, mid: string,
                   t: string, i: nat, j: nat, k: nat)
    requires Setting(e, r, olds, v, a, b, c) && mid == Middle(v, a, b) && Laid(r, s, a, mid, b, t, i, j, k)
    requires Ends(t, c)
    ensures Founds(e, r, s, a, b, i, j)
  {
    var l, h := Flank(a), Flank(b);
    var x, y, z := i - |l|, j + |h|, l + mid + h;
    SidesFit(e, r, olds, v, a, b, c);
    FramedText(e, r, olds, v, a, b, c, s, mid, t, i, j, k, x, y, z);
    if a.Placed? { LeftFound(e, r, s, x, y, z, c, l, |mid|, h); }
    if b.Placed? { RightFound(e, r, s, x, y, z, c, l, |mid|, h, j); }
    forall q: nat | i <= q < j ensures Found(r, s, q) == 0 { MiddleFree(e, r, s, x, y, z, c, l, |mid|, h, q); }
  }

  lemma TextResult(e: Env, r: Rule, s: string, a: Side, mid: string, b: Side, t: string, i: nat, j: nat, k: nat,
                   ps: seq<Piece>)
    requires WordRule(e, r) && Laid(r, s, a, mid, b, t, i, j, k) && Founds(e, r, s, a, b, i, j)
    requires ps == MisleadingPieces(r, a, mid, b, t) && Aligned(s, 0, ps)
    ensures k <= |s| && Aligned(s, k, Plain(t))
    ensures Result(r, s, 0, ps)
         == SideResult(r, a) + (Plain(mid) + (SideResult(r, b) + Result(r, s, k, Plain(t))))
  {
    var behind := SidePieces(r, b) + Plain(t);
    SideStep(e, r, s, 0, ps, a, Plain(mid) + behind, i);
    PlainRun(r, s, i, Plain(mid) + behind, mid, behind, j);
    SideStep(e, r, s, j, behind, b, Plain(t), k);
  }

  // ----- what the check sees -----

  /** The mask of a side. */
  function SideMask(e: Env, a: Side): string { if a.Clear? || a.w == "" then "" else MaskOf(e, a.w) }

  lemma SideMasked(e: Env, r: Rule, known: map<string, string>, a: Side)
    requires AsKnown(r, known, a) && (!a.Clear? ==> a.w != "") && (a.Placed? ==> r.name(a.u) == r.name(a.w))
    ensures Masked(e, known, SideResult(r, a)) == SideMask(e, a)
  {
    if !a.Clear? {
      var q := SideResult(r, a)[0];
      assert SideResult(r, a) == [q] + [];
      MaskedCons(e, known, q, []);
      assert Mask(e, known, q.p) + "" == Mask(e, known, q.p);
    }
  }

  lemma ResultMasked(e: Env, r: Rule, known: map<string, string>, a: Side, mid: string, b: Side, rest: seq<Piece>)
    requires Masked(e, known, SideResult(r, a)) == SideMask(e, a)
    requires Masked(e, known, SideResult(r, b)) == SideMask(e, b)
    ensures Masked(e, known, SideResult(r, a) + (Plain(mid) + (SideResult(r, b) + rest)))
         == SideMask(e, a) + (mid + (SideMask(e, b) + Masked(e, known, rest)))
  {
    Lookalikes.MaskedConcat(e, known, SideResult(r, a), Plain(mid) + (SideResult(r, b) + rest));
    Lookalikes.MaskedConcat(e, known, Plain(mid), SideResult(r, b) + rest);
    Lookalikes.MaskedConcat(e, known, SideResult(r, b), rest);
    Lookalikes.MaskedPlain(e, known, mid);
  }

  /** The half of the value that a side lends, and the rest of its mask. */
  lemma LentLeft(e: Env, r: Rule, olds: iset<string>, v: string, a: Side) returns (head: string, lent: string)
    requires Sane(e) && LeftSide(e, r, olds, v, a)
    ensures SideMask(e, a) == head + lent && lent == (if Half(a) then [v[0]] else "")
    ensures head != "" ==> !e.word(head[|head| - 1])
  {
    if Half(a) {
      head, lent := [NUL], [v[0]];
    } else {
      head, lent := SideMask(e, a), "";
      assert head + lent == head;
    }
  }

  lemma LentRight(e: Env, r: Rule, olds: iset<string>, v: string, b: Side) returns (tail: string, lent: string)
    requires Sane(e) && RightSide(e, r, olds, v, b)
    ensures SideMask(e, b) == lent + tail && lent == (if Half(b) then [v[|v| - 1]] else "")
    ensures tail != "" ==> !e.word(tail[0])
    ensures tail == "" ==> b.Clear?
  {
    if Half(b) {
      tail, lent := [NUL], [v[|v| - 1]];
    } else {
      tail, lent := SideMask(e, b), "";
      assert lent + tail == tail;
    }
  }

  lemma LentWhole(v: string, a: Side, b: Side, lent: string, mid: string, lent': string)
    requires |v| >= 2 && mid == Middle(v, a, b) && lent == (if Half(a) then [v[0]] else "")
    requires lent' == (if Half(b) then [v[|v| - 1]] else "")
    ensures lent + (mid + lent') == v
  {}

  lemma Regroup(head: string, lent: string, mid: string, lent': string, tail: string, end: string, v: string)
    requires lent + (mid + lent') == v
    ensures (head + lent) + (mid + ((lent' + tail) + end)) == head + (v + (tail + end))
  {}

  lemma StandsBetween(e: Env, v: string, head: string, tail: string, m: string)
    requires m == head + (v + tail)
    requires (head != "" ==> !e.word(head[|head| - 1])) && (tail != "" ==> !e.word(tail[0]))
    ensures Whole(e, m, v, |head|)
  {
    assert m[|head|..|head| + |v|] == v;
    assert head != "" ==> m[|head| - 1] == head[|head| - 1];
    assert tail != "" ==> m[|head| + |v|] == tail[0];
  }

  lemma Shown(e: Env, r: Rule, olds: iset<string>, v: string, a: Side, b: Side, c: char, end: string, m: string)
    returns (j: nat)
    requires Sane(e) && |v| >= 2 && LeftSide(e, r, olds, v, a) && RightSide(e, r, olds, v, b)
    requires !e.word(c) && Ends(end, c)
    requires m == SideMask(e, a) + (Middle(v, a, b) + (SideMask(e, b) + end))
    ensures Whole(e, m, v, j)
  {
    var head, lent := LentLeft(e, r, olds, v, a);
    var tail, lent' := LentRight(e, r, olds, v, b);
    LentWhole(v, a, b, lent, Middle(v, a, b), lent');
    Regroup(head, lent, Middle(v, a, b), lent', tail, end, v);
    j := |head|;
    if tail != "" { assert (tail + end)[0] == tail[0]; } else { assert tail + end == end; }
    StandsBetween(e, v, head, tail + end, m);
  }

  // ----- the run on it -----

  lemma SideSource(e: Env, r: Rule, a: Side)
    requires WordRule(e, r) && (a.Placed? ==> r.fits(a.u))
    ensures Render(SidePieces(r, a)) == SideText(r, a) && '[' !in Source(SidePieces(r, a))
  {
    match a
    case Clear =>
    case Placed(u, _, _) =>
      PlainRender(u);
    case Standing(w) =>
      var q := Tok(r.name(w), " ");
      assert [q][1..] == [] && Render([q][1..]) == "" && Source([q][1..]) == "";
      assert Render([q]) == r.name(w) + Render([q][1..]) && Source([q]) == " " + Source([q][1..]);
  }

  lemma TextRendered(e: Env, r: Rule, a: Side, mid: string, b: Side, t: string, ps: seq<Piece>)
    requires WordRule(e, r) && (a.Placed? ==> r.fits(a.u)) && (b.Placed? ==> r.fits(b.u))
    requires '[' !in mid && '[' !in t && ps == MisleadingPieces(r, a, mid, b, t)
    ensures Render(ps) == SideText(r, a) + (mid + (SideText(r, b) + t)) && '[' !in Source(ps)
  {
    SideSource(e, r, a);
    SideSource(e, r, b);
    PlainRender(mid);
    PlainRender(t);
    RenderConcat(SidePieces(r, b), Plain(t));
    RenderConcat(Plain(mid), SidePieces(r, b) + Plain(t));
    RenderConcat(SidePieces(r, a), Plain(mid) + (SidePieces(r, b) + Plain(t)));
  }

  /** The tokens of the text are those of the sides that stand there. */
  lemma SideTokens(r: Rule, a: Side, olds: iset<string>)
    requires a.Standing? ==> r.name(a.w) in olds && IsToken(r.name(a.w))
    ensures forall q :: q in SidePieces(r, a) && q.Tok? ==> q.p in olds && IsToken(q.p)
  {}

  lemma TextTokens(e: Env, r: Rule, olds: iset<string>, v: string, a: Side, b: Side, c: char, mid: string, t: string,
                   ps: seq<Piece>)
    requires Setting(e, r, olds, v, a, b, c) && ps == MisleadingPieces(r, a, mid, b, t)
    ensures WellFormed(ps) && AllOld(olds, ps)
  {
    SidesFit(e, r, olds, v, a, b, c);
    SideTokens(r, a, olds);
    SideTokens(r, b, olds);
    forall q | q in ps && q.Tok? ensures q.p in olds && IsToken(q.p) {
      assert q in SidePieces(r, a) || q in Plain(mid) || q in SidePieces(r, b) || q in Plain(t);
    }
  }

  lemma BracketFree(e: Env, r: Rule, olds: iset<string>, v: string, a: Side, b: Side, c: char)
    requires Setting(e, r, olds, v, a, b, c)
    ensures '[' !in Middle(v, a, b) && '[' !in Settle(a, c) && '[' !in Settle(b, c)
  {
    SidesFit(e, r, olds, v, a, b, c);
    assert forall x :: x in Middle(v, a, b) ==> x in v;
  }

  lemma TextClean(e: Env, r: Rule, olds: iset<string>, v: string, a: Side, b: Side, c: char, mid: string, t: string,
                  ps: seq<Piece>, s: string)
    requires Setting(e, r, olds, v, a, b, c) && mid == Middle(v, a, b) && t == Settle(a, c) + Settle(b, c)
    requires ps == MisleadingPieces(r, a, mid, b, t) && s == SideText(r, a) + (mid + (SideText(r, b) + t))
    ensures Clean(ps) && Render(ps) == s && AllOld(olds, ps)
  {
    SidesFit(e, r, olds, v, a, b, c);
    BracketFree(e, r, olds, v, a, b, c);
    TextRendered(e, r, a, mid, b, t, ps);
    TextTokens(e, r, olds, v, a, b, c, mid, t, ps);
    NoBrackets(Source(ps));
  }

  lemma SettleEnds(a: Side, b: Side, c: char)
    ensures Ends(Settle(a, c) + Settle(b, c), c)
  {}

  lemma TextMasked(e: Env, r: Rule, olds: iset<string>, v: string, a: Side, b: Side, c: char, mid: string, t: string,
                   ps: seq<Piece>, s: string, known: map<string, string>) returns (end: string)
    requires Setting(e, r, olds, v, a, b, c) && mid == Middle(v, a, b) && Ends(t, c)
    requires ps == MisleadingPieces(r, a, mid, b, t) && s == SideText(r, a) + (mid + (SideText(r, b) + t))
    requires Aligned(s, 0, ps) && AsKnown(r, known, a) && AsKnown(r, known, b)
    ensures Ends(end, c) && Masked(e, known, Result(r, s, 0, ps)) == SideMask(e, a) + (mid + (SideMask(e, b) + end))
  {
    var i, j, k := LaidOut(r, s, a, mid, b, t);
    TextFounds(e, r, olds, v, a, b, c, s, mid, t, i, j, k);
    TextResult(e, r, s, a, mid, b, t, i, j, k, ps);
    SidesFit(e, r, olds, v, a, b, c);
    SideMasked(e, r, known, a);
    SideMasked(e, r, known, b);
    var rest := Result(r, s, k, Plain(t));
    ResultMasked(e, r, known, a, mid, b, rest);
    EndStep(e, r, s, k, t, c, known);
    end := Masked(e, known, rest);
  }

  lemma Regrouped(a: string, mid: string, b: string, t: string, u: string)
    ensures a + (mid + (b + (t + u))) == ((a + (mid + b)) + t) + u
  {}

  lemma SettledText(e: Env, r: Rule, olds: iset<string>, v: string, a: Side, b: Side, c: char, mid: string, s: string)
    requires Setting(e, r, olds, v, a, b, c) && Lookarounds(e, r)
    requires s == SideText(r, a) + (mid + (SideText(r, b) + (Settle(a, c) + Settle(b, c))))
    ensures var known := KnownOf(PassSwaps(r, s)); AsKnown(r, known, a) && AsKnown(r, known, b)
  {
    SidesFit(e, r, olds, v, a, b, c);
    var x := SideText(r, a) + (mid + SideText(r, b));
    var y := x + Settle(a, c);
    Regrouped(SideText(r, a), mid, SideText(r, b), Settle(a, c), Settle(b, c));
    Settled(e, r, x, a, b, c, y, s);
  }

  /** In the text the check finds the value. */
  lemma TextShows(e: Env, r: Rule, olds: iset<string>, v: string, a: Side, b: Side, c: char, s: string)
    returns (ps: seq<Piece>, j: nat)
    requires Setting(e, r, olds, v, a, b, c) && Lookarounds(e, r)
    requires s == SideText(r, a) + (Middle(v, a, b) + (SideText(r, b) + (Settle(a, c) + Settle(b, c))))
    ensures Clean(ps) && Render(ps) == s && AllOld(olds, ps)
    ensures Whole(e, Stripped(e, KnownOf(PassSwaps(r, s)), PassText(r, s)), v, j)
  {
    var mid, t, known := Middle(v, a, b), Settle(a, c) + Settle(b, c), KnownOf(PassSwaps(r, s));
    ps := MisleadingPieces(r, a, mid, b, t);
    TextClean(e, r, olds, v, a, b, c, mid, t, ps, s);
    assert ps[..0] == [] && ps[0..] == ps;
    CleanAligned(ps, 0, 0);
    SettledText(e, r, olds, v, a, b, c, mid, s);
    SettleEnds(a, b, c);
    var end := TextMasked(e, r, olds, v, a, b, c, mid, t, ps, s, known);
    j := Shown(e, r, olds, v, a, b, c, end, Masked(e, known, Result(r, s, 0, ps)));
    ResultStripped(e, r, ps, s, known);
  }

  lemma ResultStripped(e: Env, r: Rule, ps: seq<Piece>, s: string, known: map<string, string>)
    requires WordRule(e, r) && Names(r) && Clean(ps) && Render(ps) == s
    ensures Stripped(e, known, PassText(r, s)) == Masked(e, known, Result(r, s, 0, ps))
  {
    assert Spares(r, s);
    var qs := RulePass(r, ps);
    StrippedPieces(e, known, qs);
  }

  // ----- when a set of values is refused -----

  /** A clean text with tokens of `olds` only, on which the check rejects the run. */
  ghost predicate Refused(e: Env, labels: map<string, string>, olds: iset<string>, ps: seq<Piece>) {
    Clean(ps) && AllOld(olds, ps) && EntityPass(e, labels, Render(ps), []) == ValueSurvived
  }

  lemma ShownRefuses(e: Env, labels: map<string, string>, s: string, v: string, j: nat)
    requires var r := NamesRule(e, labels);
             v in labels && Whole(e, Stripped(e, KnownOf(PassSwaps(r, s)), PassText(r, s)), v, j)
    ensures EntityPass(e, labels, s, []) == ValueSurvived
  {
    var r := NamesRule(e, labels);
    assert Without(s, [], 0, 0) == s by { assert s[0..] == s; }
    WholeInText(e, Stripped(e, KnownOf(PassSwaps(r, s)), PassText(r, s)), v, j);
    assert Survives(e, labels, Stripped(e, KnownOf(PassSwaps(r, s)), PassText(r, s)));
  }

  lemma WholeInText(e: Env, m: string, v: string, j: nat)
    requires Whole(e, m, v, j)
    ensures j <= |m|
  {}

  lemma ReadsRefuses(e: Env, labels: map<string, string>, olds: iset<string>, v: string, a: Side, b: Side, c: char,
                     s: string) returns (ps: seq<Piece>)
    requires var r := NamesRule(e, labels);
             && Sane(e) && Usable(e, labels) && Reads(e, r, olds, v, a, b) && KeepsApart(e, r, c)
             && s == SideText(r, a) + (Middle(v, a, b) + (SideText(r, b) + (Settle(a, c) + Settle(b, c))))
    ensures Refused(e, labels, olds, ps) && Render(ps) == s
  {
    var r := NamesRule(e, labels);
    NamesAreWords(e, labels);
    NamesLook(e, labels);
    var qs, j := TextShows(e, r, olds, v, a, b, c, s);
    ShownRefuses(e, labels, s, v, j);
    ps := qs;
  }

  lemma MarkApart(e: Env, labels: map<string, string>)
    requires Sane(e) && Usable(e, labels)
    ensures KeepsApart(e, NamesRule(e, labels), HOST_OPEN)
  {}

  lemma NotRefused(e: Env, labels: map<string, string>, olds: iset<string>, ps: seq<Piece>)
    requires Sane(e) && Usable(e, labels) && NoneMisread(e, NamesRule(e, labels), olds)
    ensures !Refused(e, labels, olds, ps)
  {
    if Clean(ps) && AllOld(olds, ps) {
      NamesAreWords(e, labels);
      NoneSurvive(e, NamesRule(e, labels), labels, olds, ps);
      Lookalikes.NotSurviving(e, labels, Render(ps), NamesRule(e, labels));
    }
  }

  /** Values without masks are rejected on some clean text, with tokens of `olds` only, exactly
      when one of them can be misread. */
  lemma SetsRefusedExactly(e: Env, labels: map<string, string>, olds: iset<string>)
    requires Sane(e) && Usable(e, labels)
    ensures (exists ps :: Refused(e, labels, olds, ps)) <==> !NoneMisread(e, NamesRule(e, labels), olds)
  {
    var r := NamesRule(e, labels);
    if !NoneMisread(e, r, olds) {
      var v :| r.fits(v) && Misread(e, r, olds, v);
      var a, b :| Reads(e, r, olds, v, a, b);
      var c := HOST_OPEN;
      MarkApart(e, labels);
      var s := SideText(r, a) + (Middle(v, a, b) + (SideText(r, b) + (Settle(a, c) + Settle(b, c))));
      var ps := ReadsRefuses(e, labels, olds, v, a, b, c, s);
    } else {
      forall ps ensures !Refused(e, labels, olds, ps) { NotRefused(e, labels, olds, ps); }
    }
  }

  // ----- for instance -----

  const NUMBER: string := "123456789"
  const DOTTED: string := "123456789."
  const BEHIND: string := "-qrs"
  const SPLIT: string := "abx"

  /** No brackets, no marks, and no character of a mask except at the end. */
  predicate Safe(v: string) {
    && |v| >= 3 && (forall k :: 0 <= k < |v| ==> v[k] !in "[]" && v[k] != HOST_OPEN && v[k] != HOST_CLOSE)
    && forall k :: 0 <= k < |v| - 1 ==> v[k] != 'x' && v[k] != NUL
  }

  lemma SafeValue(e: Env, vals: set<string>, v: string)
    requires Safe(v)
    ensures NoBracket(v, 0, |v|) && OffMarks(v) && Immune(Shapes(e, vals), v)
  {
    forall k | 0 <= k < |v| - 1 ensures [v[k], v[k + 1]] !in Shapes(e, vals) {
      assert [v[k], v[k + 1]][0] == v[k];
      assert forall m :: m in Shapes(e, vals) ==> m[0] == 'x' || m[0] == NUL;
    }
  }

  lemma NumbersSafe()
    ensures Safe(NUMBER) && Safe(DOTTED) && ' ' !in NUMBER && ' ' !in DOTTED
  {}

  lemma WordsSafe()
    ensures Safe(BEHIND) && Safe(SPLIT) && ' ' !in BEHIND && ' ' !in SPLIT
  {}

  /** Numbers and a word, none with a space. */
  ghost predicate Set(labels: map<string, string>, numbers: set<string>, word: string) {
    && labels.Keys == numbers + {word} && (forall n :: n in numbers ==> labels[n] == "bsn") && labels[word] == "person"
    && word !in numbers && forall v :: v in labels ==> Safe(v) && ' ' !in v
  }

  lemma SetLabels(labels: map<string, string>, numbers: set<string>, word: string)
    requires Set(labels, numbers, word)
    ensures forall v :: v in labels ==> LabelOk(labels[v])
  {
    BsnLabel();
    Lookalikes.UpperPerson();
  }

  lemma SetUsable(e: Env, labels: map<string, string>, numbers: set<string>, word: string)
    requires Set(labels, numbers, word)
    ensures Usable(e, labels)
  {
    SetLabels(labels, numbers, word);
    assert forall v :: v in labels ==> Safe(v);
    SafeUsable(e, labels);
  }

  lemma SetApart(e: Env, labels: map<string, string>, numbers: set<string>, word: string)
    requires Sane(e) && Set(labels, numbers, word)
    ensures KeepsApart(e, NamesRule(e, labels), ' ')
  {}

  lemma SetFits(e: Env, labels: map<string, string>, numbers: set<string>, word: string)
    requires Set(labels, numbers, word)
    ensures var r := NamesRule(e, labels);
            && (forall w :: r.fits(w) <==> w in numbers + {word})
            && forall n :: n in numbers ==> r.name(n) == Pseudonym(e, "bsn", n)
  {
    assert forall w :: w in labels <==> w in labels.Keys;
  }

  lemma SafeUsable(e: Env, labels: map<string, string>)
    requires forall v :: v in labels ==> LabelOk(labels[v]) && Safe(v)
    ensures Usable(e, labels)
  {
    forall v | v in labels ensures NoBracket(v, 0, |v|) && OffMarks(v) && Immune(Shapes(e, labels.Keys), v) {
      SafeValue(e, labels.Keys, v);
    }
  }

  lemma BsnLabel()
    ensures LabelOk("bsn") && UpperCase("bsn") == "BSN"
  {
    DetLabelOk(Bsn);
  }

  lemma BehindChars()
    ensures var z := NUMBER + BEHIND;
            && |z| == 13 && z[9] == '-' && z[0] == '1' && z[8] == '9' && z[..9] == NUMBER
            && (forall k :: 0 <= k < 13 && z[k] == '1' ==> k == 0)
            && (forall k :: 0 <= k < 13 && z[k] == '-' ==> k == 9)
  {}

  lemma CharAt(z: string, t: nat, w: string, k: nat)
    requires t + |w| <= |z| && z[t..t + |w|] == w && k < |w|
    ensures z[t + k] == w[k]
  {}

  /** In front of the value stands a number, a word; so the value is no word there. */
  lemma BehindWhole(e: Env, z: string, w: string, t: nat)
    requires Sane(e) && z == NUMBER + BEHIND && w in {NUMBER, DOTTED} + {BEHIND} && Whole(e, z, w, t)
    ensures t == 0 && |w| == 9
  {
    BehindChars();
    CharAt(z, t, w, 0);
    if |w| == 10 { CharAt(z, t, w, 9); }
  }

  lemma BehindReads(e: Env, r: Rule, olds: iset<string>)
    requires Sane(e) && (forall w :: r.fits(w) <==> w in {NUMBER, DOTTED} + {BEHIND})
    requires r.name(NUMBER) == r.name(DOTTED)
    ensures Reads(e, r, olds, BEHIND, Placed(NUMBER, DOTTED, false), Clear)
  {
    var z := NUMBER + BEHIND + "";
    BehindChars();
    assert z == NUMBER + BEHIND && z[0..0 + 9] == NUMBER;
    assert Middle(BEHIND, Placed(NUMBER, DOTTED, false), Clear) == BEHIND;
    forall w, t: nat | r.fits(w) && Whole(e, z, w, t) ensures Aside(9, 4, 0, |w|, t) { BehindWhole(e, z, w, t); }
    assert NUMBER[8] == '9' && DOTTED[9] == '.';
  }

  lemma BehindSet(labels: map<string, string>)
    requires labels.Keys == {NUMBER, DOTTED} + {BEHIND}
    requires labels[NUMBER] == labels[DOTTED] == "bsn" && labels[BEHIND] == "person"
    ensures Set(labels, {NUMBER, DOTTED}, BEHIND)
  {
    NumbersSafe();
    WordsSafe();
    assert NUMBER[0] != BEHIND[0] && DOTTED[0] != BEHIND[0];
    assert forall w :: w in labels <==> w in labels.Keys;
  }

  lemma BehindText(r: Rule)
    ensures var a := Placed(NUMBER, DOTTED, false);
            SideText(r, a) + (Middle(BEHIND, a, Clear) + (SideText(r, Clear) + (Settle(a, ' ') + Settle(Clear, ' '))))
            == "123456789-qrs 123456789."
  {
    assert Middle(BEHIND, Placed(NUMBER, DOTTED, false), Clear) == "-qrs";
  }

  /** `123456789` and `123456789.` share a token, and `-qrs` is a value too. In the text
      `123456789-qrs 123456789.` it stands nowhere as a word; the last number settles the
      mask of the first, and the check finds it. */
  lemma SharedTokenRefuses(e: Env, labels: map<string, string>)
    requires Sane(e) && Pseudonym(e, "bsn", NUMBER) == Pseudonym(e, "bsn", DOTTED)
    requires labels.Keys == {NUMBER, DOTTED} + {BEHIND}
    requires labels[NUMBER] == labels[DOTTED] == "bsn" && labels[BEHIND] == "person"
    ensures EntityPass(e, labels, "123456789-qrs 123456789.", []) == ValueSurvived
    ensures forall j: nat :: !Whole(e, "123456789-qrs 123456789.", BEHIND, j)
  {
    var r, olds := NamesRule(e, labels), iset{};
    BehindSet(labels);
    SetUsable(e, labels, {NUMBER, DOTTED}, BEHIND);
    SetApart(e, labels, {NUMBER, DOTTED}, BEHIND);
    SetFits(e, labels, {NUMBER, DOTTED}, BEHIND);
    BehindReads(e, r, olds);
    BehindText(r);
    var a := Placed(NUMBER, DOTTED, false);
    var ps := ReadsRefuses(e, labels, olds, BEHIND, a, Clear, ' ', "123456789-qrs 123456789.");
    BehindNowhere(e);
  }

  lemma BehindNowhere(e: Env)
    requires Sane(e)
    ensures forall j: nat :: !Whole(e, "123456789-qrs 123456789.", BEHIND, j)
  {
    var s := "123456789-qrs 123456789.";
    forall j: nat ensures !Whole(e, s, BEHIND, j) {
      if j + 4 <= |s| && s[j..j + 4] == BEHIND {
        assert s[j] == s[j..j + 4][0] == '-';
        assert j == 9 && s[8] == '9';
      }
    }
  }

  lemma SplitReads(e: Env, r: Rule, olds: iset<string>)
    requires Sane(e) && (forall w :: r.fits(w) <==> w in {DOTTED} + {SPLIT}) && r.name(DOTTED) in olds
    ensures Reads(e, r, olds, SPLIT, Clear, Standing(DOTTED))
  {
    var z := "" + "ab" + "";
    assert z == "ab" && Middle(SPLIT, Clear, Standing(DOTTED)) == "ab";
    forall w, t: nat ensures !(r.fits(w) && Whole(e, z, w, t)) {
      assert r.fits(w) ==> |w| >= 3;
    }
    assert DOTTED[0] == '1' && DOTTED[9] == '.' && MaskOf(e, DOTTED) == ['x', NUL];
  }

  lemma SplitText(r: Rule, p: string)
    requires p == r.name(DOTTED)
    ensures var b := Standing(DOTTED);
            SideText(r, Clear) + (Middle(SPLIT, Clear, b) + (SideText(r, b) + (Settle(Clear, ' ') + Settle(b, ' '))))
            == "ab" + (p + " 123456789.")
  {
    assert Middle(SPLIT, Clear, Standing(DOTTED)) == "ab";
    assert "" + ([' '] + DOTTED) == " 123456789.";
  }

  lemma SplitSet(labels: map<string, string>)
    requires labels.Keys == {DOTTED} + {SPLIT} && labels[DOTTED] == "bsn" && labels[SPLIT] == "person"
    ensures Set(labels, {DOTTED}, SPLIT)
  {
    NumbersSafe();
    WordsSafe();
    assert DOTTED[0] != SPLIT[0];
    assert forall w :: w in labels <==> w in labels.Keys;
  }

  /** The token of `123456789.` stands behind `ab`, and `abx` is a value too: once that
      number is replaced further on, the mask of the token lends the `x`. */
  lemma OldTokenRefuses(e: Env, labels: map<string, string>)
    requires Sane(e) && labels.Keys == {DOTTED} + {SPLIT} && labels[DOTTED] == "bsn" && labels[SPLIT] == "person"
    ensures EntityPass(e, labels, "ab" + (Pseudonym(e, "bsn", DOTTED) + " 123456789."), []) == ValueSurvived
  {
    var r, p := NamesRule(e, labels), Pseudonym(e, "bsn", DOTTED);
    SplitSet(labels);
    SetUsable(e, labels, {DOTTED}, SPLIT);
    SetApart(e, labels, {DOTTED}, SPLIT);
    SetFits(e, labels, {DOTTED}, SPLIT);
    SplitReads(e, r, iset{p});
    SplitText(r, p);
    var ps := ReadsRefuses(e, labels, iset{p}, SPLIT, Clear, Standing(DOTTED), ' ', "ab" + (p + " 123456789."));
  }
}
