/** One substitution pass over a text: where a rule matches, which matches are
    taken, and what comes out. A rule always matches the longest string it can at
    the leftmost position it can. */
module Matching {
  import opened Lexer
  import opened Pieces
  import opened Cuts

  /** What a pass looks for: the strings that fit, the edges a match needs in the
      text, the matches that are taken, and the type and token of a taken value. */
  datatype Rule = Rule(fits: string -> bool, edges: (string, nat, nat) -> bool, takes: (string, nat, nat) -> bool,
                       ty: string -> string, name: string -> string)

  predicate Hit(r: Rule, s: string, i: nat, n: nat) {
    0 < n && i + n <= |s| && r.fits(s[i..i + n]) && r.edges(s, i, n)
  }

  /** The longest match of at most `n` characters at `i`, or 0. */
  function Longest(r: Rule, s: string, i: nat, n: nat): (m: nat)
    ensures m <= n
  {
    if n == 0 || Hit(r, s, i, n) then n else Longest(r, s, i, n - 1)
  }

  /** The length of the match at `i`, or 0: greedy quantifiers and the
      longest-first alternation both settle on the longest one. */
  function MatchLen(r: Rule, s: string, i: nat): (n: nat)
    requires i <= |s|
    ensures i + n <= |s|
  {
    Longest(r, s, i, |s| - i)
  }

  lemma {:induction false} LongestHits(r: Rule, s: string, i: nat, n: nat)
    ensures var m := Longest(r, s, i, n);
            (m > 0 ==> Hit(r, s, i, m)) && forall k :: m < k <= n ==> !Hit(r, s, i, k)
  {
    if n > 0 && !Hit(r, s, i, n) { LongestHits(r, s, i, n - 1); }
  }

  /** The match is one, and no longer one exists. */
  lemma Matched(r: Rule, s: string, i: nat)
    requires i <= |s|
    ensures var n := MatchLen(r, s, i);
            (n > 0 ==> Hit(r, s, i, n)) && forall k :: n < k ==> !Hit(r, s, i, k)
  {
    LongestHits(r, s, i, |s| - i);
  }

  function CutAt(r: Rule, s: string, i: nat): (c: Cut)
    requires i < |s|
    ensures 0 < c.n && i + c.n <= |s|
  {
    var n := MatchLen(r, s, i);
    if n == 0 then Keep(1) else if r.takes(s, i, n) then Swap(n, r.name(s[i..i + n])) else Keep(n)
  }

  /** How the pass cuts `s` from position `i` on. */
  function Pass(r: Rule, s: string, i: nat): (cuts: seq<Cut>)
    requires i <= |s|
    ensures Covers(s, i, cuts)
    decreases |s| - i
  {
    if i == |s| then [] else [CutAt(r, s, i)] + Pass(r, s, i + CutAt(r, s, i).n)
  }

  /** The text a pass leaves, and the replacements it makes. */
  function PassText(r: Rule, s: string): string { Emit(s, 0, Pass(r, s, 0)) }
  function PassSwaps(r: Rule, s: string): seq<(string, string)> { SwapsOf(s, 0, Pass(r, s, 0)) }

  /** The (token, value) pairs a rule can produce. */
  ghost function Minted(r: Rule): iset<(string, string)> {
    iset v: string | r.fits(v) :: (r.name(v), v)
  }

  /** No match of the rule contains a bracket. */
  ghost predicate Bare(r: Rule) {
    forall v :: r.fits(v) ==> NoBracket(v, 0, |v|)
  }

  /** What the rule writes are tokens. */
  ghost predicate Names(r: Rule) {
    forall v :: r.fits(v) ==> IsToken(r.name(v))
  }

  /** No match that starts in a token is taken. */
  ghost predicate Spares(r: Rule, s: string) {
    forall i: nat, n: nat :: Hit(r, s, i, n) && InToken(s, i) ==> !r.takes(s, i, n)
  }

  lemma HitFacts(r: Rule, s: string, i: nat, n: nat)
    requires Bare(r) && Hit(r, s, i, n)
    ensures NoBracket(s, i, n)
    ensures (r.name(s[i..i + n]), s[i..i + n]) in Minted(r)
  {
    var v := s[i..i + n];
    forall k | i <= k < i + n ensures s[k] != '[' && s[k] != ']' { assert s[k] == v[k - i]; }
  }

  lemma CutTame(r: Rule, s: string, i: nat)
    requires Bare(r) && Spares(r, s) && i < |s|
    ensures Tame(s, i, CutAt(r, s, i), Minted(r))
  {
    var n := MatchLen(r, s, i);
    Matched(r, s, i);
    if n > 0 { HitFacts(r, s, i, n); }
  }

  lemma PassStep(r: Rule, s: string, i: nat)
    requires i < |s|
    ensures Pass(r, s, i) == [CutAt(r, s, i)] + Pass(r, s, i + CutAt(r, s, i).n)
  {}

  lemma EmitStep(r: Rule, s: string, i: nat, c: Cut)
    requires i < |s| && c == CutAt(r, s, i)
    ensures Emit(s, i, Pass(r, s, i)) == Piece0(s, i, c) + Emit(s, i + c.n, Pass(r, s, i + c.n))
    ensures SwapsOf(s, i, Pass(r, s, i)) == SwapIn(s, i, c) + SwapsOf(s, i + c.n, Pass(r, s, i + c.n))
  {
    PassStep(r, s, i);
    assert Pass(r, s, i)[0] == c && Pass(r, s, i)[1..] == Pass(r, s, i + c.n);
  }

  lemma TameCons(s: string, i: nat, c: Cut, cuts: seq<Cut>, ok: iset<(string, string)>)
    requires Tame(s, i, c, ok) && AllTame(s, i + c.n, cuts, ok)
    ensures AllTame(s, i, [c] + cuts, ok)
  {
    assert ([c] + cuts)[1..] == cuts;
  }

  lemma {:induction false} PassTame(r: Rule, s: string, i: nat, ok: iset<(string, string)>)
    requires i <= |s| && forall j: nat :: j < |s| ==> Tame(s, j, CutAt(r, s, j), ok)
    ensures AllTame(s, i, Pass(r, s, i), ok)
    decreases |s| - i
  {
    if i < |s| {
      var c := CutAt(r, s, i);
      PassTame(r, s, i + c.n, ok);
      TameCons(s, i, c, Pass(r, s, i + c.n), ok);
      PassStep(r, s, i);
    }
  }

  /** A pass of a rule that spares tokens keeps the round trip. */
  lemma RulePass(r: Rule, ps: seq<Piece>) returns (qs: seq<Piece>)
    requires Names(r) && Bare(r) && Spares(r, Render(ps)) && Clean(ps)
    ensures qs == Build(Render(ps), 0, ps, Pass(r, Render(ps), 0))
    ensures Render(qs) == PassText(r, Render(ps))
    ensures Clean(qs) && Coarsens(qs, ps) && Known(qs, ps, Minted(r))
    ensures Toks(qs) == Toks(ps) + Pairs(PassSwaps(r, Render(ps)))
  {
    var s, ok := Render(ps), Minted(r);
    forall j: nat | j < |s| ensures Tame(s, j, CutAt(r, s, j), ok) { CutTame(r, s, j); }
    PassTame(r, s, 0, ok);
    qs := PassKeeps(ps, Pass(r, s, 0), ok);
  }

  /** Every replacement is one the rule can produce. */
  lemma {:induction false} SwapsOfPass(r: Rule, s: string, i: nat)
    requires i <= |s|
    ensures forall x :: x in SwapsOf(s, i, Pass(r, s, i)) ==> r.fits(x.1) && x.0 == r.name(x.1)
    decreases |s| - i
  {
    if i < |s| {
      Matched(r, s, i);
      PassStep(r, s, i);
      SwapsOfPass(r, s, i + CutAt(r, s, i).n);
    }
  }
}
