/** A text cut into stretches that stay and stretches that become tokens. */
module Cuts {
  import opened Lexer
  import opened Pieces

  datatype Cut = Keep(n: nat) | Swap(n: nat, p: string)

  /** The cuts tile `s` from position `i` to its end. */
  predicate Covers(s: string, i: nat, cuts: seq<Cut>)
    decreases |cuts|
  {
    if cuts == [] then i == |s|
    else 0 < cuts[0].n && i + cuts[0].n <= |s| && Covers(s, i + cuts[0].n, cuts[1..])
  }

  function Piece0(s: string, i: nat, c: Cut): string
    requires i + c.n <= |s|
  {
    match c case Keep(n) => s[i..i + n] case Swap(_, p) => p
  }

  /** The text the cuts leave. */
  function Emit(s: string, i: nat, cuts: seq<Cut>): string
    requires Covers(s, i, cuts)
    decreases |cuts|
  {
    if cuts == [] then "" else Piece0(s, i, cuts[0]) + Emit(s, i + cuts[0].n, cuts[1..])
  }

  /** The replacements the cuts make, in order: the token and the value. */
  function SwapsOf(s: string, i: nat, cuts: seq<Cut>): seq<(string, string)>
    requires Covers(s, i, cuts)
    decreases |cuts|
  {
    if cuts == [] then [] else SwapIn(s, i, cuts[0]) + SwapsOf(s, i + cuts[0].n, cuts[1..])
  }

  function SwapIn(s: string, i: nat, c: Cut): seq<(string, string)>
    requires i + c.n <= |s|
  {
    match c case Keep(_) => [] case Swap(n, p) => [(p, s[i..i + n])]
  }

  ghost predicate NoBracket(s: string, i: nat, n: nat)
    requires i + n <= |s|
  {
    forall k :: i <= k < i + n ==> s[k] != '[' && s[k] != ']'
  }

  /** A cut respects the tokens in `s`: inside one nothing is replaced, and a
      stretch longer than one character never spans a bracket. `ok` holds the
      (token, value) pairs a replacement may use. */
  ghost predicate Tame(s: string, i: nat, c: Cut, ok: iset<(string, string)>) {
    && 0 < c.n && i + c.n <= |s|
    && (c.Swap? ==> !InToken(s, i) && (c.p, s[i..i + c.n]) in ok)
    && (NoBracket(s, i, c.n) || c == Keep(1))
  }

  ghost predicate AllTame(s: string, i: nat, cuts: seq<Cut>, ok: iset<(string, string)>)
    decreases |cuts|
  {
    cuts == [] || (Tame(s, i, cuts[0], ok) && AllTame(s, i + cuts[0].n, cuts[1..], ok))
  }

  lemma SplitSlice(s: string, i: nat, m: nat, end: nat, t: string)
    requires i <= m <= end <= |s|
    ensures s[i..m] + (s[m..end] + t) == s[i..end] + t
  {
    assert s[i..m] + s[m..end] == s[i..end];
  }

  /** The cuts from position `end` on, when the first one starts at `i`. */
  function Skip(i: nat, end: nat, cuts: seq<Cut>): seq<Cut>
    decreases |cuts|
  {
    if end <= i || cuts == [] then cuts else Skip(i + cuts[0].n, end, cuts[1..])
  }

  /** From inside a token up to its end, the cuts copy. */
  lemma {:induction false} ThroughToken(s: string, i: nat, end: nat, cuts: seq<Cut>, ok: iset<(string, string)>)
    returns (rest: seq<Cut>)
    requires Covers(s, i, cuts) && AllTame(s, i, cuts, ok)
    requires i < end <= |s| && s[end - 1] == ']'
    requires forall j :: i <= j < end ==> InToken(s, j)
    ensures rest == Skip(i, end, cuts)
    ensures Covers(s, end, rest) && AllTame(s, end, rest, ok)
    ensures Emit(s, i, cuts) == s[i..end] + Emit(s, end, rest)
    ensures SwapsOf(s, i, cuts) == SwapsOf(s, end, rest)
    decreases |cuts|
  {
    var m := i + cuts[0].n;
    assert cuts[0].Keep? && m <= end;
    if m < end {
      rest := ThroughToken(s, m, end, cuts[1..], ok);
      SplitSlice(s, i, m, end, Emit(s, end, rest));
    } else {
      rest := cuts[1..];
    }
  }

  // ----- aligning cuts with pieces -----

  predicate Bracketed(p: string) { p != "" && p[0] == '[' && p[|p| - 1] == ']' }

  /** From `i` on, `s` is the text of `ps`, and its tokens are those of `ps`. */
  ghost predicate Aligned(s: string, i: nat, ps: seq<Piece>)
    decreases |ps|
  {
    if ps == [] then i == |s|
    else match ps[0]
      case Raw(c) => i < |s| && s[i] == c && !InToken(s, i) && Aligned(s, i + 1, ps[1..])
      case Tok(p, _) =>
        && Bracketed(p) && i + |p| <= |s| && s[i..i + |p|] == p
        && (forall j :: i <= j < i + |p| ==> InToken(s, j))
        && Aligned(s, i + |p|, ps[1..])
  }

  lemma SliceOf(s: string, i: nat, p: string, t: string)
    requires i <= |s| && s[i..] == p + t
    ensures i + |p| <= |s| && s[i..i + |p|] == p
  {
    assert s[i..i + |p|] == s[i..][..|p|];
  }

  lemma TokHere(ps: seq<Piece>, k: nat, i: nat)
    requires Clean(ps) && k < |ps| && ps[k].Tok? && i == |Render(ps[..k])|
    ensures Bracketed(ps[k].p)
    ensures i + |ps[k].p| <= |Render(ps)| && Render(ps)[i..i + |ps[k].p|] == ps[k].p
    ensures forall j :: i <= j < i + |ps[k].p| ==> InToken(Render(ps), j)
  {
    TokStands(ps, k);
    SliceOf(Render(ps), i, ps[k].p, Render(ps[k + 1..]));
    forall j | i <= j < i + |ps[k].p| ensures InToken(Render(ps), j) { TokInToken(ps, k, j - i); }
  }

  lemma RawHere(ps: seq<Piece>, k: nat, i: nat)
    requires Clean(ps) && k < |ps| && ps[k].Raw? && i == |Render(ps[..k])|
    ensures i < |Render(ps)| && Render(ps)[i] == ps[k].c && !InToken(Render(ps), i)
  {
    RawNotInToken(ps, k);
    assert Render(ps)[i] == Render(ps)[i..][0];
  }

  lemma AlignedCons(s: string, i: nat, p: Piece, rest: seq<Piece>)
    requires i + Width(p) <= |s| && Aligned(s, i + Width(p), rest)
    requires p.Raw? ==> s[i] == p.c && !InToken(s, i)
    requires p.Tok? ==> Bracketed(p.p) && s[i..i + |p.p|] == p.p && forall j :: i <= j < i + |p.p| ==> InToken(s, j)
    ensures Aligned(s, i, [p] + rest)
  {
    assert ([p] + rest)[1..] == rest;
    if p.Raw? { AlignedRaw(s, i, [p] + rest); } else { AlignedTok(s, i, [p] + rest); }
  }

  lemma AlignedRaw(s: string, i: nat, ps: seq<Piece>)
    requires ps != [] && ps[0].Raw? && i < |s| && s[i] == ps[0].c && !InToken(s, i) && Aligned(s, i + 1, ps[1..])
    ensures Aligned(s, i, ps)
  {}

  lemma AlignedTok(s: string, i: nat, ps: seq<Piece>)
    requires ps != [] && ps[0].Tok? && Bracketed(ps[0].p) && i + |ps[0].p| <= |s| && s[i..i + |ps[0].p|] == ps[0].p
    requires (forall j :: i <= j < i + |ps[0].p| ==> InToken(s, j)) && Aligned(s, i + |ps[0].p|, ps[1..])
    ensures Aligned(s, i, ps)
  {}

  lemma {:induction false} CleanAligned(ps: seq<Piece>, k: nat, i: nat)
    requires Clean(ps) && k <= |ps| && i == |Render(ps[..k])|
    ensures Aligned(Render(ps), i, ps[k..])
    decreases |ps| - k
  {
    if k == |ps| {
      assert ps[..k] == ps;
    } else {
      if ps[k].Raw? { RawHere(ps, k, i); } else { TokHere(ps, k, i); }
      Step(ps, k);
      CleanAligned(ps, k + 1, i + Width(ps[k]));
      AlignedCons(Render(ps), i, ps[k], ps[k + 1..]);
      assert ps[k..] == [ps[k]] + ps[k + 1..];
    }
  }

  lemma PlainHead(s: string, i: nat, ps: seq<Piece>)
    requires Aligned(s, i, ps) && i < |s|
    ensures ps != [] && (ps[0].Tok? ==> s[i] == '[')
  {
    if ps[0].Tok? { assert s[i] == s[i..i + |ps[0].p|][0]; }
  }

  lemma PlainFirst(s: string, i: nat, ps: seq<Piece>)
    requires Aligned(s, i, ps) && i < |s| && (s[i] != '[' || (ps != [] && ps[0].Raw?))
    ensures ps != [] && ps[0] == Raw(s[i]) && Aligned(s, i + 1, ps[1..])
  {
    PlainHead(s, i, ps);
  }

  /** A bracket-free stretch that starts at a plain piece covers plain pieces. */
  lemma {:induction false} PlainStretch(s: string, i: nat, n: nat, ps: seq<Piece>)
    requires Aligned(s, i, ps) && i + n <= |s|
    requires NoBracket(s, i, n) || (n == 1 && ps != [] && ps[0].Raw?)
    ensures n <= |ps| && ps == Plain(s[i..i + n]) + ps[n..] && Aligned(s, i + n, ps[n..])
    decreases n
  {
    if n == 0 {
      assert ps[0..] == ps;
    } else {
      PlainFirst(s, i, ps);
      PlainStretch(s, i + 1, n - 1, ps[1..]);
      PlainJoin(s, i, n, ps);
    }
  }

  lemma PlainJoin(s: string, i: nat, n: nat, ps: seq<Piece>)
    requires 0 < n <= |ps| && i + n <= |s| && ps[0] == Raw(s[i])
    requires ps[1..] == Plain(s[i + 1..i + n]) + ps[1..][n - 1..]
    ensures ps == Plain(s[i..i + n]) + ps[n..] && ps[1..][n - 1..] == ps[n..]
  {
    assert ps[1..][n - 1..] == ps[n..];
    var v := s[i..i + n];
    assert Plain(v) == [Raw(v[0])] + Plain(s[i + 1..i + n]);
    assert ps == [ps[0]] + ps[1..];
  }

  lemma {:induction false} CoarsensAppend(v: string, qs: seq<Piece>, ps: seq<Piece>)
    requires Coarsens(qs, ps)
    ensures Coarsens(Plain(v) + qs, Plain(v) + ps)
  {
    if v == "" {
      assert Plain(v) + qs == qs && Plain(v) + ps == ps;
    } else {
      CoarsensAppend(v[1..], qs, ps);
      assert Plain(v)[1..] == Plain(v[1..]);
      assert (Plain(v) + qs)[1..] == Plain(v[1..]) + qs;
      assert (Plain(v) + ps)[1..] == Plain(v[1..]) + ps;
    }
  }

  /** The tokens of `qs` are tokens of `ps` or allowed replacements. */
  ghost predicate Known(qs: seq<Piece>, ps: seq<Piece>, ok: iset<(string, string)>) {
    forall j :: 0 <= j < |qs| && qs[j].Tok? ==> qs[j] in ps || (qs[j].p, qs[j].v) in ok
  }

  lemma KnownConcat(a: seq<Piece>, b: seq<Piece>, ps: seq<Piece>, ok: iset<(string, string)>)
    requires Known(a, ps, ok) && Known(b, ps, ok)
    ensures Known(a + b, ps, ok)
  {}

  lemma KnownLonger(b: seq<Piece>, ps: seq<Piece>, n: nat, ok: iset<(string, string)>)
    requires n <= |ps| && Known(b, ps[n..], ok)
    ensures Known(b, ps, ok)
  {}

  /** The pieces of one cut at a plain piece. */
  lemma Prepend(s: string, i: nat, c: Cut, m: nat, after: seq<Piece>, rest: seq<Piece>, ok: iset<(string, string)>)
    returns (qs: seq<Piece>)
    requires i < m == i + c.n <= |s| && Coarsens(rest, after) && Known(rest, after, ok)
    requires c.Swap? ==> (c.p, s[i..m]) in ok
    ensures qs == Made(s, i, c) + rest
    ensures Render(qs) == Piece0(s, i, c) + Render(rest)
    ensures Coarsens(qs, Plain(s[i..m]) + after) && Known(qs, Plain(s[i..m]) + after, ok)
  {
    var v := s[i..m];
    var tail := Plain(v) + after;
    assert tail[c.n..] == after && tail[..c.n] == Plain(v);
    KnownLonger(rest, tail, c.n, ok);
    match c
    case Swap(_, p) =>
      qs := [Tok(p, v)] + rest;
      assert qs[1..] == rest;
      KnownConcat([Tok(p, v)], rest, tail, ok);
    case Keep(_) =>
      qs := Plain(v) + rest;
      PlainRender(v);
      RenderConcat(Plain(v), rest);
      CoarsensAppend(v, rest, after);
      KnownConcat(Plain(v), rest, tail, ok);
  }

  lemma LastOf(s: string, i: nat, p: string)
    requires Bracketed(p) && i + |p| <= |s| && s[i..i + |p|] == p
    ensures s[i + |p| - 1] == ']'
  {
    assert s[i + |p| - 1] == s[i..i + |p|][|p| - 1];
  }

  lemma PrependTok(ps: seq<Piece>, rest: seq<Piece>, ok: iset<(string, string)>) returns (qs: seq<Piece>)
    requires ps != [] && ps[0].Tok? && Coarsens(rest, ps[1..]) && Known(rest, ps[1..], ok)
    ensures qs == [ps[0]] + rest && Render(qs) == ps[0].p + Render(rest)
    ensures Coarsens(qs, ps) && Known(qs, ps, ok)
  {
    qs := [ps[0]] + rest;
    assert qs[1..] == rest;
    KnownLonger(rest, ps, 1, ok);
  }

  /** The pieces of one cut. */
  function Made(s: string, i: nat, c: Cut): seq<Piece>
    requires i + c.n <= |s|
  {
    match c case Swap(_, p) => [Tok(p, s[i..i + c.n])] case Keep(_) => Plain(s[i..i + c.n])
  }

  /** The pieces the cuts make of `ps`. */
  function Build(s: string, i: nat, ps: seq<Piece>, cuts: seq<Cut>): seq<Piece>
    decreases |ps|
  {
    if ps == [] then []
    else if ps[0].Tok? then
      [ps[0]] + Build(s, i + |ps[0].p|, ps[1..], Skip(i, i + |ps[0].p|, cuts))
    else if cuts == [] || cuts[0].n == 0 || cuts[0].n > |ps| || i + cuts[0].n > |s| then ps
    else
      Made(s, i, cuts[0]) + Build(s, i + cuts[0].n, ps[cuts[0].n..], cuts[1..])
  }

  /** Tame cuts turn runs of plain pieces into tokens and leave every token
      alone. */
  lemma {:induction false} CutPieces(s: string, i: nat, ps: seq<Piece>, cuts: seq<Cut>, ok: iset<(string, string)>)
    returns (qs: seq<Piece>)
    requires Aligned(s, i, ps) && Covers(s, i, cuts) && AllTame(s, i, cuts, ok)
    ensures qs == Build(s, i, ps, cuts)
    ensures Render(qs) == Emit(s, i, cuts)
    ensures Coarsens(qs, ps) && Known(qs, ps, ok)
    decreases |ps|
  {
    if ps == [] {
      qs := [];
    } else if ps[0].Tok? {
      var after := AtToken(s, i, ps, cuts, ok);
      var rest := CutPieces(s, i + |ps[0].p|, ps[1..], after, ok);
      qs := PrependTok(ps, rest, ok);
    } else {
      qs := PlainPieces(s, i, ps, cuts, ok);
    }
  }

  /** The cut `c` at a plain piece, and what lies behind it. */
  ghost predicate PlainCut(s: string, i: nat, ps: seq<Piece>, cuts: seq<Cut>, m: nat, after: seq<Piece>, rest: seq<Cut>)
  {
    && Covers(s, i, cuts) && cuts != [] && ps != [] && ps[0].Raw? && cuts[0].n <= |ps|
    && m == i + cuts[0].n && after == ps[cuts[0].n..] && rest == cuts[1..] && ps == Plain(s[i..m]) + after
    && Covers(s, m, rest)
  }

  lemma PlainSteps(s: string, i: nat, ps: seq<Piece>, cuts: seq<Cut>, m: nat, after: seq<Piece>, rest: seq<Cut>)
    requires PlainCut(s, i, ps, cuts, m, after, rest)
    ensures Build(s, i, ps, cuts) == Made(s, i, cuts[0]) + Build(s, m, after, rest)
    ensures Emit(s, i, cuts) == Piece0(s, i, cuts[0]) + Emit(s, m, rest)
    ensures SwapsOf(s, i, cuts) == SwapIn(s, i, cuts[0]) + SwapsOf(s, m, rest)
  {}

  lemma {:induction false} PlainPieces(s: string, i: nat, ps: seq<Piece>, cuts: seq<Cut>, ok: iset<(string, string)>)
    returns (qs: seq<Piece>)
    requires Aligned(s, i, ps) && Covers(s, i, cuts) && AllTame(s, i, cuts, ok) && ps != [] && ps[0].Raw?
    ensures qs == Build(s, i, ps, cuts)
    ensures Render(qs) == Emit(s, i, cuts)
    ensures Coarsens(qs, ps) && Known(qs, ps, ok)
    decreases |ps|, 0
  {
    var m, after, later := AtPlain(s, i, ps, cuts, ok);
    var rest := CutPieces(s, m, after, later, ok);
    PlainSteps(s, i, ps, cuts, m, after, later);
    qs := Prepend(s, i, cuts[0], m, after, rest, ok);
  }

  lemma AtToken(s: string, i: nat, ps: seq<Piece>, cuts: seq<Cut>, ok: iset<(string, string)>) returns (after: seq<Cut>)
    requires Aligned(s, i, ps) && Covers(s, i, cuts) && AllTame(s, i, cuts, ok) && ps != [] && ps[0].Tok?
    ensures after == Skip(i, i + |ps[0].p|, cuts)
    ensures var m := i + |ps[0].p|;
            && Aligned(s, m, ps[1..]) && Covers(s, m, after) && AllTame(s, m, after, ok)
            && Emit(s, i, cuts) == ps[0].p + Emit(s, m, after)
            && SwapsOf(s, i, cuts) == SwapsOf(s, m, after)
  {
    TokFacts(s, i, ps);
    after := ThroughToken(s, i, i + |ps[0].p|, cuts, ok);
  }

  lemma TokFacts(s: string, i: nat, ps: seq<Piece>)
    requires Aligned(s, i, ps) && ps != [] && ps[0].Tok?
    ensures var m := i + |ps[0].p|;
            && i < m <= |s| && s[i..m] == ps[0].p && s[m - 1] == ']' && Aligned(s, m, ps[1..])
            && forall j :: i <= j < m ==> InToken(s, j)
  {
    LastOf(s, i, ps[0].p);
  }

  lemma AtPlain(s: string, i: nat, ps: seq<Piece>, cuts: seq<Cut>, ok: iset<(string, string)>)
    returns (m: nat, after: seq<Piece>, rest: seq<Cut>)
    requires Aligned(s, i, ps) && Covers(s, i, cuts) && AllTame(s, i, cuts, ok) && ps != [] && ps[0].Raw?
    ensures cuts != [] && i < m == i + cuts[0].n <= |s| && cuts[0].n <= |ps|
    ensures after == ps[cuts[0].n..] && rest == cuts[1..] && ps == Plain(s[i..m]) + after
    ensures Aligned(s, m, after) && Covers(s, m, rest) && AllTame(s, m, rest, ok)
    ensures cuts[0].Swap? ==> (cuts[0].p, s[i..m]) in ok
  {
    PlainStretch(s, i, cuts[0].n, ps);
    m, after, rest := i + cuts[0].n, ps[cuts[0].n..], cuts[1..];
  }

  /** One pass keeps the round trip: its output is clean text over the same
      source, with every earlier token intact. */
  lemma PassKeeps(ps: seq<Piece>, cuts: seq<Cut>, ok: iset<(string, string)>) returns (qs: seq<Piece>)
    requires Clean(ps) && Covers(Render(ps), 0, cuts) && AllTame(Render(ps), 0, cuts, ok)
    requires forall t :: t in ok ==> IsToken(t.0)
    ensures qs == Build(Render(ps), 0, ps, cuts) && Render(qs) == Emit(Render(ps), 0, cuts)
    ensures Clean(qs) && Coarsens(qs, ps) && Known(qs, ps, ok)
    ensures Toks(qs) == Toks(ps) + Pairs(SwapsOf(Render(ps), 0, cuts))
  {
    assert ps[..0] == [] && ps[0..] == ps;
    CleanAligned(ps, 0, 0);
    qs := CutPieces(Render(ps), 0, ps, cuts, ok);
    SwapsLand(Render(ps), 0, ps, cuts, ok);
    CoarsensSource(qs, ps);
  }

  // ----- which tokens the result has -----

  /** The (token, value) pairs of the token pieces. */
  function Toks(ps: seq<Piece>): set<(string, string)> {
    if ps == [] then {} else (match ps[0] case Raw(_) => {} case Tok(p, v) => {(p, v)}) + Toks(ps[1..])
  }

  function Pairs(swaps: seq<(string, string)>): set<(string, string)> { set x | x in swaps }

  lemma PairsConcat(a: seq<(string, string)>, b: seq<(string, string)>)
    ensures Pairs(a + b) == Pairs(a) + Pairs(b)
  {}

  lemma {:induction false} ToksConcat(a: seq<Piece>, b: seq<Piece>)
    ensures Toks(a + b) == Toks(a) + Toks(b)
  {
    if a == [] {
      assert a + b == b;
    } else {
      assert (a + b)[1..] == a[1..] + b;
      ToksConcat(a[1..], b);
    }
  }

  lemma {:induction false} ToksPlain(v: string)
    ensures Toks(Plain(v)) == {}
  {
    if v != "" {
      assert Plain(v)[1..] == Plain(v[1..]);
      ToksPlain(v[1..]);
    }
  }

  lemma {:induction false} ToksHas(ps: seq<Piece>, p: string, v: string)
    ensures (p, v) in Toks(ps) <==> Tok(p, v) in ps
  {
    if ps != [] {
      ToksHas(ps[1..], p, v);
      assert ps == [ps[0]] + ps[1..];
    }
  }

  lemma ToksMade(s: string, i: nat, c: Cut)
    requires i + c.n <= |s|
    ensures Toks(Made(s, i, c)) == Pairs(SwapIn(s, i, c))
  {
    match c
    case Keep(n) =>
      ToksPlain(s[i..i + n]);
      assert Pairs([]) == {};
    case Swap(n, p) =>
      var t := Tok(p, s[i..i + n]);
      assert [t][1..] == [];
      assert Pairs([(p, s[i..i + n])]) == {(p, s[i..i + n])};
  }

  lemma Unions<T>(a: set<T>, b: set<T>, c: set<T>)
    ensures a + (b + c) == (a + b) + c && a + (b + c) == b + (a + c)
  {}

  /** Every replacement lands in the result as a token, and nothing else does. */
  ghost predicate Lands(s: string, i: nat, ps: seq<Piece>, cuts: seq<Cut>)
    requires Covers(s, i, cuts)
  {
    Toks(Build(s, i, ps, cuts)) == Toks(ps) + Pairs(SwapsOf(s, i, cuts))
  }

  lemma {:induction false} SwapsLand(s: string, i: nat, ps: seq<Piece>, cuts: seq<Cut>, ok: iset<(string, string)>)
    requires Aligned(s, i, ps) && Covers(s, i, cuts) && AllTame(s, i, cuts, ok)
    ensures Lands(s, i, ps, cuts)
    decreases |ps|
  {
    if ps == [] {
      assert cuts == [];
      assert Pairs([]) == {};
    } else if ps[0].Tok? {
      var after := AtToken(s, i, ps, cuts, ok);
      SwapsLand(s, i + |ps[0].p|, ps[1..], after, ok);
      LandTok(s, i, ps, cuts, i + |ps[0].p|, after);
    } else {
      var m, after, later := AtPlain(s, i, ps, cuts, ok);
      SwapsLand(s, m, after, later, ok);
      LandPlain(s, i, ps, cuts, m, after, later);
    }
  }

  lemma ToksCons(p: Piece, rest: seq<Piece>)
    ensures Toks([p] + rest) == (match p case Raw(_) => {} case Tok(t, v) => {(t, v)}) + Toks(rest)
  {
    assert ([p] + rest)[1..] == rest;
  }

  lemma LandTok(s: string, i: nat, ps: seq<Piece>, cuts: seq<Cut>, m: nat, after: seq<Cut>)
    requires Covers(s, i, cuts) && ps != [] && ps[0].Tok? && m == i + |ps[0].p| && after == Skip(i, m, cuts)
    requires Covers(s, m, after) && SwapsOf(s, i, cuts) == SwapsOf(s, m, after) && Lands(s, m, ps[1..], after)
    ensures Lands(s, i, ps, cuts)
  {
    ToksCons(ps[0], ps[1..]);
    ToksCons(ps[0], Build(s, m, ps[1..], after));
    assert [ps[0]] + ps[1..] == ps;
    Unions({(ps[0].p, ps[0].v)}, Toks(ps[1..]), Pairs(SwapsOf(s, m, after)));
  }

  lemma LandMade(s: string, i: nat, c: Cut, rest: seq<Piece>)
    requires i + c.n <= |s|
    ensures Toks(Made(s, i, c) + rest) == Pairs(SwapIn(s, i, c)) + Toks(rest)
  {
    ToksConcat(Made(s, i, c), rest);
    ToksMade(s, i, c);
  }

  lemma SetsLand<T>(all: set<T>, here: set<T>, rest: set<T>, after: set<T>, later: set<T>, was: set<T>, placed: set<T>)
    requires all == here + rest && rest == after + later && was == after && placed == here + later
    ensures all == was + placed
  {}

  lemma LandPlain(s: string, i: nat, ps: seq<Piece>, cuts: seq<Cut>, m: nat, after: seq<Piece>, rest: seq<Cut>)
    requires PlainCut(s, i, ps, cuts, m, after, rest) && Lands(s, m, after, rest)
    ensures Lands(s, i, ps, cuts)
  {
    PlainSteps(s, i, ps, cuts, m, after, rest);
    LandMade(s, i, cuts[0], Build(s, m, after, rest));
    ToksConcat(Plain(s[i..m]), after);
    ToksPlain(s[i..m]);
    PairsConcat(SwapIn(s, i, cuts[0]), SwapsOf(s, m, rest));
    SetsLand(Toks(Build(s, i, ps, cuts)), Pairs(SwapIn(s, i, cuts[0])), Toks(Build(s, m, after, rest)), Toks(after),
             Pairs(SwapsOf(s, m, rest)), Toks(ps), Pairs(SwapsOf(s, i, cuts)));
  }
}
