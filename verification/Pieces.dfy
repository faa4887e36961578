/** A processed text as the sequence of what its parts came from: characters
    left as they were, and tokens with the value each one stands for. */
module Pieces {
  import opened Lexer

  datatype Piece = Raw(c: char) | Tok(p: string, v: string)

  /** The text itself. */
  function Render(ps: seq<Piece>): string {
    if ps == [] then ""
    else (match ps[0] case Raw(c) => [c] case Tok(p, _) => p) + Render(ps[1..])
  }

  /** The text the pieces came from. */
  function Source(ps: seq<Piece>): string {
    if ps == [] then ""
    else (match ps[0] case Raw(c) => [c] case Tok(_, v) => v) + Source(ps[1..])
  }

  function Plain(s: string): (ps: seq<Piece>)
    ensures |ps| == |s| && forall k :: 0 <= k < |s| ==> ps[k] == Raw(s[k])
  {
    seq(|s|, k requires 0 <= k < |s| => Raw(s[k]))
  }

  predicate WellFormed(ps: seq<Piece>) {
    forall k :: 0 <= k < |ps| && ps[k].Tok? ==> IsToken(ps[k].p)
  }

  function Lexemes(ps: seq<Piece>): (ls: seq<Lexeme>)
    ensures |ls| == |ps|
  {
    seq(|ps|, k requires 0 <= k < |ps| => match ps[k] case Raw(c) => Chr(c) case Tok(p, _) => Atm(p))
  }

  /** The pieces of an input that holds no token: its own characters carry
      none, and tokens cannot overlap what stands next to them. */
  ghost predicate Clean(ps: seq<Piece>) {
    WellFormed(ps) && AtomFree(TokenShape, Source(ps))
  }

  lemma LexemesTail(ps: seq<Piece>)
    requires ps != []
    ensures Lexemes(ps)[1..] == Lexemes(ps[1..])
  {}

  lemma {:induction false} FlatLexemes(ps: seq<Piece>)
    ensures Flat(Lexemes(ps)) == Render(ps)
  {
    if ps != [] {
      LexemesTail(ps);
      FlatLexemes(ps[1..]);
    }
  }

  lemma {:induction false} LeadIsSource(ps: seq<Piece>)
    ensures Lead(Lexemes(ps)) <= Source(ps)
  {
    if ps != [] && ps[0].Raw? {
      LexemesTail(ps);
      LeadIsSource(ps[1..]);
    }
  }

  lemma {:induction false} CleanCanonical(ps: seq<Piece>)
    requires Clean(ps)
    ensures Canonical(TokenShape, Lexemes(ps))
  {
    if ps != [] {
      LexemesTail(ps);
      CleanTail(ps);
      CleanCanonical(ps[1..]);
      assert Source(ps)[0..] == Source(ps);
      LeadIsSource(ps);
      PrefixAtom(TokenShape, Source(ps), Lead(Lexemes(ps)));
    }
  }

  lemma CleanTail(ps: seq<Piece>)
    requires Clean(ps) && ps != []
    ensures Clean(ps[1..])
  {
    var n := |Source(ps)| - |Source(ps[1..])|;
    assert Source(ps)[n..] == Source(ps[1..]);
    AtomFreeSuffix(TokenShape, Source(ps), n);
  }

  /** The scanner finds exactly the tokens that were put in. */
  lemma LexRender(ps: seq<Piece>)
    requires Clean(ps)
    ensures Lex(TokenShape, Render(ps)) == Lexemes(ps)
  {
    CleanCanonical(ps);
    FlatLexemes(ps);
    LexOfFlat(TokenShape, Lexemes(ps));
  }

  // ----- positions -----

  lemma {:induction false} RenderSplit(ps: seq<Piece>, k: nat)
    requires k <= |ps|
    ensures Render(ps) == Render(ps[..k]) + Render(ps[k..])
    ensures Source(ps) == Source(ps[..k]) + Source(ps[k..])
  {
    if k > 0 {
      RenderSplit(ps[1..], k - 1);
      assert ps[..k][1..] == ps[1..][..k - 1];
      assert ps[1..][k - 1..] == ps[k..];
    } else {
      assert ps[..0] == [] && ps[0..] == ps;
    }
  }

  lemma RenderConcat(a: seq<Piece>, b: seq<Piece>)
    ensures Render(a + b) == Render(a) + Render(b)
    ensures Source(a + b) == Source(a) + Source(b)
  {
    RenderSplit(a + b, |a|);
    assert (a + b)[..|a|] == a && (a + b)[|a|..] == b;
  }

  lemma {:induction false} PlainRender(s: string)
    ensures Render(Plain(s)) == s && Source(Plain(s)) == s
  {
    if s != "" {
      assert Plain(s)[1..] == Plain(s[1..]);
      PlainRender(s[1..]);
      assert s == [s[0]] + s[1..];
    }
  }

  function Width(p: Piece): nat { match p case Raw(_) => 1 case Tok(t, _) => |t| }

  lemma Step(ps: seq<Piece>, k: nat)
    requires k < |ps|
    ensures |Render(ps[..k + 1])| == |Render(ps[..k])| + Width(ps[k])
  {
    RenderSplit(ps[..k + 1], k);
    assert ps[..k + 1][..k] == ps[..k] && ps[..k + 1][k..] == [ps[k]];
    assert [ps[k]][1..] == [];
    assert Render([ps[k]]) == (match ps[k] case Raw(c) => [c] case Tok(p, _) => p) + "";
  }

  lemma ShiftPrefix(ps: seq<Piece>, j: nat)
    requires j < |ps|
    ensures |Render(ps[..j + 1])| == Width(ps[0]) + |Render(ps[1..][..j])|
  {
    assert ps[..j + 1][1..] == ps[1..][..j];
    assert ps[..j + 1][0] == ps[0];
  }

  /** Within the first piece only its own start can open a token. */
  lemma HeadAtom(ps: seq<Piece>, b: nat)
    requires Clean(ps) && ps != [] && b < Width(ps[0])
    ensures Width(ps[0]) <= |Render(ps)| && Render(ps)[Width(ps[0])..] == Render(ps[1..])
    ensures AtomLen(TokenShape, Render(ps)[b..]) == if ps[0].Tok? && b == 0 then Width(ps[0]) else 0
  {
    var s, w := Render(ps), Width(ps[0]);
    assert s[0..] == s;
    if ps[0].Tok? {
      assert s[..w] == ps[0].p;
      AtomLenUnique(TokenShape, s, w);
      if 0 < b { NoAtomInside(TokenShape, s, b); }
    } else {
      CleanCanonical(ps);
      FlatLexemes(ps);
      NoAtomAtChr(TokenShape, Lexemes(ps));
    }
  }

  lemma HeadToken(ps: seq<Piece>, b: nat)
    requires Clean(ps) && ps != [] && b < Width(ps[0]) && b < |Render(ps)| && AtomLen(TokenShape, Render(ps)[b..]) > 0
    ensures ps[0].Tok? && |ps[0].p| == AtomLen(TokenShape, Render(ps)[b..]) && |Render(ps[..0])| == b
  {
    HeadAtom(ps, b);
  }

  /** Where a token starts in the text, a token piece starts. */
  lemma {:induction false} TokenStarts(ps: seq<Piece>, b: nat) returns (k: nat)
    requires Clean(ps) && b < |Render(ps)|
    requires AtomLen(TokenShape, Render(ps)[b..]) > 0
    ensures k < |ps| && ps[k].Tok? && |Render(ps[..k])| == b
    ensures |ps[k].p| == AtomLen(TokenShape, Render(ps)[b..])
  {
    var w := Width(ps[0]);
    if b < w {
      HeadToken(ps, b);
      k := 0;
    } else {
      TailText(ps, b);
      var j := TokenStarts(ps[1..], b - w);
      k := LaterToken(ps, j);
    }
  }

  lemma LaterToken(ps: seq<Piece>, j: nat) returns (k: nat)
    requires ps != [] && j < |ps[1..]|
    ensures k == j + 1 < |ps| && ps[k] == ps[1..][j]
    ensures |Render(ps[..k])| == Width(ps[0]) + |Render(ps[1..][..j])|
  {
    k := j + 1;
    ShiftPrefix(ps, j);
  }

  lemma TailText(ps: seq<Piece>, b: nat)
    requires Clean(ps) && ps != [] && Width(ps[0]) <= b < |Render(ps)|
    ensures Clean(ps[1..]) && b - Width(ps[0]) < |Render(ps[1..])|
    ensures AtomLen(TokenShape, Render(ps)[b..]) == AtomLen(TokenShape, Render(ps[1..])[b - Width(ps[0])..])
  {
    HeadAtom(ps, 0);
    CleanTail(ps);
    DropDrop(Render(ps), Width(ps[0]), b);
  }

  /** `_in_token`: position `pos` lies in a token of `s`. */
  predicate InToken(s: string, pos: nat) {
    exists b: nat :: b <= pos < |s| && pos < b + AtomLen(TokenShape, s[b..])
  }

  lemma TokInToken(ps: seq<Piece>, k: nat, j: nat)
    requires Clean(ps) && k < |ps| && ps[k].Tok? && j < |ps[k].p|
    ensures |Render(ps[..k])| + |ps[k].p| <= |Render(ps)|
    ensures InToken(Render(ps), |Render(ps[..k])| + j)
    ensures Render(ps)[|Render(ps[..k])|..] == ps[k].p + Render(ps[k + 1..])
  {
    TokStands(ps, k);
    var s, b := Render(ps), |Render(ps[..k])|;
    assert s[b..][..|ps[k].p|] == ps[k].p;
    AtomLenUnique(TokenShape, s[b..], |ps[k].p|);
  }

  lemma TokStands(ps: seq<Piece>, k: nat)
    requires k < |ps| && ps[k].Tok?
    ensures |Render(ps[..k])| + |ps[k].p| <= |Render(ps)|
    ensures Render(ps)[|Render(ps[..k])|..] == ps[k].p + Render(ps[k + 1..])
  {
    RenderSplit(ps, k);
    assert Render(ps)[|Render(ps[..k])|..] == Render(ps[k..]);
    assert ps[k..][1..] == ps[k + 1..];
  }

  lemma RenderMonotone(ps: seq<Piece>, j: nat, k: nat)
    requires j <= k <= |ps|
    ensures |Render(ps[..j])| <= |Render(ps[..k])|
  {
    RenderSplit(ps[..k], j);
    assert ps[..k][..j] == ps[..j];
  }

  lemma RawNotInToken(ps: seq<Piece>, k: nat)
    requires Clean(ps) && k < |ps| && ps[k].Raw?
    ensures |Render(ps[..k])| < |Render(ps)|
    ensures !InToken(Render(ps), |Render(ps[..k])|)
    ensures Render(ps)[|Render(ps[..k])|..] == [ps[k].c] + Render(ps[k + 1..])
  {
    var s, i := Render(ps), |Render(ps[..k])|;
    RenderSplit(ps, k);
    assert ps[k..][1..] == ps[k + 1..];
    forall b: nat | b <= i && AtomLen(TokenShape, s[b..]) > 0
      ensures b + AtomLen(TokenShape, s[b..]) <= i
    {
      var m := TokenStarts(ps, b);
      Step(ps, m);
      Step(ps, k);
      if m < k {
        RenderMonotone(ps, m + 1, k);
      } else {
        RenderMonotone(ps, k + 1, m);
      }
    }
  }

  // ----- coarsening -----

  /** `qs` is `ps` with some runs of plain characters turned into tokens for
      exactly those characters; every token of `ps` stands untouched. */
  predicate Coarsens(qs: seq<Piece>, ps: seq<Piece>)
    decreases |qs|
  {
    if qs == [] then ps == []
    else
      || (ps != [] && ps[0] == qs[0] && Coarsens(qs[1..], ps[1..]))
      || (qs[0].Tok? && qs[0].v != "" && |qs[0].v| <= |ps| && ps[..|qs[0].v|] == Plain(qs[0].v)
          && Coarsens(qs[1..], ps[|qs[0].v|..]))
  }

  lemma {:induction false} CoarsensRefl(ps: seq<Piece>)
    ensures Coarsens(ps, ps)
  {
    if ps != [] { CoarsensRefl(ps[1..]); }
  }

  lemma {:induction false} CoarsensSource(qs: seq<Piece>, ps: seq<Piece>)
    requires Coarsens(qs, ps)
    ensures Source(qs) == Source(ps)
    decreases |qs|
  {
    if qs != [] {
      if ps != [] && ps[0] == qs[0] && Coarsens(qs[1..], ps[1..]) {
        CoarsensSource(qs[1..], ps[1..]);
      } else {
        var n := |qs[0].v|;
        CoarsensSource(qs[1..], ps[n..]);
        RenderSplit(ps, n);
        PlainRender(qs[0].v);
      }
    }
  }

  /** Plain characters left over were plain before. */
  lemma {:induction false} CoarsensPlain(qs: seq<Piece>, ps: seq<Piece>, n: nat)
    requires Coarsens(qs, ps) && n <= |qs|
    requires forall k :: 0 <= k < n ==> qs[k].Raw?
    ensures n <= |ps| && ps[..n] == qs[..n] && Coarsens(qs[n..], ps[n..])
  {
    if n > 0 {
      CoarsensPlain(qs[1..], ps[1..], n - 1);
      assert qs[1..][n - 1..] == qs[n..] && ps[1..][n - 1..] == ps[n..];
      assert qs[..n] == [qs[0]] + qs[1..][..n - 1];
      assert ps[..n] == [ps[0]] + ps[1..][..n - 1];
    } else {
      assert qs[0..] == qs && ps[0..] == ps;
    }
  }

  /** Passes compose. */
  lemma {:induction false} CoarsensTrans(rs: seq<Piece>, qs: seq<Piece>, ps: seq<Piece>)
    requires Coarsens(rs, qs) && Coarsens(qs, ps)
    ensures Coarsens(rs, ps)
    decreases |rs|
  {
    if rs != [] {
      if qs != [] && qs[0] == rs[0] && Coarsens(rs[1..], qs[1..]) {
        if ps != [] && ps[0] == qs[0] && Coarsens(qs[1..], ps[1..]) {
          CoarsensTrans(rs[1..], qs[1..], ps[1..]);
        } else {
          CoarsensTrans(rs[1..], qs[1..], ps[|qs[0].v|..]);
        }
      } else {
        var n := |rs[0].v|;
        assert forall k :: 0 <= k < n ==> qs[k] == qs[..n][k];
        CoarsensPlain(qs, ps, n);
        CoarsensTrans(rs[1..], qs[n..], ps[n..]);
      }
    }
  }

  /** No pass breaks a token of an earlier one. */
  lemma {:induction false} CoarsensKeepsTokens(qs: seq<Piece>, ps: seq<Piece>, k: nat)
    requires Coarsens(qs, ps) && k < |ps| && ps[k].Tok?
    ensures ps[k] in qs
    decreases |qs|
  {
    if ps != [] && ps[0] == qs[0] && Coarsens(qs[1..], ps[1..]) {
      if k > 0 { CoarsensKeepsTokens(qs[1..], ps[1..], k - 1); }
    } else {
      var n := |qs[0].v|;
      assert forall j :: 0 <= j < n ==> ps[j] == ps[..n][j];
      CoarsensKeepsTokens(qs[1..], ps[n..], k - n);
    }
  }
}
