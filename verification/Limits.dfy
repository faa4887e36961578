/** Where the promises of the text engine stop: concrete inputs outside the
    conditions of `RoundTrip`, and what the code does with them. */
module Limits {
  import opened Lexer
  import opened Pieces
  import opened Cuts
  import opened Mappings
  import opened Matching
  import opened Hosts
  import opened Reveal

  /** From `start` on no match is taken. */
  ghost predicate NoneTaken(r: Rule, s: string, start: nat) {
    forall j: nat, n: nat :: start <= j && Hit(r, s, j, n) ==> !r.takes(s, j, n)
  }

  lemma KeptHere(r: Rule, s: string, start: nat, i: nat) returns (n: nat)
    requires start <= i < |s| && NoneTaken(r, s, start)
    ensures 0 < n && i + n <= |s| && Pass(r, s, i) == [Keep(n)] + Pass(r, s, i + n)
  {
    Matched(r, s, i);
    n := CutAt(r, s, i).n;
    PassStep(r, s, i);
  }

  /** There a pass changes nothing. */
  lemma {:induction false} Untouched(r: Rule, s: string, start: nat, i: nat)
    requires start <= i <= |s| && NoneTaken(r, s, start)
    ensures Emit(s, i, Pass(r, s, i)) == s[i..] && SwapsOf(s, i, Pass(r, s, i)) == []
    decreases |s| - i
  {
    if i == |s| {
      assert s[i..] == "";
    } else {
      var n := KeptHere(r, s, start, i);
      Untouched(r, s, start, i + n);
      KeptCut(s, i, n, Pass(r, s, i), Pass(r, s, i + n));
    }
  }

  lemma KeptCut(s: string, i: nat, n: nat, cuts: seq<Cut>, rest: seq<Cut>)
    requires Covers(s, i, cuts) && cuts == [Keep(n)] + rest && i + n <= |s| && Covers(s, i + n, rest)
    requires Emit(s, i + n, rest) == s[i + n..]
    ensures Emit(s, i, cuts) == s[i..]
    ensures SwapsOf(s, i, cuts) == SwapsOf(s, i + n, rest)
  {
    assert cuts[1..] == rest;
    assert s[i..] == s[i..i + n] + s[i + n..];
  }

  /** A text with one token: plain `a`, the token, plain `b`. */
  lemma OneToken(a: string, p: string, v: string, b: string)
    ensures var ps := Plain(a) + ([Tok(p, v)] + Plain(b));
            Render(ps) == a + (p + b) && Source(ps) == a + (v + b) && Toks(ps) == {(p, v)}
  {
    var t := [Tok(p, v)];
    assert t[0] == Tok(p, v) && t[1..] == [];
    assert Render(t[1..]) == "" && Source(t[1..]) == "" && Toks(t[1..]) == {};
    assert Render(t) == p + Render(t[1..]) && Source(t) == v + Source(t[1..]) && Toks(t) == {(p, v)} + Toks(t[1..]);
    PlainRender(a);
    PlainRender(b);
    RenderConcat(t, Plain(b));
    RenderConcat(Plain(a), t + Plain(b));
    ToksPlain(a);
    ToksPlain(b);
    ToksConcat(t, Plain(b));
    ToksConcat(Plain(a), t + Plain(b));
  }

  lemma NoBrackets(s: string)
    requires '[' !in s
    ensures AtomFree(TokenShape, s)
  {
    forall i | 0 <= i <= |s| ensures AtomLen(TokenShape, s[i..]) == 0 {
      assert i < |s| ==> s[i..][0] == s[i] && s[i] in s;
      NoBracketNoAtom(s[i..]);
    }
  }

  lemma OpenOne(g: Gate, p: string, v: string, w: string, b: string)
    requires Shows(g, p) == Some(w)
    ensures OpenPieces(g, [Tok(p, v)] + Plain(b)) == Plain(w) + Plain(b)
  {
    var t := [Tok(p, v)] + Plain(b);
    assert t[0] == Tok(p, v) && t[1..] == Plain(b);
    OpenPlain(g, b, []);
    assert Plain(b) + [] == Plain(b);
  }

  lemma ThreePlain(a: string, w: string, b: string)
    ensures Render(Plain(a) + (Plain(w) + Plain(b))) == a + (w + b)
  {
    PlainRender(a);
    PlainRender(w);
    PlainRender(b);
    RenderConcat(Plain(w), Plain(b));
    RenderConcat(Plain(a), Plain(w) + Plain(b));
  }

  /** The reveal of a text with one token. */
  lemma RevealOne(g: Gate, a: string, p: string, v: string, w: string, b: string)
    requires Shows(g, p) == Some(w) && IsToken(p) && AtomFree(TokenShape, a + (v + b))
    ensures RevealText(g, a + (p + b)) == a + (w + b)
  {
    var t := [Tok(p, v)] + Plain(b);
    OneToken(a, p, v, b);
    RevealPieces(g, Plain(a) + t);
    OpenPlain(g, a, t);
    OpenOne(g, p, v, w, b);
    ThreePlain(a, w, b);
  }

  lemma TokenLabel(s: string)
    requires AtomLen(TokenShape, s) > 0
    ensures |s| > 1 && LabelChar(s[1])
  {
    var t := s[..AtomLen(TokenShape, s)];
    assert t[1] == t[1..|t| - 2 - HASH_LEN][0];
  }

  /** Labels are capitals, so `[person:12345678]` is no token. */
  lemma LowerNoToken(s: string)
    requires s == "[" + ("person" + ":12345678]")
    ensures AtomFree(TokenShape, s)
  {
    forall i | 0 <= i <= |s| ensures AtomLen(TokenShape, s[i..]) == 0 {
      if i == 0 {
        assert s[i..][1] == 'p';
        if AtomLen(TokenShape, s[i..]) > 0 { TokenLabel(s[i..]); }
      } else {
        NoBracketNoAtom(s[i..]);
      }
    }
  }

  /** With another spelling in the store, a revealed value can join its surroundings
      into a token: a second reveal then sees what the first one did not. */
  lemma SpellingJoins(g: Gate, p: string)
    requires IsToken(p) && Shows(g, p) == Some("PERSON")
    ensures RevealText(g, "[" + (p + ":12345678]")) == "[" + ("PERSON" + ":12345678]")
    ensures IsToken("[" + ("PERSON" + ":12345678]")) && AtomFree(TokenShape, "[" + ("person" + ":12345678]"))
  {
    var t := "[" + ("PERSON" + ":12345678]");
    assert |t| == 17 && t[1..7] == "PERSON" && t[8..16] == "12345678";
    LowerNoToken("[" + ("person" + ":12345678]"));
    RevealOne(g, "[", p, "person", "PERSON", ":12345678]");
  }

  // ----- marks of the text's own -----

  lemma MarkAtom(k: nat, rest: string)
    requires k < PUA_COUNT
    ensures Lex(HostShape, Mark(k) + rest) == [Atm(Mark(k))] + Lex(HostShape, rest)
  {
    LexAtm(HostShape, Mark(k), rest);
  }

  lemma TwoMarks(k: nat)
    requires k < PUA_COUNT
    ensures Lex(HostShape, Mark(0) + Mark(k)) == [Atm(Mark(0)), Atm(Mark(k))]
  {
    MarkAtom(0, Mark(k));
    MarkAtom(k, "");
    assert Mark(k) + "" == Mark(k) && Lex(HostShape, "") == [];
  }

  /** A text with one protected host and a host mark of its own behind it. The mark of the
      first host is filled with that host a second time; any other one raises. */
  lemma OwnMark(h: string, k: nat)
    requires k < PUA_COUNT
    ensures var s, spans := h + Mark(k), [(0, |h|)];
            && Without(s, spans, 0, 0) == Mark(0) + Mark(k) && Taken(s, spans, 0, 0) == [h]
            && (MarksPlaced([h], Mark(0) + Mark(k)) <==> k == 0)
            && (k == 0 ==> Back([h], Mark(0) + Mark(k)) == h + h)
  {
    var s, spans := h + Mark(k), [(0, |h|)];
    assert spans[1..] == [] && s[|h|..] == Mark(k) && s[0..0] == "" && s[0..|h|] == h;
    assert Taken(s, [], |h|, 1) == [] && Without(s, [], |h|, 1) == Mark(k);
    TwoMarks(k);
    var ls := [Atm(Mark(0)), Atm(Mark(k))];
    assert ls[0] in ls && ls[1] in ls;
    if k == 0 { FilledTwice(h); }
  }

  lemma FilledTwice(h: string)
    ensures Back([h], Mark(0) + Mark(0)) == h + h
  {
    TwoMarks(0);
    Twice(m => HostOf([h], m), Mark(0), h);
  }

  lemma Twice(f: string -> string, t: string, h: string)
    requires f(t) == h
    ensures MapFlat(f, [Atm(t), Atm(t)]) == h + h
  {
    assert [Atm(t), Atm(t)][1..] == [Atm(t)] && [Atm(t)][1..] == [];
    assert MapFlat(f, [Atm(t)]) == h + "" == h;
  }
}
