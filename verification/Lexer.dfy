/** Texts that carry delimited atoms: pseudonym tokens `[LABEL:hash]`, host
    placeholders and legend placeholders. All three start with one character,
    end with another, and hold neither inside, so a left-to-right scan finds
    them without overlap. The central fact is `LexOfFlat`: a text assembled from
    plain runs and atoms reads back as exactly those atoms when no plain run
    spells one by itself. */
module Lexer {

  // ----- shapes -----

  datatype Shape = TokenShape | HostShape | LegendShape(keys: set<string>)

  predicate Upper(c: char) { 'A' <= c <= 'Z' }
  predicate AsciiLetter(c: char) { 'A' <= c <= 'Z' || 'a' <= c <= 'z' }
  predicate AsciiDigit(c: char) { '0' <= c <= '9' }
  predicate LabelChar(c: char) { Upper(c) || AsciiDigit(c) || c == '_' }
  predicate HexChar(c: char) { AsciiDigit(c) || 'a' <= c <= 'f' }

  predicate AllLabel(s: string) { forall k :: 0 <= k < |s| ==> LabelChar(s[k]) }
  predicate AllHex(s: string) { forall k :: 0 <= k < |s| ==> HexChar(s[k]) }

  const HASH_LEN: nat := 8

  /** `\[[A-Z0-9_]+:[0-9a-f]{8}\]`, matched against a whole string. */
  predicate IsToken(t: string) {
    && |t| >= HASH_LEN + 4
    && t[0] == '[' && t[|t| - 1] == ']' && t[|t| - 2 - HASH_LEN] == ':'
    && AllLabel(t[1..|t| - 2 - HASH_LEN])
    && AllHex(t[|t| - 1 - HASH_LEN..|t| - 1])
  }

  const HOST_OPEN: char := '\U{0002}'
  const HOST_CLOSE: char := '\U{0003}'
  const PUA_FIRST: int := 0xE000
  const PUA_COUNT: int := 0x1900

  predicate IsHostMark(t: string) {
    && |t| == 3 && t[0] == HOST_OPEN && t[2] == HOST_CLOSE
    && PUA_FIRST <= t[1] as int < PUA_FIRST + PUA_COUNT
  }

  predicate IsAtom(sh: Shape, t: string) {
    match sh
    case TokenShape => IsToken(t)
    case HostShape => IsHostMark(t)
    case LegendShape(keys) => t in keys && Enclosed('[', ']', t)
  }

  function Open(sh: Shape): char { if sh.HostShape? then HOST_OPEN else '[' }
  function Close(sh: Shape): char { if sh.HostShape? then HOST_CLOSE else ']' }

  predicate Enclosed(open: char, close: char, t: string) {
    && |t| >= 2 && t[0] == open && t[|t| - 1] == close
    && forall k :: 0 < k < |t| - 1 ==> t[k] != open && t[k] != close
  }

  lemma AtomEnclosed(sh: Shape, t: string)
    requires IsAtom(sh, t)
    ensures Enclosed(Open(sh), Close(sh), t)
  {
    if sh.TokenShape? {
      forall k | 0 < k < |t| - 1 ensures t[k] != '[' && t[k] != ']' {
        if k < |t| - 2 - HASH_LEN {
          assert t[k] == t[1..|t| - 2 - HASH_LEN][k - 1];
        } else if k > |t| - 2 - HASH_LEN {
          assert t[k] == t[|t| - 1 - HASH_LEN..|t| - 1][k - (|t| - 1 - HASH_LEN)];
        }
      }
    }
  }

  // ----- scanning -----

  function FirstIndex(c: char, s: string): (n: nat)
    ensures n <= |s|
    ensures n < |s| ==> s[n] == c
    ensures forall k :: 0 <= k < n ==> s[k] != c
  {
    if s == [] || s[0] == c then 0 else 1 + FirstIndex(c, s[1..])
  }

  /** The length of the atom that starts `s`, or 0. An atom ends at its only
      closing character, so only one length can match. */
  function AtomLen(sh: Shape, s: string): (n: nat)
    ensures n <= |s|
    ensures n > 0 ==> IsAtom(sh, s[..n])
  {
    var n := FirstIndex(Close(sh), s) + 1;
    if n <= |s| && IsAtom(sh, s[..n]) then n else 0
  }

  lemma AtomLenUnique(sh: Shape, s: string, n: nat)
    requires n <= |s| && IsAtom(sh, s[..n])
    ensures AtomLen(sh, s) == n
  {
    AtomEnclosed(sh, s[..n]);
    var t := s[..n];
    assert forall k :: 0 <= k < n ==> s[k] == t[k];
    assert Open(sh) != Close(sh);
    assert FirstIndex(Close(sh), s) == n - 1;
  }

  datatype Lexeme = Chr(c: char) | Atm(t: string)

  /** What `re.sub`/`re.finditer` see: the leftmost, non-overlapping atoms. */
  function Lex(sh: Shape, s: string): seq<Lexeme>
    decreases |s|
  {
    if s == [] then []
    else
      var n := AtomLen(sh, s);
      if n > 0 then [Atm(s[..n])] + Lex(sh, s[n..])
      else [Chr(s[0])] + Lex(sh, s[1..])
  }

  function Flat(ls: seq<Lexeme>): string {
    if ls == [] then ""
    else (match ls[0] case Chr(c) => [c] case Atm(t) => t) + Flat(ls[1..])
  }

  function Text(l: Lexeme): string { match l case Chr(c) => [c] case Atm(t) => t }

  lemma FlatCons(l: Lexeme, ls: seq<Lexeme>)
    ensures Flat([l] + ls) == Text(l) + Flat(ls)
  {
    assert ([l] + ls)[1..] == ls;
  }

  /** What the scan reads first, and what is left. */
  lemma LexStep(sh: Shape, s: string) returns (l: Lexeme, rest: string)
    requires s != ""
    ensures Lex(sh, s) == [l] + Lex(sh, rest) && s == Text(l) + rest && |rest| < |s|
  {
    var n := AtomLen(sh, s);
    if n > 0 {
      l, rest := Atm(s[..n]), s[n..];
    } else {
      l, rest := Chr(s[0]), s[1..];
    }
  }

  lemma {:induction false} FlatOfLex(sh: Shape, s: string)
    ensures Flat(Lex(sh, s)) == s
    decreases |s|
  {
    if s != [] {
      var l, rest := LexStep(sh, s);
      FlatOfLex(sh, rest);
      FlatCons(l, Lex(sh, rest));
    }
  }

  /** The plain characters in front of the first atom. */
  function Lead(ls: seq<Lexeme>): string {
    if ls == [] || ls[0].Atm? then "" else [ls[0].c] + Lead(ls[1..])
  }

  /** Every atom is one, and no plain run spells one. */
  predicate Canonical(sh: Shape, ls: seq<Lexeme>) {
    ls == [] ||
    (&& (match ls[0] case Chr(_) => AtomLen(sh, Lead(ls)) == 0 case Atm(t) => IsAtom(sh, t))
     && Canonical(sh, ls[1..]))
  }

  /** Behind the leading run stands an atom, or nothing. */
  lemma {:induction false} FlatLead(sh: Shape, ls: seq<Lexeme>)
    requires Canonical(sh, ls)
    ensures Lead(ls) <= Flat(ls)
    ensures |Lead(ls)| < |Flat(ls)| ==> Flat(ls)[|Lead(ls)|] == Open(sh)
  {
    if ls != [] {
      if ls[0].Atm? {
        AtomEnclosed(sh, ls[0].t);
      } else {
        FlatLead(sh, ls[1..]);
        if |Lead(ls)| < |Flat(ls)| {
          assert Flat(ls)[|Lead(ls)|] == Flat(ls[1..])[|Lead(ls[1..])|];
        }
      }
    }
  }

  lemma PrefixAtom(sh: Shape, s: string, p: string)
    requires p <= s
    requires AtomLen(sh, s) == 0
    ensures AtomLen(sh, p) == 0
  {
    var n := AtomLen(sh, p);
    if n > 0 {
      assert s[..n] == p[..n];
      AtomLenUnique(sh, s, n);
    }
  }

  /** At a plain character nothing can match: an atom that ran past the leading
      run would hold an opening character inside. */
  lemma NoAtomAtChr(sh: Shape, ls: seq<Lexeme>)
    requires Canonical(sh, ls) && ls != [] && ls[0].Chr?
    ensures AtomLen(sh, Flat(ls)) == 0
  {
    FlatLead(sh, ls);
    NoAtomAhead(sh, Flat(ls), Lead(ls));
  }

  /** No opening character stands strictly inside an atom. */
  lemma AtomInside(sh: Shape, s: string, k: nat)
    requires 0 < k < AtomLen(sh, s)
    ensures s[k] != Open(sh)
  {
    var t := s[..AtomLen(sh, s)];
    AtomEnclosed(sh, t);
    assert t[k] == s[k];
  }

  lemma NoAtomAhead(sh: Shape, s: string, p: string)
    requires p != "" && p <= s && (|p| < |s| ==> s[|p|] == Open(sh)) && AtomLen(sh, p) == 0
    ensures AtomLen(sh, s) == 0
  {
    var n := AtomLen(sh, s);
    if n > |p| {
      AtomInside(sh, s, |p|);
    } else if n > 0 {
      assert s[..n] == p[..n];
      AtomLenUnique(sh, p, n);
    }
  }

  /** Assembling and scanning are inverse on canonical sequences. */
  lemma {:induction false} LexOfFlat(sh: Shape, ls: seq<Lexeme>)
    requires Canonical(sh, ls)
    ensures Lex(sh, Flat(ls)) == ls
  {
    if ls != [] {
      LexOfFlat(sh, ls[1..]);
      var l, rest := ls[0], Flat(ls[1..]);
      assert [l] + ls[1..] == ls;
      match l
      case Chr(c) =>
        NoAtomAtChr(sh, ls);
        LexChr(sh, c, rest);
      case Atm(t) =>
        LexAtm(sh, t, rest);
    }
  }

  lemma {:induction false} LeadOfLex(sh: Shape, s: string)
    ensures Lead(Lex(sh, s)) <= s
    decreases |s|
  {
    if s != "" {
      var l, rest := LexStep(sh, s);
      LeadOfLex(sh, rest);
      assert ([l] + Lex(sh, rest))[1..] == Lex(sh, rest);
    }
  }

  /** What the scan of a text reads is canonical. */
  lemma {:induction false} LexCanonical(sh: Shape, s: string)
    ensures Canonical(sh, Lex(sh, s))
    decreases |s|
  {
    if s != "" {
      var l, rest := LexStep(sh, s);
      LexCanonical(sh, rest);
      LeadOfLex(sh, s);
      if l.Chr? { PrefixAtom(sh, s, Lead(Lex(sh, s))); }
      assert ([l] + Lex(sh, rest))[1..] == Lex(sh, rest);
    }
  }

  lemma LexChr(sh: Shape, c: char, rest: string)
    requires AtomLen(sh, [c] + rest) == 0
    ensures Lex(sh, [c] + rest) == [Chr(c)] + Lex(sh, rest)
  {
    assert ([c] + rest)[1..] == rest;
  }

  lemma LexAtm(sh: Shape, t: string, rest: string)
    requires IsAtom(sh, t)
    ensures Lex(sh, t + rest) == [Atm(t)] + Lex(sh, rest)
  {
    var s := t + rest;
    AtomEnclosed(sh, t);
    assert s[..|t|] == t && s[|t|..] == rest;
    AtomLenUnique(sh, s, |t|);
  }

  lemma Assoc<T>(a: seq<T>, b: seq<T>, c: seq<T>)
    ensures a + (b + c) == (a + b) + c
    ensures b == [] ==> a + b == a
  {}

  lemma DropDrop(s: string, i: nat, j: nat)
    requires i <= j <= |s|
    ensures s[i..][j - i..] == s[j..]
  {}

  /** Nowhere in `s` does an atom start. */
  ghost predicate AtomFree(sh: Shape, s: string) {
    forall i :: 0 <= i <= |s| ==> AtomLen(sh, s[i..]) == 0
  }

  lemma AtomFreeSuffix(sh: Shape, s: string, i: nat)
    requires AtomFree(sh, s) && i <= |s|
    ensures AtomFree(sh, s[i..])
  {
    forall j | 0 <= j <= |s[i..]| ensures AtomLen(sh, s[i..][j..]) == 0 {
      assert s[i..][j..] == s[i + j..];
    }
  }

  /** Atoms never overlap: inside one, none starts. */
  lemma NoAtomInside(sh: Shape, s: string, b: nat)
    requires 0 < b < AtomLen(sh, s)
    ensures AtomLen(sh, s[b..]) == 0
  {
    var n := AtomLen(sh, s);
    AtomEnclosed(sh, s[..n]);
    var m := AtomLen(sh, s[b..]);
    assert s[..n][b] == s[b..][0] != Open(sh);
    if m > 0 {
      AtomEnclosed(sh, s[b..][..m]);
    }
  }

  // ----- substitution -----

  function MapFlat(f: string -> string, ls: seq<Lexeme>): string {
    if ls == [] then ""
    else (match ls[0] case Chr(c) => [c] case Atm(t) => f(t)) + MapFlat(f, ls[1..])
  }

  /** `re.sub(f, s)`: every atom replaced by its image, the rest kept. */
  function ReSub(sh: Shape, f: string -> string, s: string): string {
    MapFlat(f, Lex(sh, s))
  }

  /** The width of the first lexeme. */
  function Span(sh: Shape, s: string): (m: nat)
    requires s != ""
    ensures 0 < m <= |s|
  {
    var n := AtomLen(sh, s);
    if n > 0 then n else 1
  }

  /** One step of the scan. */
  lemma ReSubStep(sh: Shape, f: string -> string, s: string)
    requires s != ""
    ensures var t := s[..Span(sh, s)];
            ReSub(sh, f, s) == (if AtomLen(sh, s) > 0 then f(t) else t) + ReSub(sh, f, s[Span(sh, s)..])
  {
    var n := AtomLen(sh, s);
    var l := if n > 0 then Atm(s[..n]) else Chr(s[0]);
    assert Lex(sh, s) == [l] + Lex(sh, s[Span(sh, s)..]);
    assert ([l] + Lex(sh, s[Span(sh, s)..]))[1..] == Lex(sh, s[Span(sh, s)..]);
    assert [s[0]] == s[..1];
  }

  /** On assembled text the substitution acts on the parts. */
  lemma ReSubFlat(sh: Shape, f: string -> string, ls: seq<Lexeme>)
    requires Canonical(sh, ls)
    ensures ReSub(sh, f, Flat(ls)) == MapFlat(f, ls)
  {
    LexOfFlat(sh, ls);
  }
}
