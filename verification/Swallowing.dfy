/** What a replacement does to the tokens that stand in a text. The code looks at the start
    of a match only, so a value that holds a bracket can take the head of a token with it.
    No text needs any assumption here: each token stays, or its start was swallowed. */
module Swallowing {
  import opened Lexer
  import opened Pieces
  import opened Cuts
  import opened Matching
  import opened Rules
  import opened Hosts
  import opened Survivors
  import opened Reveal
  import opened Anonymizer
  import opened RoundTrip
  import opened Limits
  import opened Lookalikes

  // ----- cuts at any position -----

  /** Replacements write tokens and never start in one. */
  ghost predicate Spared(s: string, i: nat, cuts: seq<Cut>)
    decreases |cuts|
  {
    cuts == [] || ((cuts[0].Swap? ==> !InToken(s, i) && IsToken(cuts[0].p)) && Spared(s, i + cuts[0].n, cuts[1..]))
  }

  /** The cuts from `end` on, when only kept stretches lie in front of it. */
  function After(i: nat, end: nat, cuts: seq<Cut>): seq<Cut>
    decreases |cuts|
  {
    if end <= i || cuts == [] then cuts
    else if i + cuts[0].n <= end then After(i + cuts[0].n, end, cuts[1..])
    else [Keep(cuts[0].n - (end - i))] + cuts[1..]
  }

  /** Up to `end` nothing is replaced. */
  predicate KeptTo(i: nat, end: nat, cuts: seq<Cut>)
    decreases |cuts|
  {
    end <= i || cuts == [] || (cuts[0].Keep? && KeptTo(i + cuts[0].n, end, cuts[1..]))
  }

  lemma {:induction false} TokenKept(s: string, i: nat, end: nat, cuts: seq<Cut>)
    requires Covers(s, i, cuts) && Spared(s, i, cuts) && forall j :: i <= j < end ==> InToken(s, j)
    ensures KeptTo(i, end, cuts)
    decreases |cuts|
  {
    if i < end && cuts != [] { TokenKept(s, i + cuts[0].n, end, cuts[1..]); }
  }

  lemma KeepCons(s: string, i: nat, m: nat, rest: seq<Cut>)
    requires i < m <= |s| && Covers(s, m, rest)
    ensures Covers(s, i, [Keep(m - i)] + rest)
    ensures Emit(s, i, [Keep(m - i)] + rest) == s[i..m] + Emit(s, m, rest)
    ensures SwapsOf(s, i, [Keep(m - i)] + rest) == SwapsOf(s, m, rest)
    ensures Spared(s, i, [Keep(m - i)] + rest) <==> Spared(s, m, rest)
  {
    assert ([Keep(m - i)] + rest)[1..] == rest;
  }

  /** Two ways to leave the same: what is kept can be cut at any place. */
  ghost predicate Continues(s: string, i: nat, cuts: seq<Cut>, m: nat, rest: seq<Cut>) {
    && i <= m <= |s| && Covers(s, i, cuts) && Covers(s, m, rest)
    && Emit(s, i, cuts) == s[i..m] + Emit(s, m, rest) && SwapsOf(s, i, cuts) == SwapsOf(s, m, rest)
    && (Spared(s, i, cuts) ==> Spared(s, m, rest))
  }

  lemma ContinuesTrans(s: string, i: nat, cuts: seq<Cut>, m: nat, rest: seq<Cut>, j: nat, later: seq<Cut>)
    requires Continues(s, i, cuts, m, rest) && Continues(s, m, rest, j, later)
    ensures Continues(s, i, cuts, j, later)
  {
    var text := Emit(s, j, later);
    SplitSlice(s, i, m, j, text);
  }

  /** The first cut is kept beyond `end`: its rest is kept. */
  lemma AfterWithin(s: string, i: nat, end: nat, m: nat, rest: seq<Cut>)
    requires Covers(s, m, rest) && i < end < m <= |s|
    ensures Continues(s, i, [Keep(m - i)] + rest, end, [Keep(m - end)] + rest)
  {
    KeepCons(s, i, m, rest);
    KeepCons(s, end, m, rest);
    var text := Emit(s, m, rest);
    SplitSlice(s, i, end, m, text);
  }

  lemma ContinuesSame(s: string, i: nat, cuts: seq<Cut>)
    requires i <= |s| && Covers(s, i, cuts)
    ensures Continues(s, i, cuts, i, cuts)
  {
    assert s[i..i] == "";
  }

  lemma KeptFirst(s: string, i: nat, end: nat, cuts: seq<Cut>) returns (m: nat, tail: seq<Cut>)
    requires Covers(s, i, cuts) && KeptTo(i, end, cuts) && i < end <= |s|
    ensures i < m <= |s| && cuts == [Keep(m - i)] + tail && Covers(s, m, tail) && KeptTo(m, end, tail)
    ensures After(i, end, cuts) == if m <= end then After(m, end, tail) else [Keep(m - end)] + tail
    ensures |tail| < |cuts|
  {
    m, tail := i + cuts[0].n, cuts[1..];
  }

  lemma ContinuesKeep(s: string, i: nat, m: nat, tail: seq<Cut>)
    requires i < m <= |s| && Covers(s, m, tail)
    ensures Continues(s, i, [Keep(m - i)] + tail, m, tail)
  {
    KeepCons(s, i, m, tail);
  }

  lemma {:induction false} AfterFacts(s: string, i: nat, end: nat, cuts: seq<Cut>) returns (rest: seq<Cut>)
    requires Covers(s, i, cuts) && KeptTo(i, end, cuts) && i <= end <= |s|
    ensures rest == After(i, end, cuts) && Continues(s, i, cuts, end, rest)
    decreases |cuts|
  {
    if i == end {
      rest := cuts;
      ContinuesSame(s, i, cuts);
    } else {
      var m, tail := KeptFirst(s, i, end, cuts);
      if m <= end {
        rest := AfterFacts(s, m, end, tail);
        ContinuesKeep(s, i, m, tail);
        ContinuesTrans(s, i, cuts, m, tail, end, rest);
      } else {
        rest := [Keep(m - end)] + tail;
        AfterWithin(s, i, end, m, tail);
      }
    }
  }

  // ----- what the scan finds in the result -----

  /** The token that starts a text, if one does. */
  function First(t: string): seq<string> { if AtomLen(TokenShape, t) > 0 then [t[..AtomLen(TokenShape, t)]] else [] }

  /** For every position of the text from `i` on, the token that starts there. */
  ghost predicate Table(s: string, ts: seq<seq<string>>, i: nat)
    requires |ts| == |s|
    decreases |s| - i
  {
    i >= |s| || (ts[i] == First(s[i..]) && Table(s, ts, i + 1))
  }

  lemma {:induction false} TableFrom(s: string, ts: seq<seq<string>>, i: nat, j: nat)
    requires |ts| == |s| && Table(s, ts, i) && i <= j
    ensures Table(s, ts, j)
    decreases j - i
  {
    if i < j { TableFrom(s, ts, i + 1, j); }
  }

  lemma {:induction false} TableEnd(s: string, ts: seq<seq<string>>, i: nat)
    requires |ts| == |s| && forall b :: 0 <= b < |s| ==> ts[b] == First(s[b..])
    ensures Table(s, ts, i)
    decreases |s| - i
  {
    if i < |s| { TableEnd(s, ts, i + 1); }
  }

  /** There is such a table. */
  lemma TableOf(s: string) returns (ts: seq<seq<string>>)
    ensures |ts| == |s| && Table(s, ts, 0)
  {
    ts := seq(|s|, b requires 0 <= b < |s| => First(s[b..]));
    TableEnd(s, ts, 0);
  }

  /** Where what the scan takes at a position ends. */
  function End(i: nat, t: seq<string>): (m: nat)
    ensures i < m
  {
    if t == [] || t[0] == "" then i + 1 else i + |t[0]|
  }

  /** What the cuts leave, as the token scan sees it: new tokens, tokens whose start was
      kept, and single characters. */
  function Scan(s: string, ts: seq<seq<string>>, i: nat, cuts: seq<Cut>): seq<Lexeme>
    requires |ts| == |s|
    decreases |s| - i
  {
    if i >= |s| || cuts == [] || cuts[0].n == 0 then []
    else
      match cuts[0]
      case Swap(n, p) => [Atm(p)] + Scan(s, ts, i + n, cuts[1..])
      case Keep(_) =>
        [Taken(s[i], ts[i])] + Scan(s, ts, End(i, ts[i]), After(i, End(i, ts[i]), cuts))
  }

  /** A kept stretch ends at a new token, or at the end. */
  lemma {:induction false} KeptRun(s: string, i: nat, cuts: seq<Cut>) returns (k: nat)
    requires Covers(s, i, cuts) && Spared(s, i, cuts)
    ensures i + k <= |s| && s[i..i + k] <= Emit(s, i, cuts)
    ensures k < |Emit(s, i, cuts)| ==> Emit(s, i, cuts)[k] == '['
    ensures cuts != [] && cuts[0].Keep? ==> k > 0
    decreases |cuts|
  {
    if cuts == [] || cuts[0].Swap? {
      k := 0;
      if cuts != [] { TokenOpens(cuts[0].p); }
    } else {
      var m := i + cuts[0].n;
      var j := KeptRun(s, m, cuts[1..]);
      k := m - i + j;
      RunJoins(s, i, m, m + j, Emit(s, m, cuts[1..]));
    }
  }

  lemma RunJoins(s: string, i: nat, m: nat, end: nat, t: string)
    requires i <= m <= end <= |s| && s[m..end] <= t
    ensures s[i..end] <= s[i..m] + t
    ensures end - m < |t| ==> (s[i..m] + t)[end - i] == t[end - m]
  {}

  lemma TokenOpens(p: string)
    requires IsToken(p)
    ensures p != "" && p[0] == '['
  {}

  /** Where no token starts and the character is kept, none starts in the result. */
  lemma KeptStart(s: string, i: nat, cuts: seq<Cut>)
    requires Covers(s, i, cuts) && Spared(s, i, cuts) && cuts != [] && cuts[0].Keep?
    requires AtomLen(TokenShape, s[i..]) == 0
    ensures AtomLen(TokenShape, Emit(s, i, cuts)) == 0
  {
    var k := KeptRun(s, i, cuts);
    var run := s[i..i + k];
    assert run <= s[i..];
    PrefixAtom(TokenShape, s[i..], run);
    NoAtomAhead(TokenShape, Emit(s, i, cuts), run);
  }

  lemma FirstFacts(s: string, i: nat, t: seq<string>)
    requires i < |s| && t == First(s[i..])
    ensures End(i, t) <= |s| && |t| <= 1
    ensures t == [] ==> AtomLen(TokenShape, s[i..]) == 0
    ensures t != [] ==> t[0] == s[i..End(i, t)] && AtomLen(TokenShape, s[i..]) == End(i, t) - i && IsToken(t[0])
  {
    var w := AtomLen(TokenShape, s[i..]);
    if w > 0 { assert s[i..][..w] == s[i..i + w]; }
  }

  lemma TableAt(s: string, ts: seq<seq<string>>, i: nat)
    requires |ts| == |s| && Table(s, ts, 0) && i < |s|
    ensures ts[i] == First(s[i..])
  {
    TableFrom(s, ts, 0, i);
  }

  lemma FirstInToken(s: string, i: nat, t: seq<string>, j: nat)
    requires i < |s| && t == First(s[i..]) && t != [] && i <= j < End(i, t)
    ensures InToken(s, j)
  {
    FirstFacts(s, i, t);
    assert j < i + AtomLen(TokenShape, s[i..]);
  }

  /** From a kept position the scan takes a whole token, or one character. */
  lemma StepKept(s: string, i: nat, t: seq<string>, cuts: seq<Cut>)
    requires Covers(s, i, cuts) && Spared(s, i, cuts) && i < |s| && cuts != [] && cuts[0].Keep? && t == First(s[i..])
    ensures KeptTo(i, End(i, t), cuts) && End(i, t) <= |s|
  {
    FirstFacts(s, i, t);
    if t != [] {
      forall j | i <= j < End(i, t) ensures InToken(s, j) { FirstInToken(s, i, t, j); }
      TokenKept(s, i, End(i, t), cuts);
    }
  }

  function Taken(c: char, t: seq<string>): Lexeme { if t == [] then Chr(c) else Atm(t[0]) }

  lemma ScanKept(s: string, i: nat, t: seq<string>, cuts: seq<Cut>, rest: string)
    requires Covers(s, i, cuts) && Spared(s, i, cuts) && cuts != [] && cuts[0].Keep? && i < |s| && t == First(s[i..])
    requires End(i, t) <= |s| && Emit(s, i, cuts) == s[i..End(i, t)] + rest
    ensures Lex(TokenShape, Emit(s, i, cuts)) == [Taken(s[i], t)] + Lex(TokenShape, rest)
  {
    FirstFacts(s, i, t);
    if t == [] {
      KeptStart(s, i, cuts);
      assert s[i..i + 1] == [s[i]];
      LexChr(TokenShape, s[i], rest);
    } else {
      LexAtm(TokenShape, t[0], rest);
    }
  }

  /** One kept step of the scan, and the cuts behind it. */
  lemma KeptStep(s: string, i: nat, t: seq<string>, cuts: seq<Cut>) returns (m: nat, rest: seq<Cut>)
    requires Covers(s, i, cuts) && Spared(s, i, cuts) && i < |s| && cuts != [] && cuts[0].Keep? && t == First(s[i..])
    ensures i < m == End(i, t) <= |s| && rest == After(i, m, cuts) && KeptTo(i, m, cuts)
    ensures Covers(s, m, rest) && Spared(s, m, rest) && SwapsOf(s, i, cuts) == SwapsOf(s, m, rest)
    ensures Lex(TokenShape, Emit(s, i, cuts)) == [Taken(s[i], t)] + Lex(TokenShape, Emit(s, m, rest))
  {
    StepKept(s, i, t, cuts);
    m := End(i, t);
    rest := AfterFacts(s, i, m, cuts);
    ScanKept(s, i, t, cuts, Emit(s, m, rest));
  }

  /** What lies behind a replacement. */
  lemma Behind(s: string, i: nat, cuts: seq<Cut>) returns (m: nat, rest: seq<Cut>)
    requires Covers(s, i, cuts) && Spared(s, i, cuts) && cuts != [] && cuts[0].Swap?
    ensures i < m == i + cuts[0].n <= |s| && rest == cuts[1..] && Covers(s, m, rest) && Spared(s, m, rest)
    ensures IsToken(cuts[0].p) && Emit(s, i, cuts) == cuts[0].p + Emit(s, m, rest)
  {
    m, rest := i + cuts[0].n, cuts[1..];
  }

  /** The scan of what the cuts leave. */
  ghost predicate Scanned(s: string, ts: seq<seq<string>>, i: nat, cuts: seq<Cut>)
    requires |ts| == |s| && Covers(s, i, cuts)
  {
    Lex(TokenShape, Emit(s, i, cuts)) == Scan(s, ts, i, cuts)
  }

  lemma Chained<T>(a: seq<T>, b: seq<T>, x: T, c: seq<T>, d: seq<T>)
    requires a == [x] + c && b == [x] + d && c == d
    ensures a == b
  {}

  lemma ScanAtSwap(s: string, ts: seq<seq<string>>, i: nat, cuts: seq<Cut>)
    requires |ts| == |s| && i < |s| && cuts != [] && cuts[0].Swap? && cuts[0].n > 0
    ensures Scan(s, ts, i, cuts) == [Atm(cuts[0].p)] + Scan(s, ts, i + cuts[0].n, cuts[1..])
  {}

  lemma ScannedSwap(s: string, ts: seq<seq<string>>, i: nat, cuts: seq<Cut>, m: nat, rest: seq<Cut>)
    requires |ts| == |s| && Covers(s, i, cuts) && cuts != [] && cuts[0].Swap? && m == i + cuts[0].n && rest == cuts[1..]
    requires IsToken(cuts[0].p) && Emit(s, i, cuts) == cuts[0].p + Emit(s, m, rest) && Scanned(s, ts, m, rest)
    ensures Scanned(s, ts, i, cuts)
  {
    var text := Emit(s, m, rest);
    LexAtm(TokenShape, cuts[0].p, text);
    ScanAtSwap(s, ts, i, cuts);
    Chained(Lex(TokenShape, Emit(s, i, cuts)), Scan(s, ts, i, cuts), Atm(cuts[0].p), Lex(TokenShape, text),
            Scan(s, ts, m, rest));
  }

  lemma ScanAtKeep(s: string, ts: seq<seq<string>>, i: nat, cuts: seq<Cut>)
    requires |ts| == |s| && i < |s| && cuts != [] && cuts[0].Keep? && cuts[0].n > 0
    ensures Scan(s, ts, i, cuts)
            == [Taken(s[i], ts[i])] + Scan(s, ts, End(i, ts[i]), After(i, End(i, ts[i]), cuts))
  {}

  lemma ScannedKeep(s: string, ts: seq<seq<string>>, i: nat, cuts: seq<Cut>, here: seq<Lexeme>, there: seq<Lexeme>)
    requires |ts| == |s| && i < |s| && cuts != [] && cuts[0].Keep? && cuts[0].n > 0
    requires here == [Taken(s[i], ts[i])] + there
    requires there == Scan(s, ts, End(i, ts[i]), After(i, End(i, ts[i]), cuts))
    ensures here == Scan(s, ts, i, cuts)
  {
    ScanAtKeep(s, ts, i, cuts);
  }

  lemma {:induction false} ScanIs(s: string, ts: seq<seq<string>>, i: nat, cuts: seq<Cut>)
    requires |ts| == |s| && Table(s, ts, 0) && Covers(s, i, cuts) && Spared(s, i, cuts)
    ensures Scanned(s, ts, i, cuts)
    decreases |s| - i
  {
    if cuts == [] {
    } else if cuts[0].Swap? {
      var m, rest := Behind(s, i, cuts);
      ScanIs(s, ts, m, rest);
      ScannedSwap(s, ts, i, cuts, m, rest);
    } else {
      TableAt(s, ts, i);
      var m, rest := KeptStep(s, i, ts[i], cuts);
      ScanIs(s, ts, m, rest);
      ScannedKeep(s, ts, i, cuts, Lex(TokenShape, Emit(s, i, cuts)), Lex(TokenShape, Emit(s, m, rest)));
    }
  }

  // ----- tokens are conserved -----

  /** The tokens that start in `s[i..j]`. */
  function Starting(ts: seq<seq<string>>, i: nat, j: nat): seq<string>
    requires j <= |ts|
    decreases j - i
  {
    if i >= j then [] else ts[i] + Starting(ts, i + 1, j)
  }

  lemma {:induction false} StartingSplit(ts: seq<seq<string>>, i: nat, m: nat, j: nat)
    requires i <= m <= j <= |ts|
    ensures Starting(ts, i, j) == Starting(ts, i, m) + Starting(ts, m, j)
    decreases m - i
  {
    if i < m {
      StartingSplit(ts, i + 1, m, j);
      Assoc(ts[i], Starting(ts, i + 1, m), Starting(ts, m, j));
    }
  }

  lemma {:induction false} StartingNone(ts: seq<seq<string>>, i: nat, j: nat)
    requires j <= |ts|
    ensures Starting(ts, i, j) == [] <==> forall b :: i <= b < j ==> ts[b] == []
    decreases j - i
  {
    if i < j { StartingNone(ts, i + 1, j); }
  }

  /** No token starts inside a token. */
  ghost predicate Apart(ts: seq<seq<string>>, i: nat) {
    && i < |ts| && |ts[i]| <= 1 && End(i, ts[i]) <= |ts|
    && forall b :: i < b < End(i, ts[i]) ==> ts[b] == []
  }

  lemma FirstInside(s: string, i: nat, b: nat)
    requires i < b < |s| && b < i + AtomLen(TokenShape, s[i..])
    ensures First(s[b..]) == []
  {
    NoAtomInside(TokenShape, s[i..], b - i);
    DropDrop(s, i, b);
  }

  lemma TableApart(s: string, ts: seq<seq<string>>, i: nat)
    requires |ts| == |s| && Table(s, ts, 0) && i < |s|
    ensures Apart(ts, i)
  {
    TableAt(s, ts, i);
    FirstFacts(s, i, ts[i]);
    forall b | i < b < End(i, ts[i]) ensures ts[b] == [] {
      TableAt(s, ts, b);
      FirstInside(s, i, b);
    }
  }

  lemma StartingStep(ts: seq<seq<string>>, i: nat)
    requires Apart(ts, i)
    ensures Starting(ts, i, |ts|) == ts[i] + Starting(ts, End(i, ts[i]), |ts|)
  {
    var m := End(i, ts[i]);
    assert Starting(ts, i + 1, m) == [] by { StartingNone(ts, i + 1, m); }
    assert Starting(ts, i + 1, |ts|) == Starting(ts, m, |ts|) by { StartingSplit(ts, i + 1, m, |ts|); }
  }

  lemma TokensStep(s: string, i: nat, t: seq<string>)
    requires i < |s| && t == First(s[i..])
    ensures End(i, t) <= |s| && TokensOf(s[i..]) == t + TokensOf(s[End(i, t)..])
  {
    FirstFacts(s, i, t);
    DropDrop(s, i, End(i, t));
  }

  /** So the tokens of a text can be read off position by position. */
  ghost predicate ReadOff(s: string, ts: seq<seq<string>>, i: nat)
    requires |ts| == |s| && i <= |s|
  {
    TokensOf(s[i..]) == Starting(ts, i, |ts|)
  }

  lemma ReadStep(s: string, ts: seq<seq<string>>, i: nat, m: nat)
    requires |ts| == |s| && i < |s| && Apart(ts, i) && ts[i] == First(s[i..]) && m == End(i, ts[i])
             && ReadOff(s, ts, m)
    ensures ReadOff(s, ts, i)
  {
    TokensStep(s, i, ts[i]);
    StartingStep(ts, i);
  }

  lemma ReadEnd(s: string, ts: seq<seq<string>>)
    requires |ts| == |s|
    ensures ReadOff(s, ts, |s|)
  {
    assert s[|s|..] == "";
  }

  lemma StepAt(s: string, ts: seq<seq<string>>, i: nat) returns (m: nat)
    requires |ts| == |s| && Table(s, ts, 0) && i < |s|
    ensures Apart(ts, i) && ts[i] == First(s[i..]) && i < m == End(i, ts[i]) <= |s|
  {
    TableApart(s, ts, i);
    TableAt(s, ts, i);
    m := End(i, ts[i]);
  }

  lemma {:induction false} TokensAreStarting(s: string, ts: seq<seq<string>>, i: nat)
    requires |ts| == |s| && Table(s, ts, 0) && i <= |s|
    ensures ReadOff(s, ts, i)
    decreases |s| - i
  {
    if i == |s| {
      ReadEnd(s, ts);
    } else {
      var m := StepAt(s, ts, i);
      TokensAreStarting(s, ts, m);
      ReadStep(s, ts, i, m);
    }
  }

  /** The tokens whose start a replacement swallows. */
  function Lost(ts: seq<seq<string>>, i: nat, cuts: seq<Cut>): seq<string>
    decreases |cuts|
  {
    if cuts == [] || i + cuts[0].n > |ts| then []
    else (if cuts[0].Swap? then Starting(ts, i, i + cuts[0].n) else []) + Lost(ts, i + cuts[0].n, cuts[1..])
  }

  /** The tokens the replacements write. */
  function Placed(swaps: seq<(string, string)>): seq<string> {
    if swaps == [] then [] else [swaps[0].0] + Placed(swaps[1..])
  }

  lemma {:induction false} AfterLost(s: string, ts: seq<seq<string>>, i: nat, end: nat, cuts: seq<Cut>)
    requires Covers(s, i, cuts) && |ts| == |s| && KeptTo(i, end, cuts) && i <= end <= |s|
    ensures Lost(ts, end, After(i, end, cuts)) == Lost(ts, i, cuts)
    decreases |cuts|
  {
    if i < end {
      if i + cuts[0].n <= end {
        AfterLost(s, ts, i + cuts[0].n, end, cuts[1..]);
      } else {
        assert ([Keep(i + cuts[0].n - end)] + cuts[1..])[1..] == cuts[1..];
      }
    }
  }

  lemma AtomsCons(l: Lexeme, ls: seq<Lexeme>)
    ensures AtomsIn([l] + ls) == (if l.Atm? then [l.t] else []) + AtomsIn(ls)
  {
    assert ([l] + ls)[1..] == ls;
  }

  lemma PlacedCons(x: (string, string), swaps: seq<(string, string)>)
    ensures Placed([x] + swaps) == [x.0] + Placed(swaps)
  {
    assert ([x] + swaps)[1..] == swaps;
  }

  /** What was there and what was placed is what is there and what was lost. */
  ghost predicate Even(there: seq<string>, lost: seq<string>, stood: seq<string>, placed: seq<string>) {
    multiset(there) + multiset(lost) == multiset(stood) + multiset(placed)
  }

  lemma EvenMore(p: seq<string>, b: seq<string>, there: seq<string>, lost: seq<string>, stood: seq<string>,
                 placed: seq<string>)
    requires Even(there, lost, stood, placed)
    ensures Even(p + there, b + lost, b + stood, p + placed) && Even(b + there, lost, b + stood, placed)
  {
    var a, l, c, d := multiset(there), multiset(lost), multiset(stood), multiset(placed);
    assert multiset(p + there) == multiset(p) + a && multiset(p + placed) == multiset(p) + d;
    assert multiset(b + there) == multiset(b) + a && multiset(b + stood) == multiset(b) + c;
    assert multiset(b + lost) == multiset(b) + l;
    Balance(multiset(p), a, l, c, d, multiset(b));
    Balance(multiset(b), a, l, c, d, multiset{});
  }

  lemma Balance<T>(p: multiset<T>, a: multiset<T>, l: multiset<T>, c: multiset<T>, d: multiset<T>, b: multiset<T>)
    requires a + l == c + d
    ensures (p + a) + (b + l) == (b + c) + (p + d) && (p + a) + l == (p + c) + d
  {
    assert (p + a) + (b + l) == (p + b) + (a + l);
    assert (b + c) + (p + d) == (p + b) + (c + d);
    assert (p + a) + l == p + (a + l);
    assert (p + c) + d == p + (c + d);
  }

  ghost predicate Conserves(s: string, ts: seq<seq<string>>, i: nat, cuts: seq<Cut>)
    requires Covers(s, i, cuts) && |ts| == |s|
  {
    Even(AtomsIn(Scan(s, ts, i, cuts)), Lost(ts, i, cuts), Starting(ts, i, |ts|), Placed(SwapsOf(s, i, cuts)))
  }

  lemma ConservesSwap(s: string, ts: seq<seq<string>>, i: nat, cuts: seq<Cut>, m: nat, rest: seq<Cut>)
    requires |ts| == |s| && Covers(s, i, cuts) && cuts != [] && cuts[0].Swap? && m == i + cuts[0].n && rest == cuts[1..]
             && Conserves(s, ts, m, rest)
    ensures Conserves(s, ts, i, cuts)
  {
    var p, more := cuts[0].p, SwapsOf(s, m, rest);
    AtomsCons(Atm(p), Scan(s, ts, m, rest));
    PlacedCons((p, s[i..m]), more);
    StartingSplit(ts, i, m, |ts|);
    EvenMore([p], Starting(ts, i, m), AtomsIn(Scan(s, ts, m, rest)), Lost(ts, m, rest), Starting(ts, m, |ts|),
             Placed(more));
  }

  lemma TakenAtoms(c: char, t: seq<string>, scan: seq<Lexeme>)
    requires |t| <= 1
    ensures AtomsIn([Taken(c, t)] + scan) == t + AtomsIn(scan)
  {
    AtomsCons(Taken(c, t), scan);
  }

  lemma EvenTaken(c: char, t: seq<string>, scan: seq<Lexeme>, scan': seq<Lexeme>, lost: seq<string>,
                  lost': seq<string>, stood: seq<string>, stood': seq<string>, swaps: Swaps, swaps': Swaps)
    requires |t| <= 1 && Even(AtomsIn(scan'), lost', stood', Placed(swaps'))
    requires scan == [Taken(c, t)] + scan' && lost == lost' && stood == t + stood' && swaps == swaps'
    ensures Even(AtomsIn(scan), lost, stood, Placed(swaps))
  {
    TakenAtoms(c, t, scan');
    EvenMore([], t, AtomsIn(scan'), lost', stood', Placed(swaps'));
  }

  lemma ConservesKeep(s: string, ts: seq<seq<string>>, i: nat, cuts: seq<Cut>, m: nat, rest: seq<Cut>)
    requires |ts| == |s| && Apart(ts, i) && Covers(s, i, cuts) && cuts != [] && cuts[0].Keep? && m == End(i, ts[i])
    requires rest == After(i, m, cuts) && Covers(s, m, rest) && Conserves(s, ts, m, rest)
    requires SwapsOf(s, i, cuts) == SwapsOf(s, m, rest) && Lost(ts, m, rest) == Lost(ts, i, cuts)
    ensures Conserves(s, ts, i, cuts)
  {
    ScanAtKeep(s, ts, i, cuts);
    StartingStep(ts, i);
    EvenTaken(s[i], ts[i], Scan(s, ts, i, cuts), Scan(s, ts, m, rest), Lost(ts, i, cuts), Lost(ts, m, rest),
              Starting(ts, i, |ts|), Starting(ts, m, |ts|), SwapsOf(s, i, cuts), SwapsOf(s, m, rest));
  }

  lemma {:induction false} CutsConserve(s: string, ts: seq<seq<string>>, i: nat, cuts: seq<Cut>)
    requires |ts| == |s| && Table(s, ts, 0) && Covers(s, i, cuts) && Spared(s, i, cuts)
    ensures Conserves(s, ts, i, cuts)
    decreases |s| - i
  {
    if cuts == [] {
    } else if cuts[0].Swap? {
      var m, rest := Behind(s, i, cuts);
      CutsConserve(s, ts, m, rest);
      ConservesSwap(s, ts, i, cuts, m, rest);
    } else {
      TableAt(s, ts, i);
      TableApart(s, ts, i);
      var m, rest := KeptStep(s, i, ts[i], cuts);
      AfterLost(s, ts, i, m, cuts);
      CutsConserve(s, ts, m, rest);
      ConservesKeep(s, ts, i, cuts, m, rest);
    }
  }

  // ----- one pass -----

  /** Some replacement covers the start of a token behind its own first character. */
  ghost predicate Swallows(s: string, i: nat, cuts: seq<Cut>)
    decreases |cuts|
  {
    && cuts != []
    && (|| (cuts[0].Swap? && exists b :: i < b < i + cuts[0].n && b <= |s| && AtomLen(TokenShape, s[b..]) > 0)
        || Swallows(s, i + cuts[0].n, cuts[1..]))
  }

  lemma {:induction false} LostIsSwallowed(s: string, ts: seq<seq<string>>, i: nat, cuts: seq<Cut>)
    requires |ts| == |s| && Table(s, ts, 0) && Covers(s, i, cuts) && Spared(s, i, cuts)
    ensures Lost(ts, i, cuts) != [] <==> Swallows(s, i, cuts)
    decreases |cuts|
  {
    if cuts != [] {
      var m := i + cuts[0].n;
      LostIsSwallowed(s, ts, m, cuts[1..]);
      if cuts[0].Swap? { StartsInside(s, ts, i, m); }
    }
  }

  lemma StartsInside(s: string, ts: seq<seq<string>>, i: nat, m: nat)
    requires |ts| == |s| && Table(s, ts, 0) && i < m <= |s| && !InToken(s, i)
    ensures Starting(ts, i, m) != [] <==> exists b :: i < b < m && AtomLen(TokenShape, s[b..]) > 0
  {
    StartingNone(ts, i, m);
    forall b | i <= b < m ensures ts[b] == [] <==> AtomLen(TokenShape, s[b..]) == 0 { TableAt(s, ts, b); }
    assert AtomLen(TokenShape, s[i..]) == 0;
  }

  lemma {:induction false} PassSpared(r: Rule, s: string, i: nat)
    requires i <= |s| && Names(r) && forall j: nat, n: nat :: r.takes(s, j, n) ==> !InToken(s, j)
    ensures Spared(s, i, Pass(r, s, i))
    decreases |s| - i
  {
    if i < |s| {
      CutSpared(r, s, i);
      PassSpared(r, s, i + CutAt(r, s, i).n);
      PassStep(r, s, i);
      SparedCons(s, i, CutAt(r, s, i), Pass(r, s, i), Pass(r, s, i + CutAt(r, s, i).n));
    }
  }

  lemma CutSpared(r: Rule, s: string, i: nat)
    requires i < |s| && Names(r) && forall j: nat, n: nat :: r.takes(s, j, n) ==> !InToken(s, j)
    ensures var c := CutAt(r, s, i); c.Swap? ==> !InToken(s, i) && IsToken(c.p)
  {
    Matched(r, s, i);
  }

  lemma SparedCons(s: string, i: nat, c: Cut, cuts: seq<Cut>, after: seq<Cut>)
    requires cuts == [c] + after && Spared(s, i + c.n, after) && (c.Swap? ==> !InToken(s, i) && IsToken(c.p))
    ensures Spared(s, i, cuts)
  {
    assert cuts[1..] == after;
  }

  /** A pass over any text: the tokens that were there and those placed are the tokens that
      are there now and those whose start was swallowed. */
  lemma PassConserves(r: Rule, s: string) returns (lost: seq<string>)
    requires Names(r) && forall j: nat, n: nat :: r.takes(s, j, n) ==> !InToken(s, j)
    ensures Even(TokensOf(PassText(r, s)), lost, TokensOf(s), Placed(PassSwaps(r, s)))
    ensures lost != [] <==> Swallows(s, 0, Pass(r, s, 0))
  {
    var ts := TableOf(s);
    var cuts := Pass(r, s, 0);
    PassSpared(r, s, 0);
    ScanIs(s, ts, 0, cuts);
    TokensAreAtoms(PassText(r, s));
    TokensAreStarting(s, ts, 0);
    assert s[0..] == s;
    CutsConserve(s, ts, 0, cuts);
    LostIsSwallowed(s, ts, 0, cuts);
    lost := Lost(ts, 0, cuts);
  }

  /** Every token of the text stands in the result, next to those placed, exactly when no
      replacement swallows the start of one; otherwise there are fewer. */
  lemma TokensStand(e: Env, labels: map<string, string>, s: string)
    requires Sane(e) && LabelsOk(labels)
    ensures var r := NamesRule(e, labels);
            var there, stood, placed := TokensOf(PassText(r, s)), TokensOf(s), Placed(PassSwaps(r, s));
            && (multiset(there) == multiset(stood) + multiset(placed) <==> !Swallows(s, 0, Pass(r, s, 0)))
            && (|there| < |stood| + |placed| <==> Swallows(s, 0, Pass(r, s, 0)))
  {
    var r := NamesRule(e, labels);
    NamesRuleNames(e, labels);
    var lost := PassConserves(r, s);
    EvenSizes(TokensOf(PassText(r, s)), lost, TokensOf(s), Placed(PassSwaps(r, s)));
  }

  lemma EvenSizes(there: seq<string>, lost: seq<string>, stood: seq<string>, placed: seq<string>)
    requires Even(there, lost, stood, placed)
    ensures multiset(there) == multiset(stood) + multiset(placed) <==> lost == []
    ensures |there| < |stood| + |placed| <==> lost != []
  {
    assert |multiset(there) + multiset(lost)| == |there| + |lost|;
    assert |multiset(stood) + multiset(placed)| == |stood| + |placed|;
    if lost == [] { assert multiset(there) + multiset(lost) == multiset(there); }
  }

  // ----- which values can -----

  /** The text starts with a token, or is all of one up to the colon or the bracket that
      closes it. */
  predicate Head(u: string) {
    AtomLen(TokenShape, u) > 0 || (|u| > 1 && u[0] == '[' && AllLabel(u[1..])) || IsToken(u + "]")
  }

  /** A bracket behind the first character, and the head of a token from there on. */
  predicate Swallower(v: string) { AtomLen(TokenShape, v) == 0 && exists k :: 0 < k < |v| && Head(v[k..]) }

  /** Behind its bracket a token is made of word characters, up to the colon and between the
      colon and the closing bracket. */
  lemma TokenWords(e: Env, t: string, n: nat)
    requires Sane(e) && IsToken(t) && 0 < n < |t| - 1 && n != |t| - 2 - HASH_LEN
    ensures e.word(t[n])
  {
    var c := |t| - 2 - HASH_LEN;
    if n < c {
      assert LabelChar(t[1..c][n - 1]);
    } else {
      assert HexChar(t[|t| - 1 - HASH_LEN..|t| - 1][n - (|t| - 1 - HASH_LEN)]);
    }
  }

  /** A stretch of a token that ends in front of a non-word character. */
  lemma HeadOfToken(e: Env, t: string, n: nat)
    requires Sane(e) && IsToken(t) && 0 < n < |t| && !e.word(t[n])
    ensures Head(t[..n])
  {
    var c := |t| - 2 - HASH_LEN;
    if n == c {
      assert t[..n][1..] == t[1..c];
    } else if n == |t| - 1 {
      assert t[..n] + "]" == t;
    } else {
      TokenWords(e, t, n);
    }
  }

  /** What a whole word that covers the start of a token holds from there on. */
  lemma CoveredHead(e: Env, s: string, b: nat, end: nat)
    requires Sane(e) && b < end <= |s| && AtomLen(TokenShape, s[b..]) > 0 && !WordAt(e, s, end)
    ensures Head(s[b..end])
  {
    var w := AtomLen(TokenShape, s[b..]);
    var t, u := s[b..][..w], s[b..end];
    if b + w <= end {
      assert u[..w] == t;
      AtomLenUnique(TokenShape, u, w);
    } else {
      assert u == t[..end - b] && s[end] == t[end - b];
      HeadOfToken(e, t, end - b);
    }
  }

  /** A token starts behind `i` and before `m`. */
  ghost predicate StartsIn(s: string, i: nat, m: nat) {
    exists b :: i < b < m && b <= |s| && AtomLen(TokenShape, s[b..]) > 0
  }

  lemma SomeStart(s: string, i: nat, m: nat) returns (b: nat)
    requires StartsIn(s, i, m)
    ensures i < b < m && b <= |s| && AtomLen(TokenShape, s[b..]) > 0
  {
    b :| i < b < m && b <= |s| && AtomLen(TokenShape, s[b..]) > 0;
  }

  lemma SwallowsCons(s: string, i: nat, c: Cut, cuts: seq<Cut>, rest: seq<Cut>)
    requires cuts == [c] + rest && Swallows(s, i, cuts)
    ensures (c.Swap? && StartsIn(s, i, i + c.n)) || Swallows(s, i + c.n, rest)
  {
    assert cuts[1..] == rest;
  }

  lemma SwallowsNext(r: Rule, s: string, i: nat)
    requires i < |s| && Swallows(s, i, Pass(r, s, i))
    ensures var c := CutAt(r, s, i);
            (c.Swap? && StartsIn(s, i, i + c.n)) || Swallows(s, i + c.n, Pass(r, s, i + c.n))
  {
    PassStep(r, s, i);
    SwallowsCons(s, i, CutAt(r, s, i), Pass(r, s, i), Pass(r, s, i + CutAt(r, s, i).n));
  }

  lemma NothingThere(r: Rule, s: string)
    ensures !Swallows(s, |s|, Pass(r, s, |s|))
  {}

  lemma SwallowsStep(r: Rule, s: string, i: nat) returns (m: nat, here: bool)
    requires i <= |s| && Swallows(s, i, Pass(r, s, i))
    ensures i < m <= |s|
    ensures if here then Hit(r, s, i, m - i) && r.takes(s, i, m - i) && StartsIn(s, i, m)
            else Swallows(s, m, Pass(r, s, m))
  {
    NothingThere(r, s);
    var c := CutAt(r, s, i);
    m, here := i + c.n, c.Swap? && StartsIn(s, i, i + c.n);
    SwapHits(r, s, i);
    SwallowsNext(r, s, i);
  }

  lemma SwapHits(r: Rule, s: string, i: nat)
    requires i < |s|
    ensures var c := CutAt(r, s, i); c.Swap? ==> Hit(r, s, i, c.n) && r.takes(s, i, c.n)
  {
    Matched(r, s, i);
  }

  /** A match that is taken, and the token start it covers. */
  lemma {:induction false} FindSwallower(r: Rule, s: string, i: nat) returns (j: nat, n: nat, b: nat)
    requires i <= |s| && Swallows(s, i, Pass(r, s, i))
    ensures j < b < j + n <= |s| && Hit(r, s, j, n) && r.takes(s, j, n) && AtomLen(TokenShape, s[b..]) > 0
    decreases |s| - i
  {
    var m, here := SwallowsStep(r, s, i);
    if here {
      b := SomeStart(s, i, m);
      j, n := i, m - i;
    } else {
      j, n, b := FindSwallower(r, s, m);
    }
  }

  /** No token starts a stretch that is no token start in the text. */
  lemma NoneAhead(s: string, i: nat, v: string)
    requires i + |v| <= |s| && s[i..i + |v|] == v && AtomLen(TokenShape, s[i..]) == 0
    ensures AtomLen(TokenShape, v) == 0
  {
    assert v <= s[i..];
    PrefixAtom(TokenShape, s[i..], v);
  }

  lemma SliceTail(s: string, j: nat, v: string, b: nat)
    requires j <= b <= j + |v| <= |s| && s[j..j + |v|] == v
    ensures v[b - j..] == s[b..j + |v|]
  {}

  lemma HeadInValue(e: Env, s: string, j: nat, v: string, b: nat)
    requires Sane(e) && j < b < j + |v| <= |s| && s[j..j + |v|] == v && AtomLen(TokenShape, v) == 0
    requires AtomLen(TokenShape, s[b..]) > 0 && !WordAt(e, s, j + |v|)
    ensures Swallower(v)
  {
    var k, u := b - j, s[b..j + |v|];
    SliceTail(s, j, v, b);
    CoveredHead(e, s, b, j + |v|);
    SwallowerBy(v, k, u);
  }

  lemma SwallowerBy(v: string, k: nat, u: string)
    requires AtomLen(TokenShape, v) == 0 && 0 < k < |v| && v[k..] == u && Head(u)
    ensures Swallower(v)
  {}

  lemma ValueTaken(e: Env, v: string, ty: string, s: string, j: nat, n: nat)
    requires var r := NamesRule(e, map[v := ty]); Hit(r, s, j, n) && r.takes(s, j, n)
    ensures n == |v| && j + n <= |s| && s[j..j + n] == v && !WordAt(e, s, j + n) && AtomLen(TokenShape, v) == 0
  {
    OnlyValue(e, v, ty, s, j, n);
    assert !InToken(s, j);
    NoneAhead(s, j, v);
  }

  lemma TakenHead(e: Env, v: string, ty: string, s: string, j: nat, n: nat, b: nat)
    requires Sane(e) && j < b < j + n <= |s| && AtomLen(TokenShape, s[b..]) > 0
    requires var r := NamesRule(e, map[v := ty]); Hit(r, s, j, n) && r.takes(s, j, n)
    ensures Swallower(v)
  {
    ValueTaken(e, v, ty, s, j, n);
    HeadInValue(e, s, j, v, b);
  }

  lemma SwallowingValue(e: Env, v: string, ty: string, s: string)
    requires Sane(e) && Swallows(s, 0, Pass(NamesRule(e, map[v := ty]), s, 0))
    ensures Swallower(v)
  {
    var j, n, b := FindSwallower(NamesRule(e, map[v := ty]), s, 0);
    TakenHead(e, v, ty, s, j, n, b);
  }

  lemma WholeAtom(t: string)
    requires IsToken(t)
    ensures AtomLen(TokenShape, t) > 0
  {
    assert t[..|t|] == t;
    AtomLenUnique(TokenShape, t, |t|);
  }

  lemma LabelCompleted(u: string)
    requires |u| > 1 && u[0] == '[' && AllLabel(u[1..])
    ensures IsToken(u + ":12345678]")
  {
    var t := u + ":12345678]";
    assert |t| == |u| + 10 && t[1..|u|] == u[1..];
    assert t[|u| + 1..|u| + 9] == "12345678";
  }

  /** What completes the head of a token. */
  lemma Completed(u: string) returns (tail: string)
    requires Head(u)
    ensures AtomLen(TokenShape, u + tail) > 0 && (tail == "" || tail[0] == ':' || tail[0] == ']')
  {
    if AtomLen(TokenShape, u) > 0 {
      tail := "";
      assert u + tail == u;
    } else if IsToken(u + "]") {
      tail := "]";
      WholeAtom(u + tail);
    } else {
      tail := ":12345678]";
      LabelCompleted(u);
      WholeAtom(u + tail);
    }
  }

  /** A bracket inside keeps a token from starting at the front. */
  lemma NoneInFront(v: string, tail: string, k: nat)
    requires AtomLen(TokenShape, v) == 0 && 0 < k < |v| && v[k] == '['
    ensures AtomLen(TokenShape, v + tail) == 0
  {
    var s := v + tail;
    var n := AtomLen(TokenShape, s);
    if n > k {
      AtomInside(TokenShape, s, k);
    } else if n > 0 {
      assert s[..n] == v[..n];
      AtomLenUnique(TokenShape, v, n);
    }
  }

  lemma HeadOpens(u: string)
    requires Head(u)
    ensures u != "" && u[0] == '['
  {
    if AtomLen(TokenShape, u) > 0 { assert u[0] == u[..AtomLen(TokenShape, u)][0]; }
  }

  lemma SwallowedText(e: Env, v: string, ty: string) returns (s: string)
    requires Sane(e) && v != "" && Swallower(v)
    ensures v <= s && Swallows(s, 0, Pass(NamesRule(e, map[v := ty]), s, 0))
  {
    var r := NamesRule(e, map[v := ty]);
    var k :| 0 < k < |v| && Head(v[k..]);
    HeadOpens(v[k..]);
    var tail := Completed(v[k..]);
    s := v + tail;
    NoneInFront(v, tail, k);
    DropInto(v, tail, k);
    FrontTaken(e, v, ty, tail);
    SwallowsInFront(r, s, k);
  }

  lemma DropInto(v: string, tail: string, k: nat)
    requires k <= |v|
    ensures (v + tail)[k..] == v[k..] + tail
  {}

  lemma SwallowsInFront(r: Rule, s: string, k: nat)
    requires s != "" && CutAt(r, s, 0).Swap? && 0 < k < CutAt(r, s, 0).n && AtomLen(TokenShape, s[k..]) > 0
    ensures Swallows(s, 0, Pass(r, s, 0))
  {
    var c, cuts := CutAt(r, s, 0), Pass(r, s, 0);
    assert cuts == [c] + Pass(r, s, c.n) by { PassStep(r, s, 0); }
    assert 0 < k < 0 + cuts[0].n;
  }

  lemma FrontTaken(e: Env, v: string, ty: string, tail: string)
    requires Sane(e) && v != "" && AtomLen(TokenShape, v + tail) == 0
    requires tail == "" || tail[0] == ':' || tail[0] == ']'
    ensures CutAt(NamesRule(e, map[v := ty]), v + tail, 0) == Swap(|v|, Pseudonym(e, ty, v))
  {
    var r, s := NamesRule(e, map[v := ty]), v + tail;
    assert s[0..0 + |v|] == v && s[0..] == s;
    assert !WordAt(e, s, 0 - 1) && !WordAt(e, s, 0 + |v|) by { if tail != "" { assert s[|v|] == tail[0]; } }
    Matched(r, s, 0);
    assert Hit(r, s, 0, |v|);
    OnlyValue(e, v, ty, s, 0, MatchLen(r, s, 0));
    assert !InToken(s, 0);
  }

  // ----- every text can be the text of a run -----

  /** Each token with a space as its source. */
  function Spaced(s: string): string { ReSub(TokenShape, t => " ", s) }

  lemma SpacedStep(s: string) returns (u: string, rest: string)
    requires s != ""
    ensures rest == s[Lexer.Span(TokenShape, s)..] && |rest| < |s| && Spaced(s) == u + Spaced(rest) && |u| == 1
    ensures AtomLen(TokenShape, s) > 0 ==> u == " "
    ensures AtomLen(TokenShape, s) == 0 ==> u == s[..1]
  {
    ReSubStep(TokenShape, t => " ", s);
    rest := s[Lexer.Span(TokenShape, s)..];
    u := if AtomLen(TokenShape, s) > 0 then " " else s[..1];
  }

  /** Up to the first space nothing was replaced. */
  lemma {:induction false} SpacedPlain(s: string, m: nat)
    requires m <= |Spaced(s)| && forall k :: 0 <= k < m ==> Spaced(s)[k] != ' '
    ensures m <= |s| && s[..m] == Spaced(s)[..m]
    decreases |s|
  {
    if m > 0 {
      var u, rest := SpacedStep(s);
      var o := Spaced(s);
      assert o[0] == u[0];
      assert o[1..] == Spaced(rest);
      assert forall k :: 0 <= k < m - 1 ==> o[1..][k] == o[k + 1];
      SpacedPlain(rest, m - 1);
      assert s[..m] == u + rest[..m - 1] && o[..m] == u + Spaced(rest)[..m - 1];
    }
  }

  lemma NoSpace(t: string, k: nat)
    requires IsToken(t) && k < |t|
    ensures t[k] != ' '
  {
    if 0 < k < |t| - 2 - HASH_LEN { assert LabelChar(t[1..|t| - 2 - HASH_LEN][k - 1]); }
    if |t| - 2 - HASH_LEN < k < |t| - 1 { assert HexChar(t[|t| - 1 - HASH_LEN..|t| - 1][k - (|t| - 1 - HASH_LEN)]); }
  }

  lemma SpacedHead(s: string)
    requires s != ""
    ensures AtomLen(TokenShape, Spaced(s)) == 0
  {
    var o := Spaced(s);
    var m := AtomLen(TokenShape, o);
    if m > 0 {
      forall k | 0 <= k < m ensures o[k] != ' ' { NoSpace(o[..m], k); }
      SpacedPlain(s, m);
      AtomLenUnique(TokenShape, s, m);
      var u, rest := SpacedStep(s);
    }
  }

  lemma {:induction false} SpacedFree(s: string)
    ensures AtomFree(TokenShape, Spaced(s))
    decreases |s|
  {
    var o := Spaced(s);
    if s == "" {
      assert o[0..] == "";
    } else {
      var u, rest := SpacedStep(s);
      SpacedFree(rest);
      SpacedHead(s);
      forall i | 0 <= i <= |o| ensures AtomLen(TokenShape, o[i..]) == 0 {
        if i == 0 { assert o[0..] == o; } else { assert o[i..] == Spaced(rest)[i - 1..]; }
      }
    }
  }

  lemma {:induction false} SpacedPieces(s: string) returns (ps: seq<Piece>)
    ensures Render(ps) == s && Source(ps) == Spaced(s) && WellFormed(ps)
    decreases |s|
  {
    if s == "" {
      ps := [];
    } else {
      var u, rest := SpacedStep(s);
      var qs := SpacedPieces(rest);
      var m := Lexer.Span(TokenShape, s);
      var q := if AtomLen(TokenShape, s) > 0 then Tok(s[..m], " ") else Raw(s[0]);
      PieceCons(q, qs, s[..m], u);
      ps := [q] + qs;
      Halves(s, m);
    }
  }

  lemma Halves(s: string, m: nat)
    requires m <= |s|
    ensures s == s[..m] + s[m..]
  {}

  lemma PieceCons(q: Piece, qs: seq<Piece>, t: string, u: string)
    requires WellFormed(qs) && (if q.Tok? then q == Tok(t, u) && IsToken(t) else t == u == [q.c])
    ensures Render([q] + qs) == t + Render(qs) && Source([q] + qs) == u + Source(qs) && WellFormed([q] + qs)
  {
    assert ([q] + qs)[1..] == qs;
  }

  /** So nothing here is lost by speaking of all texts instead of clean ones. */
  lemma EveryTextClean(s: string) returns (ps: seq<Piece>)
    ensures Clean(ps) && Render(ps) == s
  {
    ps := SpacedPieces(s);
    SpacedFree(s);
  }

  /** A run over the value swallows the start of a token in some clean text that holds it,
      exactly when the value has the head of a token behind its first character. */
  lemma SwallowsExactly(e: Env, v: string, ty: string)
    requires Sane(e) && v != ""
    ensures (exists ps :: Clean(ps) && Swallows(Render(ps), 0, Pass(NamesRule(e, map[v := ty]), Render(ps), 0)))
            <==> Swallower(v)
  {
    if Swallower(v) {
      var s := SwallowedText(e, v, ty);
      var ps := EveryTextClean(s);
      assert Clean(ps) && Swallows(Render(ps), 0, Pass(NamesRule(e, map[v := ty]), Render(ps), 0));
    }
    if ps :| Clean(ps) && Swallows(Render(ps), 0, Pass(NamesRule(e, map[v := ty]), Render(ps), 0)) {
      SwallowingValue(e, v, ty, Render(ps));
    }
  }

  // ----- for instance -----

  const BSN_TOKEN: string := "[BSN:12345678]"
  const HEAD: string := "a [BSN"
  const TAIL: string := ":12345678]"

  lemma BsnToken()
    ensures IsToken(BSN_TOKEN)
  {
    var t := BSN_TOKEN;
    assert |t| == 14 && t[1..4] == "BSN" && t[5..13] == "12345678";
  }

  lemma HeadSwallows()
    ensures Swallower(HEAD)
  {
    var u := HEAD[2..];
    assert u == "[BSN" && u[1..] == "BSN" && HEAD[0] == 'a';
    NoBracketNoAtom(HEAD);
    assert Head(HEAD[2..]);
  }

  /** The one value of the run takes the front, and nothing behind it. */
  lemma NotInTail(e: Env, v: string, ty: string, tail: string)
    requires v != "" && v[0] !in tail
    ensures forall j: nat, n: nat :: |v| <= j ==> !Hit(NamesRule(e, map[v := ty]), v + tail, j, n)
  {
    var s := v + tail;
    forall j: nat, n: nat | |v| <= j ensures !Hit(NamesRule(e, map[v := ty]), s, j, n) {
      if 0 < n && j + n <= |s| { assert s[j..j + n][0] == tail[j - |v|] && tail[j - |v|] in tail; }
    }
  }

  lemma FrontOnly(e: Env, v: string, ty: string, tail: string)
    requires Sane(e) && v != "" && v[0] !in tail && AtomLen(TokenShape, v + tail) == 0
    requires tail == "" || tail[0] == ':' || tail[0] == ']'
    ensures var r, s := NamesRule(e, map[v := ty]), v + tail;
            PassText(r, s) == Pseudonym(e, ty, v) + tail && PassSwaps(r, s) == [(Pseudonym(e, ty, v), v)]
  {
    var r, s := NamesRule(e, map[v := ty]), v + tail;
    NotInTail(e, v, ty, tail);
    Untouched(r, s, |v|, |v|);
    FrontTaken(e, v, ty, tail);
    var c := Swap(|v|, Pseudonym(e, ty, v));
    var cuts, rest := Pass(r, s, 0), Pass(r, s, |v|);
    assert cuts == [c] + rest by { PassStep(r, s, 0); }
    FirstSwap(s, c, cuts, rest);
    assert s[|v|..] == tail && s[..|v|] == v;
  }

  /** What is left of the token is no token, and none of its characters opens one. */
  lemma LeftOver(p: string, tail: string)
    requires IsToken(p) && '[' !in tail
    ensures Lex(TokenShape, p + tail) == [Atm(p)] + Lex(TokenShape, tail)
    ensures TokensOf(p + tail) == [p] && forall f: string -> string :: ReSub(TokenShape, f, tail) == tail
  {
    LexAtm(TokenShape, p, tail);
    NoBrackets(tail);
    forall f: string -> string ensures ReSub(TokenShape, f, tail) == tail { FreeKept(f, tail); }
    TokensAreAtoms(p + tail);
    TokensAreAtoms(tail);
    NoTokens(tail);
    AtomsCons(Atm(p), Lex(TokenShape, tail));
  }

  lemma {:induction false} FreeKept(f: string -> string, s: string)
    requires AtomFree(TokenShape, s)
    ensures ReSub(TokenShape, f, s) == s
  {
    if s == "" {
      assert Lex(TokenShape, s) == [];
    } else {
      assert s[0..] == s;
      ReSubStep(TokenShape, f, s);
      AtomFreeSuffix(TokenShape, s, 1);
      FreeKept(f, s[1..]);
      assert s == s[..1] + s[1..];
    }
  }

  lemma {:induction false} NoTokens(s: string)
    requires AtomFree(TokenShape, s)
    ensures TokensOf(s) == []
  {
    if s != "" {
      assert s[0..] == s;
      AtomFreeSuffix(TokenShape, s, 1);
      NoTokens(s[1..]);
    }
  }

  lemma StrippedFront(e: Env, known: map<string, string>, p: string, tail: string)
    requires IsToken(p) && '[' !in tail
    ensures Stripped(e, known, p + tail) == Mask(e, known, p) + tail
  {
    var s := p + tail;
    LeftOver(p, tail);
    assert s[0..] == s && s[..|p|] == p && s[|p|..] == tail;
    AtomLenUnique(TokenShape, s, |p|);
    ReSubStep(TokenShape, t => Mask(e, known, t), s);
  }

  lemma NotWhole(e: Env, v: string, m: string, j: nat)
    requires v != "" && v[0] !in m
    ensures !Whole(e, m, v, j)
  {
    if j + |v| <= |m| { assert m[j..j + |v|][0] == m[j] && m[j] in m; }
  }

  /** A value in front of a text that holds nothing else of it: the run succeeds, and its
      output has one token. */
  lemma FrontRun(e: Env, v: string, ty: string, tail: string)
    requires Sane(e) && LabelOk(ty) && v != "" && MaskOf(e, v) == "xx" && v[0] !in "xx" + tail
    requires AtomLen(TokenShape, v + tail) == 0 && '[' !in tail && (tail == "" || tail[0] == ':' || tail[0] == ']')
    ensures var r := EntityPass(e, map[v := ty], v + tail, []); r.Done? && r.text == Pseudonym(e, ty, v) + tail
  {
    var p, masked := Pseudonym(e, ty, v), "xx" + tail;
    FrontOnly(e, v, ty, tail);
    PseudonymIsToken(e, ty, v);
    MaskedFront(e, v, p, tail);
    NotShown(e, v, ty, masked);
    DoneWith(e, map[v := ty], v + tail, p + tail, [(p, v)], masked);
  }

  lemma MaskedFront(e: Env, v: string, p: string, tail: string)
    requires IsToken(p) && '[' !in tail && v != "" && MaskOf(e, v) == "xx"
    ensures Stripped(e, KnownOf([(p, v)]), p + tail) == "xx" + tail
  {
    KnownOne(p, v);
    StrippedFront(e, map[p := v], p, tail);
  }

  lemma NotShown(e: Env, v: string, ty: string, masked: string)
    requires v != "" && v[0] !in masked
    ensures !Survives(e, map[v := ty], masked)
  {
    forall j: nat ensures !Whole(e, masked, v, j) { NotWhole(e, v, masked, j); }
    assert map[v := ty].Keys == {v};
    OneSurvives(e, map[v := ty], v, masked);
  }

  lemma SameText()
    ensures HEAD + TAIL == "a " + BSN_TOKEN
  {}

  lemma HeadFits(e: Env)
    requires Sane(e)
    ensures HEAD != "" && MaskOf(e, HEAD) == "xx" && HEAD[0] !in "xx" + TAIL && '[' !in TAIL && TAIL[0] == ':'
    ensures AtomLen(TokenShape, HEAD + TAIL) == 0
  {
    assert HEAD[0] == 'a' && HEAD[|HEAD| - 1] == 'N';
    NoBracketNoAtom(HEAD + TAIL);
  }

  /** `a [BSN` against `a [BSN:12345678]`: the run succeeds, its output has one token, that
      of the value, and the token that stood in the text can never be revealed. */
  lemma BracketBreaks(e: Env)
    requires Sane(e)
    ensures Swallower(HEAD) && HEAD + TAIL == "a " + BSN_TOKEN && TokensOf("a " + BSN_TOKEN) == [BSN_TOKEN]
    ensures var p := Pseudonym(e, "person", HEAD);
            && TokensOf(p + TAIL) == [p] && p != BSN_TOKEN
            && var r := EntityPass(e, map[HEAD := "person"], HEAD + TAIL, []); r.Done? && r.text == p + TAIL
  {
    HeadSwallows();
    SameText();
    HeadFits(e);
    UpperPerson();
    FrontRun(e, HEAD, "person", TAIL);
    PseudonymIsToken(e, "person", HEAD);
    LeftOver(Pseudonym(e, "person", HEAD), TAIL);
    OneTokenText();
    PersonToken(e, HEAD);
  }

  lemma PersonToken(e: Env, v: string)
    ensures Pseudonym(e, "person", v) != BSN_TOKEN
  {
    UpperPerson();
    assert Pseudonym(e, "person", v)[1] == 'P' && BSN_TOKEN[1] == 'B';
  }

  lemma OneTokenText()
    ensures TokensOf("a " + BSN_TOKEN) == [BSN_TOKEN]
  {
    BsnToken();
    LeftOver(BSN_TOKEN, "");
    assert BSN_TOKEN + "" == BSN_TOKEN;
    SkipTwo("a ", BSN_TOKEN);
  }

  lemma SkipTwo(a: string, t: string)
    requires |a| == 2 && a[0] != '[' && a[1] != '['
    ensures TokensOf(a + t) == TokensOf(t)
  {
    var s := a + t;
    assert s[1..][1..] == t && s[1..][0] == a[1];
    NoBracketNoAtom(s);
    NoBracketNoAtom(s[1..]);
    TokensSkip(s);
    TokensSkip(s[1..]);
  }

  lemma TokensSkip(t: string)
    requires t != "" && AtomLen(TokenShape, t) == 0
    ensures TokensOf(t) == TokensOf(t[1..])
  {}

  /** A run over a text without protected spans, whose check finds nothing. */
  lemma DoneWith(e: Env, labels: map<string, string>, s: string, out: string, swaps: Swaps, masked: string)
    requires labels != map[] && PassText(NamesRule(e, labels), s) == out && PassSwaps(NamesRule(e, labels), s) == swaps
    requires Stripped(e, KnownOf(swaps), out) == masked && !Survives(e, labels, masked)
    ensures var r := EntityPass(e, labels, s, []); r.Done? && r.text == out
  {
    assert Without(s, [], 0, 0) == s by { assert s[0..] == s; }
  }

  // ----- what a match that starts in a token hides -----

  const COVER: string := "12345678] xyz"
  const HIDDEN: string := BSN_TOKEN + " xyz"

  lemma {:induction false} FreeRun(r: Rule, s: string, i: nat, m: nat, j: nat)
    requires i <= m <= j < |s| && forall k: nat :: i <= k < m ==> MatchLen(r, s, k) == 0
    ensures CutOver(i, Pass(r, s, i), j) == CutOver(m, Pass(r, s, m), j)
    decreases m - i
  {
    if i < m {
      PassOver(r, s, i, j);
      FreeRun(r, s, i + 1, m, j);
    }
  }

  lemma HeadTail(a: string, b: string, s: string)
    requires s == a + b
    ensures s[..|a|] == a && s[|a|..|s|] == b
  {}

  lemma HiddenText()
    ensures |HIDDEN| == 18 && HIDDEN[..14] == BSN_TOKEN && HIDDEN[5..18] == COVER && HIDDEN[15..18] == "xyz"
    ensures HIDDEN[4] == ':' && HIDDEN[14] == ' '
  {
    HeadTail(BSN_TOKEN, " xyz", HIDDEN);
    assert HIDDEN == "[BSN:" + COVER;
    HeadTail("[BSN:", COVER, HIDDEN);
    assert HIDDEN == (BSN_TOKEN + " ") + "xyz";
    HeadTail(BSN_TOKEN + " ", "xyz", HIDDEN);
  }

  lemma HiddenChars(k: nat)
    requires k < 18
    ensures k < 5 ==> HIDDEN[k] != '1' && HIDDEN[k] != 'x'
    ensures 0 < k ==> HIDDEN[k] != '['
  {
    if k < 14 { assert HIDDEN[k] == BSN_TOKEN[k]; } else { assert HIDDEN[k] == " xyz"[k - 14]; }
  }

  lemma HiddenInToken()
    ensures InToken(HIDDEN, 5) && !InToken(HIDDEN, 15)
  {
    HiddenText();
    BsnToken();
    assert HIDDEN[0..] == HIDDEN;
    AtomLenUnique(TokenShape, HIDDEN, 14);
    forall b: nat | 0 < b <= 15 ensures AtomLen(TokenShape, HIDDEN[b..]) == 0 {
      HiddenChars(b);
      NoBracketNoAtom(HIDDEN[b..]);
    }
  }

  /** What a match that is left alone covers is not looked at. */
  lemma CoverKept(r: Rule, s: string, m: nat, n: nat, j: nat)
    requires m < |s| && m <= j < m + n <= |s| && Hit(r, s, m, n) && forall x: nat :: !r.takes(s, m, x)
    requires forall k: nat :: k < m ==> MatchLen(r, s, k) == 0
    ensures !Replaced(0, Pass(r, s, 0), j)
  {
    Matched(r, s, m);
    FreeRun(r, s, 0, m, j);
    PassOver(r, s, m, j);
  }

  lemma ValueHits(e: Env, labels: map<string, string>, s: string, m: nat, v: string)
    requires v in labels && v != "" && Whole(e, s, v, m)
    ensures Hit(NamesRule(e, labels), s, m, |v|)
  {}

  lemma HitStarts(e: Env, labels: map<string, string>, s: string, k: nat, n: nat)
    ensures Hit(NamesRule(e, labels), s, k, n) ==> exists u :: u in labels && u != "" && u[0] == s[k]
  {
    if Hit(NamesRule(e, labels), s, k, n) { assert s[k..k + n] in labels && s[k..k + n][0] == s[k]; }
  }

  lemma NoneStarts(e: Env, labels: map<string, string>, s: string, k: nat)
    requires k < |s| && !exists u :: u in labels && u != "" && u[0] == s[k]
    ensures MatchLen(NamesRule(e, labels), s, k) == 0
  {
    Matched(NamesRule(e, labels), s, k);
    HitStarts(e, labels, s, k, MatchLen(NamesRule(e, labels), s, k));
  }

  lemma HiddenFree(e: Env, labels: map<string, string>, k: nat)
    requires labels.Keys == {COVER, "xyz"} && k < 5
    ensures MatchLen(NamesRule(e, labels), HIDDEN, k) == 0
  {
    HiddenChars(k);
    assert COVER[0] == '1' && "xyz"[0] == 'x';
    assert forall u :: u in labels <==> u in labels.Keys;
    NoneStarts(e, labels, HIDDEN, k);
  }

  lemma HiddenHit(e: Env, labels: map<string, string>)
    requires Sane(e) && COVER in labels
    ensures Hit(NamesRule(e, labels), HIDDEN, 5, 13)
  {
    HiddenText();
    assert |COVER| == 13;
    ValueHits(e, labels, HIDDEN, 5, COVER);
  }

  lemma HiddenWord(e: Env)
    requires Sane(e)
    ensures Whole(e, HIDDEN, "xyz", 15)
  {
    HiddenText();
  }

  lemma NotTaken(e: Env, labels: map<string, string>, s: string, m: nat)
    requires InToken(s, m)
    ensures forall n: nat :: !NamesRule(e, labels).takes(s, m, n)
  {}

  lemma HiddenKept(e: Env, labels: map<string, string>, r: Rule)
    requires Sane(e) && labels.Keys == {COVER, "xyz"} && r == NamesRule(e, labels) && |HIDDEN| == 18
    requires Hit(r, HIDDEN, 5, 13) && forall n: nat :: !r.takes(HIDDEN, 5, n)
    ensures !Replaced(0, Pass(r, HIDDEN, 0), 15)
  {
    forall k: nat | k < 5 ensures MatchLen(r, HIDDEN, k) == 0 { HiddenFree(e, labels, k); }
    CoverKept(r, HIDDEN, 5, 13, 15);
  }

  lemma {:induction false} FreeEmit(r: Rule, s: string, i: nat, m: nat)
    requires i <= m <= |s| && forall k: nat :: i <= k < m ==> MatchLen(r, s, k) == 0
    ensures Emit(s, i, Pass(r, s, i)) == s[i..m] + Emit(s, m, Pass(r, s, m))
    ensures SwapsOf(s, i, Pass(r, s, i)) == SwapsOf(s, m, Pass(r, s, m))
    decreases m - i
  {
    if i < m {
      FreeEmit(r, s, i + 1, m);
      EmitStep(r, s, i, Keep(1));
      SplitSlice(s, i, i + 1, m, Emit(s, m, Pass(r, s, m)));
    } else {
      assert s[i..m] == "";
    }
  }

  /** A match that is left alone and reaches the end. */
  lemma CoverEmit(r: Rule, s: string, m: nat, n: nat)
    requires 0 < n && m + n == |s| && Hit(r, s, m, n) && forall x: nat :: !r.takes(s, m, x)
    requires forall k: nat :: k < m ==> MatchLen(r, s, k) == 0
    ensures PassText(r, s) == s && PassSwaps(r, s) == []
  {
    Matched(r, s, m);
    FreeEmit(r, s, 0, m);
    EmitStep(r, s, m, Keep(n));
    assert s[0..m] + s[m..m + n] == s;
  }

  lemma HiddenShows(e: Env)
    requires Sane(e)
    ensures Stripped(e, KnownOf([]), HIDDEN) == "xx xyz" && Whole(e, "xx xyz", "xyz", 3)
  {
    BsnToken();
    StrippedFront(e, map[], BSN_TOKEN, " xyz");
    assert "xx" + " xyz" == "xx xyz" && "xx xyz"[3..6] == "xyz";
  }

  lemma HiddenSurvives(e: Env, labels: map<string, string>, r: Rule)
    requires Sane(e) && r == NamesRule(e, labels) && labels.Keys == {COVER, "xyz"} && |HIDDEN| == 18
    requires PassText(r, HIDDEN) == HIDDEN && PassSwaps(r, HIDDEN) == []
    ensures EntityPass(e, labels, HIDDEN, []) == ValueSurvived
  {
    HiddenShows(e);
    assert "xyz" in labels.Keys;
    assert Without(HIDDEN, [], 0, 0) == HIDDEN by { assert HIDDEN[0..] == HIDDEN; }
    assert Survives(e, labels, "xx xyz");
  }

  /** The values `12345678] xyz` and `xyz` against `[BSN:12345678] xyz`: the first is
      matched inside the token and left alone, and the second stands behind the token as a
      whole word and stays. The check finds it, and the run fails. */
  lemma OccurrenceStays(e: Env, labels: map<string, string>)
    requires Sane(e) && labels.Keys == {COVER, "xyz"}
    ensures Whole(e, HIDDEN, "xyz", 15) && !InToken(HIDDEN, 15)
    ensures !Replaced(0, Pass(NamesRule(e, labels), HIDDEN, 0), 15)
    ensures EntityPass(e, labels, HIDDEN, []) == ValueSurvived
  {
    var r := NamesRule(e, labels);
    HiddenText();
    HiddenInToken();
    HiddenWord(e);
    HiddenHit(e, labels);
    NotTaken(e, labels, HIDDEN, 5);
    HiddenKept(e, labels, r);
    forall k: nat | k < 5 ensures MatchLen(r, HIDDEN, k) == 0 { HiddenFree(e, labels, k); }
    CoverEmit(r, HIDDEN, 5, 13);
    HiddenSurvives(e, labels, r);
  }
}
