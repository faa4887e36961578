/** A character that no value holds, no word and no token, keeps the entity pass on either
    side of it apart: what stands there is replaced as if it stood alone. */
module Barriers {
  import opened Lexer
  import opened Pieces
  import opened Cuts
  import opened Matching
  import opened Rules

  /** No character of a word or of a token. */
  predicate Outside(e: Env, c: char) { !e.word(c) && c !in "[]:" }

  /** And none of a value. */
  ghost predicate KeepsApart(e: Env, r: Rule, c: char) { Outside(e, c) && forall v :: r.fits(v) ==> c !in v }

  // ----- tokens -----

  lemma TokenWithout(e: Env, t: string, c: char)
    requires Sane(e) && IsToken(t) && Outside(e, c)
    ensures c !in t
  {
    forall k | 0 <= k < |t| ensures t[k] != c {
      if 0 < k < |t| - 2 - HASH_LEN {
        assert t[k] == t[1..|t| - 2 - HASH_LEN][k - 1];
      } else if |t| - 2 - HASH_LEN < k < |t| - 1 {
        assert t[k] == t[|t| - 1 - HASH_LEN..|t| - 1][k - (|t| - 1 - HASH_LEN)];
      }
    }
  }

  /** `s` is `a`, the barrier, `b`. */
  predicate Parted(s: string, a: string, c: char, b: string) { s == a + [c] + b }

  lemma PartedAt(s: string, a: string, c: char, b: string)
    requires Parted(s, a, c, b)
    ensures |s| == |a| + 1 + |b| && s[|a|] == c
    ensures forall k :: 0 <= k < |a| ==> s[k] == a[k]
    ensures forall k :: 0 <= k < |b| ==> s[|a| + 1 + k] == b[k]
  {}

  lemma PartedDrop(s: string, a: string, c: char, b: string, i: nat)
    requires Parted(s, a, c, b)
    ensures i <= |a| ==> Parted(s[i..], a[i..], c, b)
  {}

  lemma PartedRight(s: string, a: string, c: char, b: string, i: nat, j: nat)
    requires Parted(s, a, c, b) && i <= |b| && j == |a| + 1 + i
    ensures j <= |s| && s[j..] == b[i..]
  {}

  lemma PartedTake(s: string, a: string, c: char, b: string, n: nat)
    requires Parted(s, a, c, b) && n <= |a|
    ensures s[..n] == a[..n]
  {}

  lemma SliceRight(s: string, a: string, c: char, b: string, i: nat, j: nat, n: nat)
    requires Parted(s, a, c, b) && i + n <= |b| && j == |a| + 1 + i
    ensures j + n <= |s| && s[j..j + n] == b[i..i + n]
  {}

  lemma SliceLeft(s: string, a: string, c: char, b: string, i: nat, n: nat)
    requires Parted(s, a, c, b) && i + n <= |a|
    ensures i + n <= |s| && s[i..i + n] == a[i..i + n]
  {}

  lemma AtomInFront(e: Env, s: string, a: string, c: char, b: string)
    requires Sane(e) && Outside(e, c) && Parted(s, a, c, b)
    ensures AtomLen(TokenShape, s) == AtomLen(TokenShape, a)
  {
    var n, m := AtomLen(TokenShape, s), AtomLen(TokenShape, a);
    if n > 0 {
      TokenWithout(e, s[..n], c);
      AtomNotOver(s, a, c, b, n);
      PartedTake(s, a, c, b, n);
      AtomLenUnique(TokenShape, a, n);
    } else if m > 0 {
      PartedTake(s, a, c, b, m);
      AtomLenUnique(TokenShape, s, m);
    }
  }

  lemma AtomNotOver(s: string, a: string, c: char, b: string, n: nat)
    requires Parted(s, a, c, b)
    ensures |a| < n <= |s| ==> c in s[..n]
  {
    PartedAt(s, a, c, b);
    if |a| < n <= |s| { assert s[..n][|a|] == c; }
  }

  lemma AtomLeft(e: Env, s: string, a: string, c: char, b: string, i: nat)
    requires Sane(e) && Outside(e, c) && Parted(s, a, c, b) && i <= |a|
    ensures AtomLen(TokenShape, s[i..]) == AtomLen(TokenShape, a[i..])
  {
    PartedDrop(s, a, c, b, i);
    AtomInFront(e, s[i..], a[i..], c, b);
  }

  lemma TokenLeft(e: Env, s: string, a: string, c: char, b: string, i: nat)
    requires Sane(e) && Outside(e, c) && Parted(s, a, c, b) && i < |a|
    ensures InToken(s, i) <==> InToken(a, i)
  {
    forall k: nat | k <= i ensures AtomLen(TokenShape, s[k..]) == AtomLen(TokenShape, a[k..]) {
      AtomLeft(e, s, a, c, b, k);
    }
  }

  lemma StartOf(s: string, pos: nat) returns (k: nat)
    requires InToken(s, pos)
    ensures k <= pos < |s| && pos < k + AtomLen(TokenShape, s[k..])
  {
    k :| k <= pos < |s| && pos < k + AtomLen(TokenShape, s[k..]);
  }

  lemma StartsHere(s: string, k: nat, pos: nat)
    requires k <= pos < |s| && pos < k + AtomLen(TokenShape, s[k..])
    ensures InToken(s, pos)
  {}

  lemma TokenFromRight(e: Env, s: string, a: string, c: char, b: string, i: nat, j: nat)
    requires Sane(e) && Outside(e, c) && Parted(s, a, c, b) && j == |a| + 1 + i && InToken(b, i)
    ensures InToken(s, j)
  {
    var k := StartOf(b, i);
    var m := |a| + 1 + k;
    PartedAt(s, a, c, b);
    PartedRight(s, a, c, b, k, m);
    StartsHere(s, m, j);
  }

  lemma TokenToRight(e: Env, s: string, a: string, c: char, b: string, i: nat, j: nat)
    requires Sane(e) && Outside(e, c) && Parted(s, a, c, b) && i < |b| && j == |a| + 1 + i && InToken(s, j)
    ensures InToken(b, i)
  {
    var k := StartOf(s, j);
    StartsRight(e, s, a, c, b, k, j);
    var m := k - |a| - 1;
    PartedRight(s, a, c, b, m, k);
    StartsHere(b, m, i);
  }

  lemma StartsRight(e: Env, s: string, a: string, c: char, b: string, k: nat, j: nat)
    requires Sane(e) && Outside(e, c) && Parted(s, a, c, b) && k <= j < |s| && |a| < j
    requires j < k + AtomLen(TokenShape, s[k..])
    ensures |a| < k
  {
    if k <= |a| { AtomLeft(e, s, a, c, b, k); }
  }

  // ----- matches -----

  lemma HitLeft(e: Env, r: Rule, s: string, a: string, c: char, b: string, i: nat, n: nat)
    requires Lookarounds(e, r) && KeepsApart(e, r, c) && Parted(s, a, c, b) && i <= |a|
    ensures Hit(r, s, i, n) <==> Hit(r, a, i, n)
  {
    PartedAt(s, a, c, b);
    if i + n <= |a| {
      assert s[i..i + n] == a[i..i + n];
    } else if i + n <= |s| {
      assert s[i..i + n][|a| - i] == c;
    }
  }

  lemma HitRight(e: Env, r: Rule, s: string, a: string, c: char, b: string, i: nat, j: nat, n: nat)
    requires Lookarounds(e, r) && KeepsApart(e, r, c) && Parted(s, a, c, b) && i <= |b| && j == |a| + 1 + i
    ensures Hit(r, s, j, n) <==> Hit(r, b, i, n)
  {
    PartedAt(s, a, c, b);
    if i + n <= |b| { SliceRight(s, a, c, b, i, j, n); }
  }

  /** Where the same hits, the same is matched. */
  lemma SameMatch(r: Rule, s: string, i: nat, t: string, j: nat)
    requires i <= |s| && j <= |t| && forall n: nat :: Hit(r, s, i, n) <==> Hit(r, t, j, n)
    ensures MatchLen(r, s, i) == MatchLen(r, t, j)
  {
    Matched(r, s, i);
    Matched(r, t, j);
  }

  /** The same match, in a token or not, is cut alike. */
  lemma SameCutAt(e: Env, r: Rule, s: string, j: nat, b: string, i: nat, n: nat)
    requires Lookarounds(e, r) && j < |s| && i < |b| && n == MatchLen(r, s, j) == MatchLen(r, b, i)
    requires (InToken(s, j) <==> InToken(b, i)) && s[j..j + n] == b[i..i + n]
    ensures CutAt(r, s, j) == CutAt(r, b, i)
  {}

  lemma CutLeft(e: Env, r: Rule, s: string, a: string, c: char, b: string, i: nat)
    requires Sane(e) && Lookarounds(e, r) && KeepsApart(e, r, c) && Parted(s, a, c, b) && i < |a|
    ensures i < |s| && CutAt(r, s, i) == CutAt(r, a, i)
  {
    PartedAt(s, a, c, b);
    forall n: nat ensures Hit(r, s, i, n) <==> Hit(r, a, i, n) { HitLeft(e, r, s, a, c, b, i, n); }
    SameMatch(r, s, i, a, i);
    TokenLeft(e, s, a, c, b, i);
    SliceLeft(s, a, c, b, i, MatchLen(r, a, i));
    SameCutAt(e, r, s, i, a, i, MatchLen(r, a, i));
  }

  lemma MatchRight(e: Env, r: Rule, s: string, a: string, c: char, b: string, i: nat, j: nat)
    requires Lookarounds(e, r) && KeepsApart(e, r, c) && Parted(s, a, c, b) && i <= |b| && j == |a| + 1 + i
    ensures j <= |s| && MatchLen(r, s, j) == MatchLen(r, b, i)
  {
    PartedAt(s, a, c, b);
    forall n: nat ensures Hit(r, s, j, n) <==> Hit(r, b, i, n) { HitRight(e, r, s, a, c, b, i, j, n); }
    SameMatch(r, s, j, b, i);
  }

  lemma TokenRight(e: Env, s: string, a: string, c: char, b: string, i: nat, j: nat)
    requires Sane(e) && Outside(e, c) && Parted(s, a, c, b) && i < |b| && j == |a| + 1 + i
    ensures j < |s| && (InToken(s, j) <==> InToken(b, i))
  {
    PartedAt(s, a, c, b);
    if InToken(b, i) { TokenFromRight(e, s, a, c, b, i, j); }
    if InToken(s, j) { TokenToRight(e, s, a, c, b, i, j); }
  }

  lemma CutRight(e: Env, r: Rule, s: string, a: string, c: char, b: string, i: nat, j: nat)
    requires Sane(e) && Lookarounds(e, r) && KeepsApart(e, r, c) && Parted(s, a, c, b) && i < |b| && j == |a| + 1 + i
    ensures j < |s| && CutAt(r, s, j) == CutAt(r, b, i)
  {
    MatchRight(e, r, s, a, c, b, i, j);
    TokenRight(e, s, a, c, b, i, j);
    SliceRight(s, a, c, b, i, j, MatchLen(r, b, i));
    SameCutAt(e, r, s, j, b, i, MatchLen(r, b, i));
  }

  lemma CutHere(e: Env, r: Rule, s: string, a: string, c: char, b: string)
    requires Lookarounds(e, r) && KeepsApart(e, r, c) && Parted(s, a, c, b)
    ensures |a| < |s| && CutAt(r, s, |a|) == Keep(1)
  {
    PartedAt(s, a, c, b);
    Matched(r, s, |a|);
    NoHitHere(e, r, s, a, c, b, MatchLen(r, s, |a|));
  }

  lemma NoHitHere(e: Env, r: Rule, s: string, a: string, c: char, b: string, n: nat)
    requires KeepsApart(e, r, c) && Parted(s, a, c, b)
    ensures !Hit(r, s, |a|, n)
  {
    PartedAt(s, a, c, b);
    if 0 < n && |a| + n <= |s| { assert s[|a|..|a| + n][0] == c; }
  }

  // ----- the pass -----

  /** One cut in front of the rest. */
  function Ahead(x: string, xs: seq<(string, string)>, rest: (string, seq<(string, string)>))
    : (string, seq<(string, string)>)
  {
    (x + rest.0, xs + rest.1)
  }

  /** What a pass leaves and what it replaces from position `i` on. */
  function Onwards(r: Rule, s: string, i: nat): (string, seq<(string, string)>)
    requires i <= |s|
    decreases |s| - i
  {
    if i == |s| then ("", [])
    else
      var c := CutAt(r, s, i);
      Ahead(Piece0(s, i, c), SwapIn(s, i, c), Onwards(r, s, i + c.n))
  }

  lemma OnwardsStep(r: Rule, s: string, i: nat, c: Cut)
    requires i < |s| && c == CutAt(r, s, i)
    ensures Onwards(r, s, i) == Ahead(Piece0(s, i, c), SwapIn(s, i, c), Onwards(r, s, i + c.n))
  {}

  lemma {:induction false} OnwardsIs(r: Rule, s: string, i: nat)
    requires i <= |s|
    ensures Onwards(r, s, i) == (Emit(s, i, Pass(r, s, i)), SwapsOf(s, i, Pass(r, s, i)))
    decreases |s| - i
  {
    if i < |s| {
      var c := CutAt(r, s, i);
      OnwardsIs(r, s, i + c.n);
      OnwardsStep(r, s, i, c);
      EmitStep(r, s, i, c);
    }
  }

  lemma SameCut(s: string, i: nat, t: string, j: nat, c: Cut)
    requires i + c.n <= |s| && j + c.n <= |t| && s[i..i + c.n] == t[j..j + c.n]
    ensures Piece0(s, i, c) == Piece0(t, j, c) && SwapIn(s, i, c) == SwapIn(t, j, c)
  {}

  /** At `j` the pass cuts `s` as it cuts `b` at `i`. */
  ghost predicate AlikeAt(r: Rule, s: string, j: nat, b: string, i: nat) {
    && i < |b| && j < |s| && CutAt(r, s, j) == CutAt(r, b, i)
    && var n := CutAt(r, b, i).n; j + n <= |s| && s[j..j + n] == b[i..i + n]
  }

  /** And so on, up to the end of `b`. */
  ghost predicate Alike(r: Rule, s: string, j: nat, b: string, i: nat)
    decreases |b| - i
  {
    i == |b| || (AlikeAt(r, s, j, b, i) && Alike(r, s, j + CutAt(r, b, i).n, b, i + CutAt(r, b, i).n))
  }

  lemma {:induction false} AlikeFrom(r: Rule, s: string, off: nat, b: string, i: nat, j: nat)
    requires i <= |b| && j == off + i
    requires forall x: nat, y: nat :: x < |b| && y == off + x ==> AlikeAt(r, s, y, b, x)
    ensures Alike(r, s, j, b, i)
    decreases |b| - i
  {
    if i < |b| { AlikeFrom(r, s, off, b, i + CutAt(r, b, i).n, j + CutAt(r, b, i).n); }
  }

  lemma AlikeRightAt(e: Env, r: Rule, s: string, a: string, c: char, b: string, i: nat, j: nat)
    requires Sane(e) && Lookarounds(e, r) && KeepsApart(e, r, c) && Parted(s, a, c, b) && i < |b| && j == |a| + 1 + i
    ensures AlikeAt(r, s, j, b, i)
  {
    CutRight(e, r, s, a, c, b, i, j);
    SliceRight(s, a, c, b, i, j, CutAt(r, b, i).n);
  }

  lemma AlikeRight(e: Env, r: Rule, s: string, a: string, c: char, b: string, off: nat)
    requires Sane(e) && Lookarounds(e, r) && KeepsApart(e, r, c) && Parted(s, a, c, b) && off == |a| + 1
    ensures Alike(r, s, off, b, 0)
  {
    forall i: nat, j: nat | i < |b| && j == off + i ensures AlikeAt(r, s, j, b, i) {
      AlikeRightAt(e, r, s, a, c, b, i, j);
    }
    AlikeFrom(r, s, off, b, 0, off);
  }

  lemma AlikeLeftAt(e: Env, r: Rule, s: string, a: string, c: char, b: string, i: nat)
    requires Sane(e) && Lookarounds(e, r) && KeepsApart(e, r, c) && Parted(s, a, c, b) && i < |a|
    ensures AlikeAt(r, s, i, a, i)
  {
    CutLeft(e, r, s, a, c, b, i);
    SliceLeft(s, a, c, b, i, CutAt(r, a, i).n);
  }

  lemma AlikeLeft(e: Env, r: Rule, s: string, a: string, c: char, b: string)
    requires Sane(e) && Lookarounds(e, r) && KeepsApart(e, r, c) && Parted(s, a, c, b)
    ensures Alike(r, s, 0, a, 0)
  {
    forall i: nat, j: nat | i < |a| && j == 0 + i ensures AlikeAt(r, s, j, a, i) {
      AlikeLeftAt(e, r, s, a, c, b, i);
    }
    AlikeFrom(r, s, 0, a, 0, 0);
  }

  /** `all` is what `left` leaves, then `rest`. */
  predicate Then(all: (string, seq<(string, string)>), left: (string, seq<(string, string)>),
                 rest: (string, seq<(string, string)>))
  {
    all == Ahead(left.0, left.1, rest)
  }

  lemma ThenAhead(all: (string, seq<(string, string)>), left: (string, seq<(string, string)>),
                  more: (string, seq<(string, string)>), later: (string, seq<(string, string)>),
                  x: string, xs: seq<(string, string)>, y: string, ys: seq<(string, string)>,
                  rest: (string, seq<(string, string)>))
    requires all == Ahead(x, xs, more) && left == Ahead(y, ys, later) && x == y && xs == ys && Then(more, later, rest)
    ensures Then(all, left, rest)
  {
    Assoc(x, later.0, rest.0);
    Assoc(xs, later.1, rest.1);
  }

  lemma AlikeCut(r: Rule, s: string, j: nat, b: string, i: nat) returns (d: Cut)
    requires AlikeAt(r, s, j, b, i)
    ensures i < |b| && j < |s| && d == CutAt(r, s, j) == CutAt(r, b, i)
    ensures Piece0(s, j, d) == Piece0(b, i, d) && SwapIn(s, j, d) == SwapIn(b, i, d)
  {
    d := CutAt(r, b, i);
    SameCut(s, j, b, i, d);
  }

  lemma {:induction false} AlikeOnwards(r: Rule, s: string, j: nat, b: string, i: nat, end: nat)
    requires Alike(r, s, j, b, i) && i <= |b| && j <= end <= |s| && end - j == |b| - i
    ensures Then(Onwards(r, s, j), Onwards(r, b, i), Onwards(r, s, end))
    decreases |b| - i
  {
    var rest := Onwards(r, s, end);
    if i == |b| {
      ThenNothing(Onwards(r, b, i), rest);
    } else {
      var d := AlikeCut(r, s, j, b, i);
      AlikeOnwards(r, s, j + d.n, b, i + d.n, end);
      OnwardsStep(r, s, j, d);
      OnwardsStep(r, b, i, d);
      ThenAhead(Onwards(r, s, j), Onwards(r, b, i), Onwards(r, s, j + d.n), Onwards(r, b, i + d.n),
                Piece0(s, j, d), SwapIn(s, j, d), Piece0(b, i, d), SwapIn(b, i, d), rest);
    }
  }

  lemma ThenNothing(none: (string, seq<(string, string)>), rest: (string, seq<(string, string)>))
    requires none == ("", [])
    ensures Then(rest, none, rest)
  {
    assert "" + rest.0 == rest.0 && [] + rest.1 == rest.1;
  }

  lemma NothingThen(all: (string, seq<(string, string)>), left: (string, seq<(string, string)>),
                    none: (string, seq<(string, string)>))
    requires none == ("", []) && Then(all, left, none)
    ensures all == left
  {
    assert left.0 + "" == left.0 && left.1 + [] == left.1;
  }

  lemma AlikeToEnd(r: Rule, s: string, off: nat, b: string)
    requires Alike(r, s, off, b, 0) && off + |b| == |s|
    ensures Onwards(r, s, off) == Onwards(r, b, 0)
  {
    AlikeOnwards(r, s, off, b, 0, |s|);
    NothingThen(Onwards(r, s, off), Onwards(r, b, 0), Onwards(r, s, |s|));
  }

  lemma BarrierStep(e: Env, r: Rule, s: string, a: string, c: char, b: string, off: nat)
    requires Lookarounds(e, r) && KeepsApart(e, r, c) && Parted(s, a, c, b) && off == |a| + 1
    ensures |a| < off <= |s| && Onwards(r, s, |a|) == Ahead([c], [], Onwards(r, s, off))
  {
    PartedAt(s, a, c, b);
    CutHere(e, r, s, a, c, b);
    OnwardsStep(r, s, |a|, Keep(1));
    assert s[|a|..|a| + 1] == [c];
  }

  lemma BarrierOnwards(e: Env, r: Rule, s: string, a: string, c: char, b: string)
    requires Sane(e) && Lookarounds(e, r) && KeepsApart(e, r, c) && Parted(s, a, c, b)
    ensures Then(Onwards(r, s, 0), Onwards(r, a, 0), Ahead([c], [], Onwards(r, b, 0)))
  {
    var off := |a| + 1;
    BarrierStep(e, r, s, a, c, b, off);
    AlikeRight(e, r, s, a, c, b, off);
    PartedAt(s, a, c, b);
    AlikeToEnd(r, s, off, b);
    AlikeLeft(e, r, s, a, c, b);
    AlikeOnwards(r, s, 0, a, 0, |a|);
  }

  /** The pass on either side, and the barrier as it was. */
  lemma BarrierPass(e: Env, r: Rule, a: string, c: char, b: string)
    requires Sane(e) && Lookarounds(e, r) && KeepsApart(e, r, c)
    ensures PassText(r, a + [c] + b) == PassText(r, a) + [c] + PassText(r, b)
    ensures PassSwaps(r, a + [c] + b) == PassSwaps(r, a) + PassSwaps(r, b)
  {
    var s := a + [c] + b;
    BarrierOnwards(e, r, s, a, c, b);
    OnwardsIs(r, s, 0);
    OnwardsIs(r, a, 0);
    OnwardsIs(r, b, 0);
    Assoc(PassText(r, a), [c], PassText(r, b));
    assert [] + PassSwaps(r, b) == PassSwaps(r, b);
  }
}
