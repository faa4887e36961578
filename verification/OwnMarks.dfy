/** Host marks that a text brings along. The way back fills every mark by its number, also
    one that was never placed for a host: what becomes of them, for every text and all
    spans. */
module OwnMarks {
  import opened Lexer
  import opened Cuts
  import opened Matching
  import opened Rules
  import opened Hosts
  import opened Anonymizer
  import opened Barriers

  // ----- stretches -----

  /** The stretches between the hosts that `Without` takes out. */
  function Stretches(text: string, spans: seq<Span>, prev: nat, k: nat): (ts: seq<string>)
    requires Within(text, spans) && prev <= |text| && k <= PUA_COUNT
    ensures ts != []
    decreases |spans|
  {
    if spans == [] || k == PUA_COUNT then [text[prev..]]
    else if spans[0].0 < prev then Stretches(text, spans[1..], prev, k)
    else [text[prev..spans[0].0]] + Stretches(text, spans[1..], spans[0].1, k + 1)
  }

  /** Stretches with marks from `k` on in between. */
  function Woven(ts: seq<string>, k: nat): string
    requires ts != [] && k + |ts| <= PUA_COUNT + 1
  {
    if |ts| == 1 then ts[0] else ts[0] + (Mark(k) + Woven(ts[1..], k + 1))
  }

  /** Stretches with the hosts in between. */
  function Refilled(ts: seq<string>, hosts: seq<string>): string
    requires |ts| == |hosts| + 1
  {
    if |ts| == 1 then ts[0] else ts[0] + (hosts[0] + Refilled(ts[1..], hosts[1..]))
  }

  lemma WovenCons(t: string, ts: seq<string>, k: nat)
    requires ts != [] && k + 1 + |ts| <= PUA_COUNT + 1
    ensures Woven([t] + ts, k) == t + (Mark(k) + Woven(ts, k + 1))
  {
    assert ([t] + ts)[1..] == ts;
  }

  lemma RefilledCons(t: string, ts: seq<string>, h: string, hosts: seq<string>)
    requires |ts| == |hosts| + 1
    ensures Refilled([t] + ts, [h] + hosts) == t + (h + Refilled(ts, hosts))
  {
    assert ([t] + ts)[1..] == ts && ([h] + hosts)[1..] == hosts;
  }

  /** `Without` weaves the stretches, and with the hosts they are the text. */
  lemma {:induction false} WithoutIs(text: string, spans: seq<Span>, prev: nat, k: nat)
    requires Within(text, spans) && prev <= |text| && k <= PUA_COUNT
    ensures var ts, hosts := Stretches(text, spans, prev, k), Taken(text, spans, prev, k);
            && |ts| == |hosts| + 1 && k + |hosts| <= PUA_COUNT
            && Without(text, spans, prev, k) == Woven(ts, k) && Refilled(ts, hosts) == text[prev..]
    decreases |spans|
  {
    if spans == [] || k == PUA_COUNT {
    } else if spans[0].0 < prev {
      WithoutIs(text, spans[1..], prev, k);
    } else {
      var b, e, rest := spans[0].0, spans[0].1, spans[1..];
      WithoutIs(text, rest, e, k + 1);
      var ts, hosts := Stretches(text, rest, e, k + 1), Taken(text, rest, e, k + 1);
      WovenCons(text[prev..b], ts, k);
      RefilledCons(text[prev..b], ts, text[b..e], hosts);
      Assoc(text[prev..b], Mark(k), Woven(ts, k + 1));
      ThreeSlices(text, prev, b, e);
    }
  }

  lemma ThreeSlices(text: string, i: nat, b: nat, e: nat)
    requires i <= b <= e <= |text|
    ensures text[i..b] + (text[b..e] + text[e..]) == text[i..]
  {}

  // ----- marks in a text -----

  predicate HasMark(s: string, m: string) { Atm(m) in Lex(HostShape, s) }

  predicate InBlock(c: char) { PUA_FIRST <= c as int < PUA_FIRST + PUA_COUNT }

  /** What follows an opening character and makes it a mark. */
  predicate Closes(s: string) { |s| >= 2 && InBlock(s[0]) && s[1] == HOST_CLOSE }

  lemma NoMarkAcross(a: string, m: string, b: string)
    requires a != "" && IsHostMark(m)
    ensures AtomLen(HostShape, a + (m + b)) == AtomLen(HostShape, a)
  {
    var s := a + (m + b);
    var n, k := AtomLen(HostShape, s), AtomLen(HostShape, a);
    assert s[|a|] == HOST_OPEN;
    if n > 0 {
      assert s[..n][1] == s[1] && s[..n][2] == s[2];
      assert s[..n] == a[..n];
      AtomLenUnique(HostShape, a, n);
    } else if k > 0 {
      assert s[..k] == a[..k];
      AtomLenUnique(HostShape, s, k);
    }
  }

  /** A mark is always seen as one, whatever stands around it. */
  lemma {:induction false} LexMark(a: string, m: string, b: string)
    requires IsHostMark(m)
    ensures Lex(HostShape, a + (m + b)) == Lex(HostShape, a) + ([Atm(m)] + Lex(HostShape, b))
    decreases |a|
  {
    if a == "" {
      assert a + (m + b) == m + b;
      LexAtm(HostShape, m, b);
    } else {
      NoMarkAcross(a, m, b);
      var n := Lexer.Span(HostShape, a);
      assert (a + (m + b))[..n] == a[..n] && (a + (m + b))[n..] == a[n..] + (m + b);
      LexMark(a[n..], m, b);
      var l := if AtomLen(HostShape, a) > 0 then Atm(a[..n]) else Chr(a[0]);
      Assoc([l], Lex(HostShape, a[n..]), [Atm(m)] + Lex(HostShape, b));
    }
  }

  lemma MarkBetween(a: string, k: nat, b: string, m: string)
    requires k < PUA_COUNT
    ensures HasMark(a + (Mark(k) + b), m) <==> HasMark(a, m) || m == Mark(k) || HasMark(b, m)
  {
    LexMark(a, Mark(k), b);
  }

  lemma MarkIs(s: string)
    ensures AtomLen(HostShape, s) > 0 <==> s != "" && s[0] == HOST_OPEN && Closes(s[1..])
  {
    if AtomLen(HostShape, s) > 0 {
      var m := s[..AtomLen(HostShape, s)];
      assert m[1] == s[1] && m[2] == s[2];
    } else if s != "" && s[0] == HOST_OPEN && Closes(s[1..]) {
      assert IsHostMark(s[..3]);
      AtomLenUnique(HostShape, s, 3);
    }
  }

  /** Plain characters in front change nothing. */
  lemma {:induction false} MarkBehind(x: string, s: string, m: string)
    requires HOST_OPEN !in x
    ensures HasMark(x + s, m) <==> HasMark(s, m)
    decreases |x|
  {
    if x == "" {
      assert x + s == s;
    } else {
      assert x[0] in x && x + s == [x[0]] + (x[1..] + s);
      MarkIs(x + s);
      LexChr(HostShape, x[0], x[1..] + s);
      MarkBehind(x[1..], s, m);
    }
  }

  lemma NoMarks(x: string, m: string)
    requires HOST_OPEN !in x
    ensures !HasMark(x, m)
  {
    MarkBehind(x, "", m);
    assert x + "" == x;
  }

  // ----- the pass leaves marks as they are -----

  /** A rule for values that hold no part of a mark. */
  ghost predicate Quiet(e: Env, r: Rule) {
    Sane(e) && Lookarounds(e, r) && Names(r) && forall v :: r.fits(v) ==> OffMarks(v)
  }

  lemma QuietBarriers(e: Env, r: Rule)
    requires Quiet(e, r)
    ensures KeepsApart(e, r, HOST_OPEN) && KeepsApart(e, r, HOST_CLOSE)
  {}

  /** Every cut leaves something. */
  lemma {:induction false} LeavesMore(r: Rule, s: string, i: nat)
    requires Names(r) && i <= |s|
    ensures |Onwards(r, s, i).0| == 0 <==> i == |s|
    decreases |s| - i
  {
    if i < |s| {
      Matched(r, s, i);
      OnwardsStep(r, s, i, CutAt(r, s, i));
    }
  }

  lemma OneLeft(e: Env, r: Rule, s: string)
    requires Quiet(e, r)
    ensures |PassText(r, s)| == 1 <==> |s| == 1
    ensures |s| == 1 ==> PassText(r, s) == s
  {
    OnwardsIs(r, s, 0);
    LeavesMore(r, s, 0);
    if s != "" {
      var c := CutAt(r, s, 0);
      Matched(r, s, 0);
      OnwardsStep(r, s, 0, c);
      LeavesMore(r, s, c.n);
    }
  }

  lemma {:induction false} LeavesWithout(e: Env, r: Rule, s: string, c: char, i: nat)
    requires Sane(e) && Names(r) && Outside(e, c) && c !in s && i <= |s|
    ensures c !in Onwards(r, s, i).0
    decreases |s| - i
  {
    if i < |s| {
      var d := PieceWithout(e, r, s, c, i);
      var m := i + d.n;
      LeavesWithout(e, r, s, c, m);
      OnwardsTo(r, s, i, d, m);
      NotAhead(c, Piece0(s, i, d), SwapIn(s, i, d), Onwards(r, s, m), Onwards(r, s, i));
    }
  }

  lemma OnwardsTo(r: Rule, s: string, i: nat, d: Cut, m: nat)
    requires i < |s| && d == CutAt(r, s, i) && m == i + d.n
    ensures m <= |s| && Onwards(r, s, i) == Ahead(Piece0(s, i, d), SwapIn(s, i, d), Onwards(r, s, m))
  {
    OnwardsStep(r, s, i, d);
  }

  lemma NotAhead(c: char, x: string, xs: seq<(string, string)>, rest: (string, seq<(string, string)>),
                 all: (string, seq<(string, string)>))
    requires c !in x && c !in rest.0 && all == Ahead(x, xs, rest)
    ensures c !in all.0
  {}

  lemma PieceWithout(e: Env, r: Rule, s: string, c: char, i: nat) returns (d: Cut)
    requires Sane(e) && Names(r) && Outside(e, c) && c !in s && i < |s|
    ensures d == CutAt(r, s, i) && 0 < d.n && i + d.n <= |s| && c !in Piece0(s, i, d)
  {
    Matched(r, s, i);
    d := CutAt(r, s, i);
    if d.Swap? { TokenWithout(e, d.p, c); }
  }

  lemma PassWithout(e: Env, r: Rule, s: string, c: char)
    requires Sane(e) && Names(r) && Outside(e, c) && c !in s
    ensures c !in PassText(r, s)
  {
    LeavesWithout(e, r, s, c, 0);
    OnwardsIs(r, s, 0);
  }

  lemma FirstSplit(c: char, s: string) returns (x: string, y: string)
    requires c in s
    ensures s == x + [c] + y && c !in x
  {
    var k :| 0 <= k < |s| && s[k] == c;
    var n := FirstIndex(c, s);
    x, y := s[..n], s[n + 1..];
    forall k | 0 <= k < |x| ensures x[k] != c { assert x[k] == s[k]; }
  }

  /** After the pass a mark opens where one opened, and goes on as the pass does. */
  lemma ClosesStill(e: Env, r: Rule, s: string)
    requires Quiet(e, r)
    ensures Closes(PassText(r, s)) <==> Closes(s)
    ensures Closes(s) ==> PassText(r, s) == s[..2] + PassText(r, s[2..])
  {
    QuietBarriers(e, r);
    if HOST_CLOSE in s {
      var x, y := FirstSplit(HOST_CLOSE, s);
      BarrierPass(e, r, x, HOST_CLOSE, y);
      PassWithout(e, r, x, HOST_CLOSE);
      OneLeft(e, r, x);
      ClosesAt(x, y);
      ClosesAt(PassText(r, x), PassText(r, y));
    } else {
      PassWithout(e, r, s, HOST_CLOSE);
      NotClosed(s);
      NotClosed(PassText(r, s));
    }
  }

  lemma ClosesAt(x: string, y: string)
    requires HOST_CLOSE !in x
    ensures Closes(x + [HOST_CLOSE] + y) <==> |x| == 1 && InBlock(x[0])
    ensures |x| == 1 ==> (x + [HOST_CLOSE] + y)[..2] == x + [HOST_CLOSE] && (x + [HOST_CLOSE] + y)[2..] == y
  {
    var s := x + [HOST_CLOSE] + y;
    if x == "" {
      assert s[0] == HOST_CLOSE;
    } else {
      assert s[0] == x[0];
      if |x| > 1 { assert s[1] == x[1] && x[1] in x; }
    }
  }

  lemma NotClosed(s: string)
    requires HOST_CLOSE !in s
    ensures !Closes(s)
  {
    if |s| >= 2 { assert s[1] in s; }
  }

  /** The pass takes no mark away and makes none. */
  lemma {:induction false} MarksStay(e: Env, r: Rule, s: string, m: string)
    requires Quiet(e, r)
    ensures HasMark(PassText(r, s), m) <==> HasMark(s, m)
    decreases |s|
  {
    QuietBarriers(e, r);
    if HOST_OPEN in s {
      var x, y := FirstSplit(HOST_OPEN, s);
      BarrierPass(e, r, x, HOST_OPEN, y);
      PassWithout(e, r, x, HOST_OPEN);
      MarkBehindBar(x, y, m);
      MarkBehindBar(PassText(r, x), PassText(r, y), m);
      ClosesStill(e, r, y);
      OpenedMarks(y, m);
      OpenedMarks(PassText(r, y), m);
      MarksStay(e, r, if Closes(y) then y[2..] else y, m);
    } else {
      PassWithout(e, r, s, HOST_OPEN);
      NoMarks(s, m);
      NoMarks(PassText(r, s), m);
    }
  }

  lemma MarkBehindBar(x: string, y: string, m: string)
    requires HOST_OPEN !in x
    ensures HasMark(x + [HOST_OPEN] + y, m) <==> HasMark([HOST_OPEN] + y, m)
  {
    MarkBehind(x, [HOST_OPEN] + y, m);
    assert x + [HOST_OPEN] + y == x + ([HOST_OPEN] + y);
  }

  lemma OpenedMarks(y: string, m: string)
    ensures HasMark([HOST_OPEN] + y, m)
            <==> if Closes(y) then m == [HOST_OPEN] + y[..2] || HasMark(y[2..], m) else HasMark(y, m)
  {
    var s := [HOST_OPEN] + y;
    MarkIs(s);
    assert s[1..] == y;
    if Closes(y) {
      var t := [HOST_OPEN] + y[..2];
      assert s == t + y[2..] && IsHostMark(t);
      LexAtm(HostShape, t, y[2..]);
    } else {
      LexChr(HostShape, HOST_OPEN, y);
    }
  }

  // ----- stretch by stretch -----

  lemma MarkPass(e: Env, r: Rule, a: string, k: nat, b: string)
    requires Quiet(e, r) && k < PUA_COUNT
    ensures PassText(r, a + (Mark(k) + b)) == PassText(r, a) + (Mark(k) + PassText(r, b))
  {
    QuietBarriers(e, r);
    var c := [Mark(k)[1]];
    MarkSplit(a, k, b, c);
    BarrierPass(e, r, a, HOST_OPEN, c + [HOST_CLOSE] + b);
    BarrierPass(e, r, c, HOST_CLOSE, b);
    OneLeft(e, r, c);
    MarkSplit(PassText(r, a), k, PassText(r, b), c);
  }

  lemma MarkSplit(a: string, k: nat, b: string, c: string)
    requires k < PUA_COUNT && c == [Mark(k)[1]]
    ensures a + (Mark(k) + b) == a + [HOST_OPEN] + (c + [HOST_CLOSE] + b)
  {
    assert Mark(k) == [HOST_OPEN] + c + [HOST_CLOSE];
  }

  function Passed(r: Rule, ts: seq<string>): (us: seq<string>)
    ensures |us| == |ts| && forall i :: 0 <= i < |ts| ==> us[i] == PassText(r, ts[i])
  {
    seq(|ts|, i requires 0 <= i < |ts| => PassText(r, ts[i]))
  }

  /** The pass over the text without its hosts is the pass over each stretch. */
  lemma {:induction false} PassWoven(e: Env, r: Rule, ts: seq<string>, k: nat)
    requires Quiet(e, r) && ts != [] && k + |ts| <= PUA_COUNT + 1
    ensures PassText(r, Woven(ts, k)) == Woven(Passed(r, ts), k)
    decreases |ts|
  {
    if |ts| > 1 {
      PassWoven(e, r, ts[1..], k + 1);
      MarkPass(e, r, ts[0], k, Woven(ts[1..], k + 1));
      assert Passed(r, ts)[1..] == Passed(r, ts[1..]);
    }
  }

  /** The mark `m` stands in one of the stretches. */
  ghost predicate Brought(ts: seq<string>, m: string) { exists i :: 0 <= i < |ts| && HasMark(ts[i], m) }

  predicate Between(m: string, k: nat, end: nat)
    requires end <= PUA_COUNT
  {
    exists j: nat :: k <= j < end && m == Mark(j)
  }

  lemma BroughtCons(ts: seq<string>, m: string)
    requires ts != []
    ensures Brought(ts, m) <==> HasMark(ts[0], m) || Brought(ts[1..], m)
  {
    if Brought(ts[1..], m) {
      var i :| 0 <= i < |ts[1..]| && HasMark(ts[1..][i], m);
      assert HasMark(ts[i + 1], m);
    }
    if Brought(ts, m) {
      var i :| 0 <= i < |ts| && HasMark(ts[i], m);
      if i > 0 { assert HasMark(ts[1..][i - 1], m); }
    }
  }

  lemma BetweenCons(m: string, k: nat, end: nat)
    requires k < end <= PUA_COUNT
    ensures Between(m, k, end) <==> m == Mark(k) || Between(m, k + 1, end)
  {
    if Between(m, k, end) {
      var j: nat :| k <= j < end && m == Mark(j);
      if j > k { assert k + 1 <= j < end; }
    }
  }

  lemma {:induction false} WovenMarks(ts: seq<string>, k: nat, m: string)
    requires ts != [] && k + |ts| <= PUA_COUNT + 1
    ensures HasMark(Woven(ts, k), m) <==> Brought(ts, m) || Between(m, k, k + |ts| - 1)
    decreases |ts|
  {
    BroughtCons(ts, m);
    if |ts| > 1 {
      WovenMarks(ts[1..], k + 1, m);
      MarkBetween(ts[0], k, Woven(ts[1..], k + 1), m);
      BetweenCons(m, k, k + |ts| - 1);
    }
  }

  // ----- the way back -----

  lemma {:induction false} MapJoin(f: string -> string, a: seq<Lexeme>, b: seq<Lexeme>)
    ensures MapFlat(f, a + b) == MapFlat(f, a) + MapFlat(f, b)
  {
    if a == [] {
      assert a + b == b;
    } else {
      assert (a + b)[1..] == a[1..] + b;
      MapJoin(f, a[1..], b);
    }
  }

  lemma ReSubMark(f: string -> string, a: string, m: string, b: string)
    requires IsHostMark(m)
    ensures ReSub(HostShape, f, a + (m + b)) == ReSub(HostShape, f, a) + (f(m) + ReSub(HostShape, f, b))
  {
    LexMark(a, m, b);
    MapJoin(f, Lex(HostShape, a), [Atm(m)] + Lex(HostShape, b));
    MapJoin(f, [Atm(m)], Lex(HostShape, b));
    assert [Atm(m)][1..] == [] && f(m) + "" == f(m);
  }

  lemma BackMark(taken: seq<string>, a: string, k: nat, b: string)
    requires k < |taken| <= PUA_COUNT
    ensures Back(taken, a + (Mark(k) + b)) == Back(taken, a) + (taken[k] + Back(taken, b))
  {
    ReSubMark(m => HostOf(taken, m), a, Mark(k), b);
  }

  function Backs(taken: seq<string>, ts: seq<string>): (us: seq<string>)
    ensures |us| == |ts| && forall i :: 0 <= i < |ts| ==> us[i] == Back(taken, ts[i])
  {
    seq(|ts|, i requires 0 <= i < |ts| => Back(taken, ts[i]))
  }

  /** Each host comes back where it stood, and what the stretches held is filled too. */
  lemma {:induction false} BackWoven(taken: seq<string>, ts: seq<string>, k: nat)
    requires ts != [] && k + |ts| == |taken| + 1 && |taken| <= PUA_COUNT
    ensures Back(taken, Woven(ts, k)) == Refilled(Backs(taken, ts), taken[k..])
    decreases |ts|
  {
    if |ts| > 1 {
      BackWoven(taken, ts[1..], k + 1);
      BackMark(taken, ts[0], k, Woven(ts[1..], k + 1));
      assert Backs(taken, ts)[1..] == Backs(taken, ts[1..]) && taken[k..][1..] == taken[k + 1..];
    }
  }

  lemma {:induction false} LexAtoms(s: string, l: Lexeme)
    requires l in Lex(HostShape, s) && l.Atm?
    ensures IsHostMark(l.t)
    decreases |s|
  {
    if s != "" {
      var l', rest := LexStep(HostShape, s);
      if l in Lex(HostShape, rest) { LexAtoms(rest, l); }
    }
  }

  /** Every atom is replaced by nothing shorter. */
  ghost predicate Grows(f: string -> string, ls: seq<Lexeme>) {
    forall k :: 0 <= k < |ls| && ls[k].Atm? ==> |f(ls[k].t)| >= |ls[k].t|
  }

  /** None is replaced at all. */
  ghost predicate Stays(f: string -> string, ls: seq<Lexeme>) {
    forall k :: 0 <= k < |ls| && ls[k].Atm? ==> f(ls[k].t) == ls[k].t
  }

  lemma {:induction false} MapGrows(f: string -> string, ls: seq<Lexeme>)
    requires Grows(f, ls)
    ensures |MapFlat(f, ls)| >= |Flat(ls)|
    ensures MapFlat(f, ls) == Flat(ls) <==> Stays(f, ls)
  {
    if ls != [] {
      var rest := ls[1..];
      MapGrows(f, rest);
      var x, y := (match ls[0] case Chr(c) => [c] case Atm(t) => f(t)), Text(ls[0]);
      SameParts(x, MapFlat(f, rest), y, Flat(rest));
      StaysCons(f, ls);
    }
  }

  lemma StaysCons(f: string -> string, ls: seq<Lexeme>)
    requires ls != []
    ensures Stays(f, ls) <==> (ls[0].Atm? ==> f(ls[0].t) == ls[0].t) && Stays(f, ls[1..])
  {
    if Stays(f, ls[1..]) {
      forall k | 0 < k < |ls| ensures ls[k] == ls[1..][k - 1] {}
    }
    if Stays(f, ls) {
      forall k | 0 <= k < |ls[1..]| ensures ls[1..][k] == ls[k + 1] {}
    }
  }

  lemma SameParts(x: string, x': string, y: string, y': string)
    requires |x| >= |y| && |x'| >= |y'|
    ensures x + x' == y + y' <==> x == y && x' == y'
  {
    if x + x' == y + y' {
      assert |x| == |y| && (x + x')[..|x|] == x && (y + y')[..|y|] == y;
      assert (x + x')[|x|..] == x' && (y + y')[|y|..] == y';
    }
  }

  ghost predicate LongHosts(taken: seq<string>) { forall k :: 0 <= k < |taken| ==> |taken[k]| >= 3 }

  lemma BackStays(taken: seq<string>, s: string)
    requires LongHosts(taken)
    ensures |Back(taken, s)| >= |s|
    ensures Back(taken, s) == s <==> forall m :: HasMark(s, m) ==> HostOf(taken, m) == m
  {
    var f, ls := (m: string) => HostOf(taken, m), Lex(HostShape, s);
    FlatOfLex(HostShape, s);
    forall k | 0 <= k < |ls| && ls[k].Atm? ensures IsHostMark(ls[k].t) { LexAtoms(s, ls[k]); }
    MapGrows(f, ls);
    if Stays(f, ls) {
      forall m | HasMark(s, m) ensures HostOf(taken, m) == m {
        var k :| 0 <= k < |ls| && ls[k] == Atm(m);
      }
    }
  }

  lemma {:induction false} RefilledSame(us: seq<string>, ts: seq<string>, hosts: seq<string>)
    requires |us| == |ts| == |hosts| + 1 && forall i :: 0 <= i < |us| ==> |us[i]| >= |ts[i]|
    ensures |Refilled(us, hosts)| >= |Refilled(ts, hosts)|
    ensures Refilled(us, hosts) == Refilled(ts, hosts) <==> us == ts
    decreases |us|
  {
    if |us| == 1 {
      assert us == [us[0]] && ts == [ts[0]];
    } else {
      RefilledSame(us[1..], ts[1..], hosts[1..]);
      var x, y := Refilled(us[1..], hosts[1..]), Refilled(ts[1..], hosts[1..]);
      SameParts(hosts[0], x, hosts[0], y);
      SameParts(us[0], hosts[0] + x, ts[0], hosts[0] + y);
      assert us == [us[0]] + us[1..] && ts == [ts[0]] + ts[1..];
    }
  }

  // ----- the entity pass -----

  /** A mark that no host was taken out for. */
  predicate Foreign(taken: seq<string>, m: string) { |m| == 3 && m[1] as int - PUA_FIRST >= |taken| }

  lemma PlacedIs(taken: seq<string>, s: string)
    requires taken != []
    ensures MarksPlaced(taken, s) <==> forall m :: HasMark(s, m) ==> !Foreign(taken, m)
  {
    forall l | l in Lex(HostShape, s) && l.Atm? ensures IsHostMark(l.t) && HasMark(s, l.t) { LexAtoms(s, l); }
  }

  lemma PlacedWoven(taken: seq<string>, ts: seq<string>)
    requires taken != [] && |ts| == |taken| + 1 && |taken| <= PUA_COUNT
    ensures MarksPlaced(taken, Woven(ts, 0)) <==> forall m :: Brought(ts, m) ==> !Foreign(taken, m)
  {
    PlacedIs(taken, Woven(ts, 0));
    forall m ensures HasMark(Woven(ts, 0), m) <==> Brought(ts, m) || Between(m, 0, |taken|) { WovenMarks(ts, 0, m); }
  }

  lemma BroughtStays(e: Env, r: Rule, ts: seq<string>, m: string)
    requires Quiet(e, r)
    ensures Brought(Passed(r, ts), m) <==> Brought(ts, m)
  {
    forall i | 0 <= i < |ts| ensures HasMark(Passed(r, ts)[i], m) <==> HasMark(ts[i], m) { MarksStay(e, r, ts[i], m); }
  }

  /** The text a run leaves with its hosts back: the stretches, marks in them filled. */
  lemma RefilledStays(taken: seq<string>, us: seq<string>)
    requires |us| == |taken| + 1 && LongHosts(taken)
    ensures Refilled(Backs(taken, us), taken) == Refilled(us, taken)
            <==> forall m :: Brought(us, m) ==> HostOf(taken, m) == m
  {
    forall i | 0 <= i < |us|
      ensures |Back(taken, us[i])| >= |us[i]|
      ensures Back(taken, us[i]) == us[i] <==> forall m :: HasMark(us[i], m) ==> HostOf(taken, m) == m
    {
      BackStays(taken, us[i]);
    }
    RefilledSame(Backs(taken, us), us, taken);
    assert Backs(taken, us) == us <==> forall i :: 0 <= i < |us| ==> Back(taken, us[i]) == us[i];
  }

  lemma NamesQuiet(e: Env, labels: map<string, string>)
    requires Sane(e) && LabelsOk(labels) && forall v :: v in labels ==> OffMarks(v)
    ensures Quiet(e, NamesRule(e, labels))
  {
    NamesLook(e, labels);
    NamesRuleNames(e, labels);
  }

  lemma OutWoven(e: Env, labels: map<string, string>, s: string, spans: seq<Span>)
    requires Within(s, spans) && Quiet(e, NamesRule(e, labels))
    ensures var ts, taken := Stretches(s, spans, 0, 0), Taken(s, spans, 0, 0);
            && |ts| == |taken| + 1 && |taken| <= PUA_COUNT && Refilled(ts, taken) == s
            && Out(e, labels, s, spans) == Woven(Passed(NamesRule(e, labels), ts), 0)
  {
    WithoutIs(s, spans, 0, 0);
    PassWoven(e, NamesRule(e, labels), Stretches(s, spans, 0, 0), 0);
    assert s[0..] == s;
  }

  lemma OutcomeIs(e: Env, labels: map<string, string>, s: string, spans: seq<Span>)
    requires labels != map[] && Within(s, spans)
    ensures var o, taken, out := EntityPass(e, labels, s, spans), Taken(s, spans, 0, 0), Out(e, labels, s, spans);
            && (!o.ValueSurvived? ==> (o == ForeignMark <==> !MarksPlaced(taken, out)))
            && (o.Done? ==> o.text == Back(taken, out))
  {}

  /** The text the hosts came back to, from the stretches `us` the pass left. */
  lemma WovenBack(taken: seq<string>, us: seq<string>)
    requires |us| == |taken| + 1 && |taken| <= PUA_COUNT
    ensures Back(taken, Woven(us, 0)) == Refilled(Backs(taken, us), taken)
    ensures !MarksPlaced(taken, Woven(us, 0)) <==> taken != [] && exists m :: Brought(us, m) && Foreign(taken, m)
    ensures LongHosts(taken) ==>
              (Back(taken, Woven(us, 0)) == Refilled(us, taken)
               <==> forall m :: Brought(us, m) ==> HostOf(taken, m) == m)
  {
    if taken != [] { PlacedWoven(taken, us); }
    BackWoven(taken, us, 0);
    assert taken[0..] == taken;
    if LongHosts(taken) { RefilledStays(taken, us); }
  }

  /** What becomes of marks the text brought, for every text and all spans. A run fails on
      one exactly when it was never placed; otherwise the hosts come back between the
      stretches, and the stretches are as the pass left them exactly when no mark in them
      is filled with something else. */
  lemma OwnMarksExactly(e: Env, labels: map<string, string>, s: string, spans: seq<Span>)
    requires Sane(e) && LabelsOk(labels) && labels != map[] && Within(s, spans)
    requires forall v :: v in labels ==> OffMarks(v)
    ensures var ts, taken := Stretches(s, spans, 0, 0), Taken(s, spans, 0, 0);
            var us, o := Passed(NamesRule(e, labels), ts), EntityPass(e, labels, s, spans);
            && |ts| == |taken| + 1 && Refilled(ts, taken) == s
            && (!o.ValueSurvived? ==>
                  (o == ForeignMark <==> taken != [] && exists m :: Brought(ts, m) && Foreign(taken, m)))
            && (o.Done? ==> o.text == Refilled(Backs(taken, us), taken))
            && (o.Done? && LongHosts(taken) ==>
                  (o.text == Refilled(us, taken) <==> forall m :: Brought(ts, m) ==> HostOf(taken, m) == m))
  {
    var r, ts := NamesRule(e, labels), Stretches(s, spans, 0, 0);
    NamesQuiet(e, labels);
    OutWoven(e, labels, s, spans);
    OutcomeIs(e, labels, s, spans);
    WovenBack(Taken(s, spans, 0, 0), Passed(r, ts));
    forall m ensures Brought(Passed(r, ts), m) <==> Brought(ts, m) { BroughtStays(e, r, ts, m); }
  }

  lemma LastBack(taken: seq<string>, rest: string)
    requires |taken| == 2 && rest == Mark(1) + ""
    ensures Back(taken, rest) == taken[1]
  {
    assert rest == "" + (Mark(1) + "");
    BackMark(taken, "", 1, "");
  }

  lemma TwoBack(taken: seq<string>, s: string)
    requires |taken| == 2 && s == Mark(0) + Mark(1)
    ensures Back(taken, s) == taken[0] + taken[1] && HasMark(s, Mark(0))
  {
    var rest := Mark(1) + "";
    assert s == "" + (Mark(0) + rest);
    BackMark(taken, "", 0, rest);
    LastBack(taken, rest);
    MarkBetween("", 0, rest, Mark(0));
  }

  /** With a host shorter than a mark a text can come back right by accident: an empty host
      and a second one that is both marks. */
  lemma ShortHosts()
    ensures var taken, s := ["", Mark(0) + Mark(1)], Mark(0) + Mark(1);
            Back(taken, s) == s && HasMark(s, Mark(0)) && HostOf(taken, Mark(0)) != Mark(0)
  {
    var taken, s := ["", Mark(0) + Mark(1)], Mark(0) + Mark(1);
    TwoBack(taken, s);
    assert taken[0] + taken[1] == s;
  }
}
