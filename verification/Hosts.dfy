/** The hosts of allowed addresses leave the text while values are replaced and
    come back after. Each one is stood in for by a mark no value can touch. */
module Hosts {
  import opened Lexer
  import opened Pieces
  import opened Cuts

  // ----- _host_span -----

  function FirstOf(cs: string, s: string, i: nat): (k: nat)
    requires i <= |s|
    ensures i <= k <= |s|
    ensures k < |s| ==> s[k] in cs
    ensures forall j :: i <= j < k ==> s[j] !in cs
    decreases |s| - i
  {
    if i == |s| || s[i] in cs then i else FirstOf(cs, s, i + 1)
  }

  function AfterScheme(s: string, i: nat): nat
    requires i <= |s|
    ensures AfterScheme(s, i) <= |s|
    decreases |s| - i
  {
    if i + 3 > |s| then 0 else if s[i..i + 3] == "://" then i + 3 else AfterScheme(s, i + 1)
  }

  /** Scheme, domain and port of the address at `[b, e)`: up to the first `/`, `?`
      or `#` behind the scheme. */
  function HostSpan(text: string, b: nat, e: nat): (r: (nat, nat))
    requires b <= e <= |text|
    ensures r.0 == b <= r.1 <= e
    ensures r.1 < e ==> text[r.1] in "/?#"
    ensures forall j :: AfterScheme(text[b..e], 0) <= j < r.1 - b ==> text[b..e][j] !in "/?#"
  {
    var address := text[b..e];
    (b, b + FirstOf("/?#", address, AfterScheme(address, 0)))
  }

  // ----- _hosts_eruit -----

  type Span = (nat, nat)

  predicate Before(a: Span, b: Span) { a.0 < b.0 || (a.0 == b.0 && a.1 <= b.1) }

  function Insert(a: Span, spans: seq<Span>): (r: seq<Span>)
    ensures multiset(r) == multiset(spans) + multiset{a}
  {
    if spans == [] then [a]
    else if Before(a, spans[0]) then [a] + spans
    else
      assert spans == [spans[0]] + spans[1..];
      [spans[0]] + Insert(a, spans[1..])
  }

  /** `sorted(spans)`. */
  function Sorted(spans: seq<Span>): (r: seq<Span>)
    ensures multiset(r) == multiset(spans)
  {
    if spans == [] then []
    else
      assert spans == [spans[0]] + spans[1..];
      Insert(spans[0], Sorted(spans[1..]))
  }

  predicate Within(text: string, spans: seq<Span>) {
    forall k :: 0 <= k < |spans| ==> spans[k].0 <= spans[k].1 <= |text|
  }

  function Mark(k: nat): (m: string)
    requires k < PUA_COUNT
    ensures IsHostMark(m)
  {
    [HOST_OPEN, (PUA_FIRST + k) as char, HOST_CLOSE]
  }

  /** The text with marks for the spans that start at or behind `prev`; the first
      of two overlapping spans covers both, and at most `PUA_COUNT` are taken. */
  function Without(text: string, spans: seq<Span>, prev: nat, k: nat): string
    requires Within(text, spans) && prev <= |text| && k <= PUA_COUNT
    decreases |spans|
  {
    if spans == [] || k == PUA_COUNT then text[prev..]
    else if spans[0].0 < prev then Without(text, spans[1..], prev, k)
    else text[prev..spans[0].0] + Mark(k) + Without(text, spans[1..], spans[0].1, k + 1)
  }

  /** What was taken out. */
  function Taken(text: string, spans: seq<Span>, prev: nat, k: nat): seq<string>
    requires Within(text, spans) && prev <= |text| && k <= PUA_COUNT
    decreases |spans|
  {
    if spans == [] || k == PUA_COUNT then []
    else if spans[0].0 < prev then Taken(text, spans[1..], prev, k)
    else [text[spans[0].0..spans[0].1]] + Taken(text, spans[1..], spans[0].1, k + 1)
  }

  method HostsOut(text: string, protected: seq<Span>) returns (out: string, taken: seq<string>)
    requires Within(text, protected)
    ensures Within(text, Sorted(protected))
    ensures out == Without(text, Sorted(protected), 0, 0) && taken == Taken(text, Sorted(protected), 0, 0)
  {
    var spans := Sorted(protected);
    assert forall k :: 0 <= k < |spans| ==> spans[k] in multiset(spans) && spans[k] in multiset(protected);
    var prev, rest := 0, spans;
    out, taken := "", [];
    while rest != [] && |taken| < PUA_COUNT
      invariant prev <= |text| && |taken| <= PUA_COUNT && Within(text, rest)
      invariant out + Without(text, rest, prev, |taken|) == Without(text, spans, 0, 0)
      invariant taken + Taken(text, rest, prev, |taken|) == Taken(text, spans, 0, 0)
    {
      var b, e := rest[0].0, rest[0].1;
      WithinTail(text, rest);
      WithoutStep(text, rest, prev, |taken|, out, taken);
      if b >= prev {
        out := out + text[prev..b] + Mark(|taken|);
        taken := taken + [text[b..e]];
        prev := e;
      }
      rest := rest[1..];
    }
    out := out + text[prev..];
  }

  lemma WithoutStep(text: string, spans: seq<Span>, prev: nat, k: nat, out: string, taken: seq<string>)
    requires Within(text, spans) && spans != [] && prev <= |text| && k < PUA_COUNT
    ensures var b, e, rest := spans[0].0, spans[0].1, spans[1..];
            && Within(text, rest)
            && (b < prev ==> Without(text, spans, prev, k) == Without(text, rest, prev, k)
                             && Taken(text, spans, prev, k) == Taken(text, rest, prev, k))
            && (prev <= b ==>
                  out + Without(text, spans, prev, k) == out + text[prev..b] + Mark(k) + Without(text, rest, e, k + 1)
                  && taken + Taken(text, spans, prev, k) == taken + [text[b..e]] + Taken(text, rest, e, k + 1))
  {
    var b, e := spans[0].0, spans[0].1;
    if prev <= b {
      Step3(out, text[prev..b], Mark(k), Without(text, spans[1..], e, k + 1));
      Assoc(taken, [text[b..e]], Taken(text, spans[1..], e, k + 1));
    }
  }

  lemma WithinTail(text: string, spans: seq<Span>)
    requires Within(text, spans) && spans != []
    ensures Within(text, spans[1..])
  {}

  lemma Step3(a: string, b: string, c: string, d: string)
    ensures a + (b + c + d) == a + b + c + d
  {
    Assoc(a, b + c, d);
    Assoc(a, b, c);
  }

  // ----- terug -----

  /** The host a mark stands for; `None` when the mark was never placed. */
  function HostOf(taken: seq<string>, m: string): string {
    if IsHostMark(m) && m[1] as int - PUA_FIRST < |taken| then taken[m[1] as int - PUA_FIRST] else m
  }

  function Back(taken: seq<string>, s: string): string {
    if taken == [] then s else ReSub(HostShape, m => HostOf(taken, m), s)
  }

  /** Every mark in `s` is one that was placed; a foreign one raises. */
  predicate MarksPlaced(taken: seq<string>, s: string) {
    taken == [] || forall l :: l in Lex(HostShape, s) && l.Atm? ==> |l.t| == 3 && l.t[1] as int - PUA_FIRST < |taken|
  }

  // ----- hosts on pieces -----

  /** The pieces between the hosts, with marks from `k` on in between. */
  function Joined(segs: seq<seq<Piece>>, k: nat): seq<Piece>
    requires 0 < |segs| && k + |segs| <= PUA_COUNT + 1
    decreases |segs|
  {
    if |segs| == 1 then segs[0] else segs[0] + (Plain(Mark(k)) + Joined(segs[1..], k + 1))
  }

  /** The pieces with the hosts themselves in between. */
  function Filled(segs: seq<seq<Piece>>, hosts: seq<seq<Piece>>): seq<Piece>
    requires |segs| == |hosts| + 1
    decreases |segs|
  {
    if |segs| == 1 then segs[0] else segs[0] + (hosts[0] + Filled(segs[1..], hosts[1..]))
  }

  function Rendered(hosts: seq<seq<Piece>>): (r: seq<string>)
    ensures |r| == |hosts| && forall k :: 0 <= k < |r| ==> r[k] == Render(hosts[k])
  {
    seq(|hosts|, k requires 0 <= k < |hosts| => Render(hosts[k]))
  }

  /** `b` falls between two pieces: the spans never cut a token. */
  ghost predicate Between(ps: seq<Piece>, b: nat) { exists k :: 0 <= k <= |ps| && |Render(ps[..k])| == b }

  ghost predicate SpansBetween(ps: seq<Piece>, spans: seq<Span>) {
    forall k :: 0 <= k < |spans| ==> Between(ps, spans[k].0) && Between(ps, spans[k].1)
  }

  lemma RenderSlice(ps: seq<Piece>, i: nat, j: nat)
    requires i <= j <= |ps|
    ensures |Render(ps[..i])| <= |Render(ps[..j])| <= |Render(ps)|
    ensures Render(ps)[|Render(ps[..i])|..|Render(ps[..j])|] == Render(ps[i..j])
    ensures Render(ps)[|Render(ps[..i])|..] == Render(ps[i..])
  {
    RenderSplit(ps, j);
    RenderSplit(ps, i);
    RenderSplit(ps[..j], i);
    assert ps[..j][..i] == ps[..i] && ps[..j][i..] == ps[i..j];
  }

  /** The piece boundary at `b`, at or behind piece `k`. */
  lemma BoundaryFrom(ps: seq<Piece>, b: nat, k: nat) returns (j: nat)
    requires Between(ps, b) && k <= |ps| && |Render(ps[..k])| <= b
    ensures k <= j <= |ps| && |Render(ps[..j])| == b
  {
    j :| 0 <= j <= |ps| && |Render(ps[..j])| == b;
    if j < k {
      RenderMonotone(ps, j, k);
      j := k;
    }
  }

  /** Taking out the hosts of clean text leaves the pieces between them, and the
      hosts' own pieces. */
  lemma {:induction false} HostsOnPieces(ps: seq<Piece>, at: nat, spans: seq<Span>, prev: nat, k: nat)
    returns (segs: seq<seq<Piece>>, hosts: seq<seq<Piece>>)
    requires Within(Render(ps), spans) && SpansBetween(ps, spans)
    requires at <= |ps| && prev == |Render(ps[..at])| && prev <= |Render(ps)| && k <= PUA_COUNT
    ensures |segs| == |hosts| + 1 && k + |hosts| <= PUA_COUNT
    ensures Render(Joined(segs, k)) == Without(Render(ps), spans, prev, k)
    ensures Rendered(hosts) == Taken(Render(ps), spans, prev, k)
    ensures Filled(segs, hosts) == ps[at..]
    decreases |spans|
  {
    if spans == [] || k == PUA_COUNT {
      segs, hosts := [ps[at..]], [];
      RenderSlice(ps, at, at);
    } else if spans[0].0 < prev {
      segs, hosts := HostsOnPieces(ps, at, spans[1..], prev, k);
    } else {
      var b, e := spans[0].0, spans[0].1;
      var i := BoundaryFrom(ps, b, at);
      var j := BoundaryFrom(ps, e, i);
      RenderSlice(ps, at, i);
      RenderSlice(ps, i, j);
      var segs', hosts' := HostsOnPieces(ps, j, spans[1..], e, k + 1);
      segs, hosts := [ps[at..i]] + segs', [ps[i..j]] + hosts';
      JoinedCons(ps[at..i], segs', k);
      RenderedCons(ps[i..j], hosts');
      FilledSlices(ps, at, i, j, segs', hosts');
    }
  }

  lemma FilledSlices(ps: seq<Piece>, at: nat, i: nat, j: nat, segs: seq<seq<Piece>>, hosts: seq<seq<Piece>>)
    requires at <= i <= j <= |ps| && |segs| == |hosts| + 1 && Filled(segs, hosts) == ps[j..]
    ensures Filled([ps[at..i]] + segs, [ps[i..j]] + hosts) == ps[at..]
  {
    FilledCons(ps[at..i], ps[i..j], segs, hosts);
    assert ps[at..] == ps[at..i] + (ps[i..j] + ps[j..]);
  }

  lemma JoinedCons(seg: seq<Piece>, segs: seq<seq<Piece>>, k: nat)
    requires 0 < |segs| && k + 1 + |segs| <= PUA_COUNT + 1
    ensures Joined([seg] + segs, k) == seg + (Plain(Mark(k)) + Joined(segs, k + 1))
    ensures Render(Joined([seg] + segs, k)) == Render(seg) + Mark(k) + Render(Joined(segs, k + 1))
    ensures Source(Joined([seg] + segs, k)) == Source(seg) + Mark(k) + Source(Joined(segs, k + 1))
  {
    assert ([seg] + segs)[1..] == segs;
    RenderConcat(seg, Plain(Mark(k)) + Joined(segs, k + 1));
    RenderConcat(Plain(Mark(k)), Joined(segs, k + 1));
    PlainRender(Mark(k));
  }

  lemma RenderThree(a: seq<Piece>, b: seq<Piece>, c: seq<Piece>)
    ensures Render(a + (b + c)) == Render(a) + Render(b) + Render(c)
    ensures Source(a + (b + c)) == Source(a) + Source(b) + Source(c)
  {
    RenderConcat(a, b + c);
    RenderConcat(b, c);
    Assoc(Render(a), Render(b), Render(c));
    Assoc(Source(a), Source(b), Source(c));
  }

  lemma FilledCons(seg: seq<Piece>, host: seq<Piece>, segs: seq<seq<Piece>>, hosts: seq<seq<Piece>>)
    requires |segs| == |hosts| + 1
    ensures Filled([seg] + segs, [host] + hosts) == seg + (host + Filled(segs, hosts))
  {
    assert ([seg] + segs)[1..] == segs && ([host] + hosts)[1..] == hosts;
  }

  lemma RenderedCons(host: seq<Piece>, hosts: seq<seq<Piece>>)
    ensures Rendered([host] + hosts) == [Render(host)] + Rendered(hosts)
  {}

  // ----- marks are not part of any token -----

  lemma AtomFreePrefix(sh: Shape, s: string, p: string)
    requires AtomFree(sh, s) && p <= s
    ensures AtomFree(sh, p)
  {
    forall i | 0 <= i <= |p| ensures AtomLen(sh, p[i..]) == 0 {
      assert p[i..] <= s[i..];
      PrefixAtom(sh, s[i..], p[i..]);
    }
  }

  lemma AtomFreePart(sh: Shape, a: string, b: string, c: string)
    requires AtomFree(sh, a + b + c)
    ensures AtomFree(sh, a) && AtomFree(sh, b) && AtomFree(sh, c)
  {
    assert (a + b + c)[|a| + |b|..] == c;
    AtomFreeSuffix(sh, a + b + c, |a| + |b|);
    AtomFreePrefix(sh, a + b + c, a + b);
    AtomFreePrefix(sh, a + b, a);
    assert (a + b)[|a|..] == b;
    AtomFreeSuffix(sh, a + b, |a|);
  }

  lemma TokenWithoutMark(t: string)
    requires IsToken(t)
    ensures HOST_OPEN !in t && HOST_CLOSE !in t
  {
    forall k | 0 <= k < |t| ensures t[k] != HOST_OPEN && t[k] != HOST_CLOSE {
      if 0 < k < |t| - 2 - HASH_LEN {
        assert t[k] == t[1..|t| - 2 - HASH_LEN][k - 1];
      } else if |t| - 2 - HASH_LEN < k < |t| - 1 {
        assert t[k] == t[|t| - 1 - HASH_LEN..|t| - 1][k - (|t| - 1 - HASH_LEN)];
      }
    }
  }

  /** No token starts in front of a mark and runs into it. */
  lemma NoTokenAcross(a: string, m: string, b: string, i: nat)
    requires AtomFree(TokenShape, a) && IsHostMark(m) && i <= |a|
    ensures AtomLen(TokenShape, (a + m + b)[i..]) == 0
  {
    var s := (a + m + b)[i..];
    var n := AtomLen(TokenShape, s);
    if n > 0 {
      TokenWithoutMark(s[..n]);
      assert s[|a| - i] == HOST_OPEN;
      assert forall t :: 0 <= t < n ==> s[..n][t] == s[t] != HOST_OPEN;
      assert n <= |a| - i;
      assert s[..n] == a[i..][..n];
      AtomLenUnique(TokenShape, a[i..], n);
    }
  }

  lemma TokenStartsWithBracket(s: string)
    requires AtomLen(TokenShape, s) > 0
    ensures s[0] == '['
  {
    assert s[0] == s[..AtomLen(TokenShape, s)][0];
  }

  /** A mark keeps apart what stands on either side. */
  lemma Barrier(a: string, m: string, b: string)
    requires AtomFree(TokenShape, a) && AtomFree(TokenShape, b) && IsHostMark(m)
    ensures AtomFree(TokenShape, a + m + b)
  {
    var s := a + m + b;
    forall i | 0 <= i <= |s| ensures AtomLen(TokenShape, s[i..]) == 0 {
      if i <= |a| {
        NoTokenAcross(a, m, b, i);
      } else if i < |a| + 3 {
        assert s[i..][0] == m[i - |a|];
        if AtomLen(TokenShape, s[i..]) > 0 { TokenStartsWithBracket(s[i..]); }
      } else {
        assert s[i..] == b[i - |a| - 3..];
      }
    }
  }

  lemma {:induction false} JoinedFree(segs: seq<seq<Piece>>, hosts: seq<seq<Piece>>, k: nat)
    requires |segs| == |hosts| + 1 && k + |hosts| <= PUA_COUNT
    requires AtomFree(TokenShape, Source(Filled(segs, hosts)))
    ensures AtomFree(TokenShape, Source(Joined(segs, k)))
    decreases |segs|
  {
    if |segs| > 1 {
      assert segs == [segs[0]] + segs[1..] && hosts == [hosts[0]] + hosts[1..];
      FilledCons(segs[0], hosts[0], segs[1..], hosts[1..]);
      RenderThree(segs[0], hosts[0], Filled(segs[1..], hosts[1..]));
      AtomFreePart(TokenShape, Source(segs[0]), Source(hosts[0]), Source(Filled(segs[1..], hosts[1..])));
      JoinedFree(segs[1..], hosts[1..], k + 1);
      JoinedCons(segs[0], segs[1..], k);
      Barrier(Source(segs[0]), Mark(k), Source(Joined(segs[1..], k + 1)));
    }
  }

  // ----- passes leave marks alone -----

  /** A value that cannot cover any part of a mark. */
  predicate OffMarks(v: string) { |v| >= 2 && HOST_OPEN !in v && HOST_CLOSE !in v }

  ghost predicate TokensOffMarks(qs: seq<Piece>) {
    forall k :: 0 <= k < |qs| && qs[k].Tok? ==> OffMarks(qs[k].v)
  }

  lemma NoRunOverMark(v: string, m: string, k: nat, b: seq<Piece>)
    requires IsHostMark(m) && k < 3 && OffMarks(v)
    ensures var ps := Plain(m[k..]) + b; |v| <= |ps| ==> ps[..|v|] != Plain(v)
  {
    var ps := Plain(m[k..]) + b;
    assert v[0] in v && v[1] in v;
    assert ps[0] == Raw(m[k]) && (k == 1 ==> ps[1] == Raw(HOST_CLOSE));
    assert Plain(v)[0] == Raw(v[0]) && Plain(v)[1] == Raw(v[1]);
    assert |v| <= |ps| ==> ps[..|v|][0] == ps[0] && ps[..|v|][1] == ps[1];
  }

  /** The plain characters of a mark are still plain after a pass. */
  lemma {:induction false} AtMark(qs: seq<Piece>, m: string, k: nat, b: seq<Piece>)
    requires IsHostMark(m) && k <= 3 && Coarsens(qs, Plain(m[k..]) + b) && TokensOffMarks(qs)
    ensures 3 - k <= |qs| && qs == Plain(m[k..]) + qs[3 - k..] && Coarsens(qs[3 - k..], b)
    decreases 3 - k
  {
    var ps := Plain(m[k..]) + b;
    if k == 3 {
      assert ps == b && qs[0..] == qs;
    } else {
      assert ps[0] == Raw(m[k]) && ps[1..] == Plain(m[k + 1..]) + b;
      if qs[0].Tok? { NoRunOverMark(qs[0].v, m, k, b); }
      AtMark(qs[1..], m, k + 1, b);
      var rest := qs[3 - k..];
      assert qs[1..][2 - k..] == rest;
      assert qs == [qs[0]] + (Plain(m[k + 1..]) + rest);
    }
  }

  /** A pass over text with a mark is a pass on either side of it. */
  lemma {:induction false} SplitAtMark(qs: seq<Piece>, a: seq<Piece>, m: string, b: seq<Piece>)
    returns (qa: seq<Piece>, qb: seq<Piece>)
    requires IsHostMark(m) && Coarsens(qs, a + (Plain(m) + b)) && TokensOffMarks(qs)
    ensures qs == qa + (Plain(m) + qb) && Coarsens(qa, a) && Coarsens(qb, b)
    decreases |a|
  {
    var ps := a + (Plain(m) + b);
    if a == [] {
      assert ps == Plain(m) + b;
      assert m[0..] == m;
      AtMark(qs, m, 0, b);
      qa, qb := [], qs[3..];
    } else if ps[0] == qs[0] && Coarsens(qs[1..], ps[1..]) {
      assert ps[1..] == a[1..] + (Plain(m) + b);
      var qa';
      qa', qb := SplitAtMark(qs[1..], a[1..], m, b);
      qa := [qs[0]] + qa';
      assert qa[1..] == qa';
    } else {
      var n := |qs[0].v|;
      RunWithin(qs[0].v, a, m, b);
      assert ps[n..] == a[n..] + (Plain(m) + b) && a[..n] == ps[..n];
      var qa';
      qa', qb := SplitAtMark(qs[1..], a[n..], m, b);
      qa := [qs[0]] + qa';
      assert qa[1..] == qa';
    }
  }

  lemma RunWithin(v: string, a: seq<Piece>, m: string, b: seq<Piece>)
    requires IsHostMark(m) && OffMarks(v) && a != []
    requires |v| <= |a| + 3 + |b| && (a + (Plain(m) + b))[..|v|] == Plain(v)
    ensures |v| <= |a|
  {
    var ps := a + (Plain(m) + b);
    assert ps[|a|] == Raw(HOST_OPEN);
    forall t | 0 <= t < |v| ensures ps[t] != Raw(HOST_OPEN) {
      assert ps[t] == ps[..|v|][t] == Raw(v[t]);
      assert v[t] in v;
    }
  }

  lemma {:induction false} CoarsensConcat(qa: seq<Piece>, a: seq<Piece>, qb: seq<Piece>, b: seq<Piece>)
    requires Coarsens(qa, a) && Coarsens(qb, b)
    ensures Coarsens(qa + qb, a + b)
    decreases |qa|
  {
    if qa == [] {
      assert qa + qb == qb && a + b == b;
    } else {
      var q, p := qa + qb, a + b;
      assert q[1..] == qa[1..] + qb && q[0] == qa[0];
      if a != [] && a[0] == qa[0] && Coarsens(qa[1..], a[1..]) {
        CoarsensConcat(qa[1..], a[1..], qb, b);
        assert p[1..] == a[1..] + b;
      } else {
        var n := |qa[0].v|;
        CoarsensConcat(qa[1..], a[n..], qb, b);
        assert p[n..] == a[n..] + b && p[..n] == a[..n];
      }
    }
  }

  /** What a pass makes of text with marks, segment by segment. */
  lemma {:induction false} PassOnJoined(qs: seq<Piece>, segs: seq<seq<Piece>>, hosts: seq<seq<Piece>>, k: nat)
    returns (outs: seq<seq<Piece>>)
    requires |segs| == |hosts| + 1 && k + |hosts| <= PUA_COUNT
    requires Coarsens(qs, Joined(segs, k)) && TokensOffMarks(qs)
    ensures |outs| == |segs| && qs == Joined(outs, k)
    ensures Coarsens(Filled(outs, hosts), Filled(segs, hosts))
    decreases |segs|
  {
    if |segs| == 1 {
      outs := [qs];
    } else {
      var qa, qb := SplitAtMark(qs, segs[0], Mark(k), Joined(segs[1..], k + 1));
      assert forall t :: 0 <= t < |qb| ==> qb[t] == qs[|qa| + 3 + t];
      var rest := PassOnJoined(qb, segs[1..], hosts[1..], k + 1);
      outs := [qa] + rest;
      JoinedCons(qa, rest, k);
      assert segs == [segs[0]] + segs[1..] && hosts == [hosts[0]] + hosts[1..];
      FilledCons(qa, hosts[0], rest, hosts[1..]);
      FilledCons(segs[0], hosts[0], segs[1..], hosts[1..]);
      CoarsensRefl(hosts[0]);
      CoarsensConcat(hosts[0], hosts[0], Filled(rest, hosts[1..]), Filled(segs[1..], hosts[1..]));
      CoarsensConcat(qa, segs[0], hosts[0] + Filled(rest, hosts[1..]), hosts[0] + Filled(segs[1..], hosts[1..]));
    }
  }

  // ----- the hosts come back -----

  lemma MarkOpens(s: string)
    requires AtomLen(HostShape, s) > 0
    ensures s[0] == HOST_OPEN
  {
    assert s[0] == s[..AtomLen(HostShape, s)][0];
  }

  lemma NoMarkHere(s: string)
    requires s == "" || s[0] != HOST_OPEN
    ensures AtomLen(HostShape, s) == 0
  {
    if AtomLen(HostShape, s) > 0 { MarkOpens(s); }
  }

  lemma MarkIsPlain(qs: seq<Piece>)
    requires WellFormed(qs) && qs != [] && qs[0].Raw? && AtomLen(HostShape, Source(qs)) == 0
    ensures AtomLen(HostShape, Render(qs)) == 0
  {
    var r := Render(qs);
    var n := AtomLen(HostShape, r);
    if n > 0 {
      var m := r[..n];
      assert n == 3 && m[1] == r[1] && m[2] == r[2];
      var r1 := Render(qs[1..]);
      assert r1[0] == r[1] && r1[1] == r[2];
      assert qs[1].Raw?;
      assert r1[1] == Render(qs[1..][1..])[0];
      assert qs[2].Raw?;
      assert Source(qs)[..3] == m;
      AtomLenUnique(HostShape, Source(qs), 3);
    }
  }

  /** Without a mark in its source, a processed text shows none. */
  lemma {:induction false} HostFree(qs: seq<Piece>)
    requires WellFormed(qs) && AtomFree(HostShape, Source(qs))
    ensures AtomFree(HostShape, Render(qs))
  {
    var r := Render(qs);
    if qs == [] {
      assert r[0..] == "";
    } else {
      var w := Width(qs[0]);
      var u := |Source(qs)| - |Source(qs[1..])|;
      assert Source(qs)[u..] == Source(qs[1..]);
      AtomFreeSuffix(HostShape, Source(qs), u);
      HostFree(qs[1..]);
      assert Source(qs)[0..] == Source(qs) && r[0..] == r;
      if qs[0].Raw? { MarkIsPlain(qs); } else { TokenWithoutMark(qs[0].p); }
      forall i | 0 <= i <= |r| ensures AtomLen(HostShape, r[i..]) == 0 {
        if i >= w {
          assert r[i..] == Render(qs[1..])[i - w..];
        } else if qs[0].Tok? {
          assert r[i..][0] == qs[0].p[i] && qs[0].p[i] in qs[0].p;
          NoMarkHere(r[i..]);
        }
      }
    }
  }

  function Chars(s: string): (ls: seq<Lexeme>)
    ensures |ls| == |s|
  {
    seq(|s|, k requires 0 <= k < |s| => Chr(s[k]))
  }

  lemma CharsCons(s: string, rest: seq<Lexeme>)
    requires s != ""
    ensures Chars(s) + rest == [Chr(s[0])] + (Chars(s[1..]) + rest)
    ensures (Chars(s) + rest)[1..] == Chars(s[1..]) + rest
  {}

  lemma {:induction false} CharsFlat(f: string -> string, s: string, rest: seq<Lexeme>)
    requires rest == [] || rest[0].Atm?
    ensures Lead(Chars(s) + rest) == s && Flat(Chars(s) + rest) == s + Flat(rest)
    ensures MapFlat(f, Chars(s) + rest) == s + MapFlat(f, rest)
  {
    if s == "" {
      assert Chars(s) + rest == rest;
    } else {
      CharsCons(s, rest);
      CharsFlat(f, s[1..], rest);
      assert s == [s[0]] + s[1..];
    }
  }

  lemma {:induction false} CharsCanonical(sh: Shape, s: string, rest: seq<Lexeme>)
    requires AtomFree(sh, s) && Canonical(sh, rest) && (rest == [] || rest[0].Atm?)
    ensures Canonical(sh, Chars(s) + rest)
  {
    if s == "" {
      assert Chars(s) + rest == rest;
    } else {
      CharsCons(s, rest);
      AtomFreeSuffix(sh, s, 1);
      CharsCanonical(sh, s[1..], rest);
      CharsFlat(t => t, s, rest);
      assert s[0..] == s;
    }
  }

  lemma CharsThen(sh: Shape, f: string -> string, s: string, rest: seq<Lexeme>)
    requires AtomFree(sh, s) && Canonical(sh, rest) && (rest == [] || rest[0].Atm?)
    ensures Canonical(sh, Chars(s) + rest) && Flat(Chars(s) + rest) == s + Flat(rest)
    ensures MapFlat(f, Chars(s) + rest) == s + MapFlat(f, rest)
  {
    CharsCanonical(sh, s, rest);
    CharsFlat(f, s, rest);
  }

  /** The joined text as the mark scanner sees it. */
  function HostLex(outs: seq<seq<Piece>>, k: nat): seq<Lexeme>
    requires 0 < |outs| && k + |outs| <= PUA_COUNT + 1
    decreases |outs|
  {
    Chars(Render(outs[0])) + (if |outs| == 1 then [] else [Atm(Mark(k))] + HostLex(outs[1..], k + 1))
  }

  /** `taken` holds the text of `hosts`, from place `k` on. */
  ghost predicate Holds(taken: seq<string>, k: nat, hosts: seq<seq<Piece>>) {
    k + |hosts| <= |taken| && forall j :: k <= j < k + |hosts| ==> taken[j] == Render(hosts[j - k])
  }

  lemma AtmThen(sh: Shape, f: string -> string, t: string, rest: seq<Lexeme>)
    requires IsAtom(sh, t) && Canonical(sh, rest)
    ensures Canonical(sh, [Atm(t)] + rest)
    ensures Flat([Atm(t)] + rest) == t + Flat(rest) && MapFlat(f, [Atm(t)] + rest) == f(t) + MapFlat(f, rest)
  {
    assert ([Atm(t)] + rest)[1..] == rest;
  }

  lemma HoldsTail(taken: seq<string>, k: nat, hosts: seq<seq<Piece>>)
    requires Holds(taken, k, hosts) && hosts != [] && k < PUA_COUNT
    ensures HostOf(taken, Mark(k)) == Render(hosts[0]) && Holds(taken, k + 1, hosts[1..])
  {
  }

  lemma {:induction false} HostLexFacts(taken: seq<string>, outs: seq<seq<Piece>>, hosts: seq<seq<Piece>>, k: nat)
    requires |outs| == |hosts| + 1 && k + |hosts| <= PUA_COUNT && Holds(taken, k, hosts)
    requires forall j :: 0 <= j < |outs| ==> AtomFree(HostShape, Render(outs[j]))
    ensures Canonical(HostShape, HostLex(outs, k)) && Flat(HostLex(outs, k)) == Render(Joined(outs, k))
    ensures MapFlat(m => HostOf(taken, m), HostLex(outs, k)) == Render(Filled(outs, hosts))
    decreases |outs|
  {
    var f := m => HostOf(taken, m);
    if |outs| == 1 {
      CharsThen(HostShape, f, Render(outs[0]), []);
    } else {
      HoldsTail(taken, k, hosts);
      HostLexFacts(taken, outs[1..], hosts[1..], k + 1);
      var rest := HostLex(outs[1..], k + 1);
      AtmThen(HostShape, f, Mark(k), rest);
      CharsThen(HostShape, f, Render(outs[0]), [Atm(Mark(k))] + rest);
      HostRenderStep(outs, hosts, k);
    }
  }

  lemma HostRenderStep(outs: seq<seq<Piece>>, hosts: seq<seq<Piece>>, k: nat)
    requires |outs| == |hosts| + 1 && |outs| > 1 && k + |hosts| <= PUA_COUNT
    ensures Render(Joined(outs, k)) == Render(outs[0]) + (Mark(k) + Render(Joined(outs[1..], k + 1)))
    ensures Render(Filled(outs, hosts)) == Render(outs[0]) + (Render(hosts[0]) + Render(Filled(outs[1..], hosts[1..])))
  {
    assert outs == [outs[0]] + outs[1..] && hosts == [hosts[0]] + hosts[1..];
    JoinedCons(outs[0], outs[1..], k);
    FilledCons(outs[0], hosts[0], outs[1..], hosts[1..]);
    RenderThree(outs[0], hosts[0], Filled(outs[1..], hosts[1..]));
    Assoc(Render(outs[0]), Mark(k), Render(Joined(outs[1..], k + 1)));
    Assoc(Render(outs[0]), Render(hosts[0]), Render(Filled(outs[1..], hosts[1..])));
  }

  /** Putting the hosts back fills every mark with its host, and nothing else. */
  lemma BackFills(outs: seq<seq<Piece>>, hosts: seq<seq<Piece>>)
    requires |outs| == |hosts| + 1 && |hosts| <= PUA_COUNT
    requires WellFormed(Filled(outs, hosts)) && AtomFree(HostShape, Source(Filled(outs, hosts)))
    ensures Back(Rendered(hosts), Render(Joined(outs, 0))) == Render(Filled(outs, hosts))
    ensures MarksPlaced(Rendered(hosts), Render(Joined(outs, 0)))
  {
    if hosts != [] {
      SegmentsFree(outs, hosts);
      HostLexFacts(Rendered(hosts), outs, hosts, 0);
      LexOfFlat(HostShape, HostLex(outs, 0));
      HostLexAtoms(outs, 0);
      ReSubFlat(HostShape, m => HostOf(Rendered(hosts), m), HostLex(outs, 0));
    }
  }

  lemma {:induction false} HostLexAtoms(outs: seq<seq<Piece>>, k: nat)
    requires 0 < |outs| && k + |outs| <= PUA_COUNT + 1
    ensures forall l :: l in HostLex(outs, k) && l.Atm? ==> |l.t| == 3 && l.t[1] as int - PUA_FIRST < k + |outs| - 1
    decreases |outs|
  {
    if |outs| > 1 { HostLexAtoms(outs[1..], k + 1); }
  }

  lemma {:induction false} SegmentsFree(outs: seq<seq<Piece>>, hosts: seq<seq<Piece>>)
    requires |outs| == |hosts| + 1
    requires WellFormed(Filled(outs, hosts)) && AtomFree(HostShape, Source(Filled(outs, hosts)))
    ensures forall j :: 0 <= j < |outs| ==> AtomFree(HostShape, Render(outs[j]))
    decreases |outs|
  {
    if |outs| == 1 {
      HostFree(outs[0]);
    } else {
      var rest := Filled(outs[1..], hosts[1..]);
      assert outs == [outs[0]] + outs[1..] && hosts == [hosts[0]] + hosts[1..];
      FilledCons(outs[0], hosts[0], outs[1..], hosts[1..]);
      RenderThree(outs[0], hosts[0], rest);
      AtomFreePart(HostShape, Source(outs[0]), Source(hosts[0]), Source(rest));
      WellFormedParts(outs[0], hosts[0], rest);
      HostFree(outs[0]);
      SegmentsFree(outs[1..], hosts[1..]);
      forall j | 0 <= j < |outs| ensures AtomFree(HostShape, Render(outs[j])) {
        if j > 0 { assert outs[j] == outs[1..][j - 1]; }
      }
    }
  }

  lemma WellFormedParts(a: seq<Piece>, b: seq<Piece>, c: seq<Piece>)
    requires WellFormed(a + (b + c))
    ensures WellFormed(a) && WellFormed(c)
  {
    var all := a + (b + c);
    assert forall k :: 0 <= k < |a| ==> a[k] == all[k];
    assert forall k :: 0 <= k < |c| ==> c[k] == all[|a| + |b| + k];
  }

  function HostToks(hosts: seq<seq<Piece>>): set<(string, string)> {
    if hosts == [] then {} else Toks(hosts[0]) + HostToks(hosts[1..])
  }

  /** The tokens of the whole are those between the hosts and those in them. */
  lemma {:induction false} ToksFilled(segs: seq<seq<Piece>>, hosts: seq<seq<Piece>>, k: nat)
    requires |segs| == |hosts| + 1 && k + |hosts| <= PUA_COUNT
    ensures Toks(Filled(segs, hosts)) == Toks(Joined(segs, k)) + HostToks(hosts)
    decreases |segs|
  {
    if |segs| > 1 {
      ToksFilled(segs[1..], hosts[1..], k + 1);
      assert segs == [segs[0]] + segs[1..] && hosts == [hosts[0]] + hosts[1..];
      JoinedCons(segs[0], segs[1..], k);
      FilledCons(segs[0], hosts[0], segs[1..], hosts[1..]);
      ToksConcat(segs[0], hosts[0] + Filled(segs[1..], hosts[1..]));
      ToksConcat(hosts[0], Filled(segs[1..], hosts[1..]));
      ToksConcat(segs[0], Plain(Mark(k)) + Joined(segs[1..], k + 1));
      ToksConcat(Plain(Mark(k)), Joined(segs[1..], k + 1));
      ToksPlain(Mark(k));
    }
  }
}
