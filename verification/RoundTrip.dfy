/** The promise of the reversible driver, over the whole pipeline: its output is
    the neutralised text with some stretches turned into tokens, every one of
    which the store opens again. */
module RoundTrip {
  import opened Lexer
  import opened Pieces
  import opened Cuts
  import opened Mappings
  import opened Matching
  import opened Rules
  import opened Detection
  import opened Hosts
  import opened Survivors
  import opened Reveal
  import opened Anonymizer

  // ----- the check has nothing to find -----

  /** No value can be misread next to the others, or to tokens of `olds`. */
  ghost predicate NoneMisread(e: Env, r: Rule, olds: iset<string>) {
    forall v :: r.fits(v) ==> !Misread(e, r, olds, v)
  }

  /** No value holds a mask of the run. */
  ghost predicate AllImmune(e: Env, labels: map<string, string>) {
    forall v :: v in labels ==> Immune(Shapes(e, labels.Keys), v)
  }

  lemma KnownFits(e: Env, r: Rule, s: string)
    requires WordRule(e, r)
    ensures Knows(r, KnownOf(PassSwaps(r, s)))
  {
    SwapsOfPass(r, s, 0);
  }

  lemma RunMasks(e: Env, r: Rule, labels: map<string, string>)
    requires forall v :: r.fits(v) <==> v in labels
    ensures Masks(e, r, Shapes(e, labels.Keys))
  {}

  /** On clean text the fail-hard check finds no survivor. */
  lemma NoneSurvive(e: Env, r: Rule, labels: map<string, string>, olds: iset<string>, ps: seq<Piece>)
    requires Sane(e) && WordRule(e, r) && Names(r) && (forall v :: r.fits(v) <==> v in labels) && AllImmune(e, labels)
    requires Clean(ps) && AllOld(olds, ps) && NoneMisread(e, r, olds)
    ensures var s := Render(ps);
            !Survives(e, labels, Stripped(e, KnownOf(PassSwaps(r, s)), PassText(r, s)))
  {
    var s := Render(ps);
    var known, shapes := KnownOf(PassSwaps(r, s)), Shapes(e, labels.Keys);
    KnownFits(e, r, s);
    RunMasks(e, r, labels);
    forall v, j: nat | v in labels ensures !Whole(e, Stripped(e, known, PassText(r, s)), v, j) {
      NoSurvivor(e, r, olds, known, shapes, ps, v, j);
    }
  }

  // ----- what the store holds -----

  /** The row of `p` was put for a value of `toks` that has this token. */
  ghost predicate RowOf(e: Env, toks: set<(string, string)>, p: string, m: Mapping) {
    exists v, ty :: (p, v) in toks && p == Pseudonym(e, ty, v) && m == Row(e, ty, p, v)
  }

  /** No row is lost or changed, every token of `toks` has a row, and a new row is
      one of `toks`. */
  ghost predicate Extends(e: Env, d: Store, d': Store, toks: set<(string, string)>) {
    && (forall p :: p in d ==> p in d' && d'[p] == d[p])
    && (forall x :: x in toks ==> x.0 in d')
    && (forall p :: p in d' && p !in d ==> RowOf(e, toks, p, d'[p]))
  }

  lemma ExtendsTrans(e: Env, d: Store, d1: Store, d2: Store, t1: set<(string, string)>, t2: set<(string, string)>)
    requires Extends(e, d, d1, t1) && Extends(e, d1, d2, t2)
    ensures Extends(e, d, d2, t1 + t2)
  {
    forall p | p in d2 && p !in d ensures RowOf(e, t1 + t2, p, d2[p]) {
      if p in d1 {
        var v, ty :| (p, v) in t1 && p == Pseudonym(e, ty, v) && d1[p] == Row(e, ty, p, v);
        assert (p, v) in t1 + t2;
      } else {
        var v, ty :| (p, v) in t2 && p == Pseudonym(e, ty, v) && d2[p] == Row(e, ty, p, v);
        assert (p, v) in t1 + t2;
      }
    }
  }

  lemma {:induction false} PutAllExtends(e: Env, r: Rule, d: Store, swaps: Swaps)
    requires forall x :: x in swaps ==> x.0 == Pseudonym(e, r.ty(x.1), x.1)
    ensures Extends(e, d, PutAll(e, r, d, swaps), Pairs(swaps))
    decreases |swaps|
  {
    if swaps != [] {
      var x, rest := swaps[0], swaps[1..];
      var d1 := PutExtends(e, d, r.ty(x.1), x.0, x.1);
      PutAllExtends(e, r, d1, rest);
      ExtendsTrans(e, d, d1, PutAll(e, r, d1, rest), {x}, Pairs(rest));
      PairsCons(swaps);
    }
  }

  lemma PutExtends(e: Env, d: Store, ty: string, p: string, v: string) returns (d1: Store)
    requires p == Pseudonym(e, ty, v)
    ensures d1 == PutFirst(d, p, Row(e, ty, p, v)) && Extends(e, d, d1, {(p, v)})
  {
    d1 := PutFirst(d, p, Row(e, ty, p, v));
    assert (p, v) in {(p, v)};
  }

  lemma PairsCons(swaps: Swaps)
    requires swaps != []
    ensures Pairs(swaps) == {swaps[0]} + Pairs(swaps[1..])
  {}

  lemma {:induction false} LayerExtends(e: Env, ds: seq<Detector>, s: string, d: Store)
    ensures Extends(e, d, LayerStore(e, ds, s, d), Pairs(LayerSwaps(e, ds, s)))
  {
    if ds != [] {
      var r := DetRule(e, ds[0]);
      var out, swaps := PassText(r, s), PassSwaps(r, s);
      var d1 := PutAll(e, r, d, swaps);
      SwapsOfPass(r, s, 0);
      PutAllExtends(e, r, d, swaps);
      LayerExtends(e, ds[1..], out, d1);
      ExtendsTrans(e, d, d1, LayerStore(e, ds[1..], out, d1), Pairs(swaps), Pairs(LayerSwaps(e, ds[1..], out)));
      PairsConcat(swaps, LayerSwaps(e, ds[1..], out));
    }
  }

  // ----- tokens of the output -----

  function AtomsIn(ls: seq<Lexeme>): seq<string> {
    if ls == [] then [] else (if ls[0].Atm? then [ls[0].t] else []) + AtomsIn(ls[1..])
  }

  lemma {:induction false} TokensAreAtoms(s: string)
    ensures TokensOf(s) == AtomsIn(Lex(TokenShape, s))
    decreases |s|
  {
    if s != "" {
      var m := Lexer.Span(TokenShape, s);
      TokensAreAtoms(s[m..]);
      var head := if AtomLen(TokenShape, s) > 0 then Atm(s[..m]) else Chr(s[0]);
      var rest := Lex(TokenShape, s[m..]);
      assert Lex(TokenShape, s) == [head] + rest;
      assert ([head] + rest)[1..] == rest;
    }
  }

  lemma {:induction false} AtomsOfPieces(ps: seq<Piece>)
    ensures forall t :: t in AtomsIn(Lexemes(ps)) <==> exists x :: x in Toks(ps) && x.0 == t
  {
    if ps != [] {
      LexemesTail(ps);
      AtomsOfPieces(ps[1..]);
      var rest := AtomsIn(Lexemes(ps[1..]));
      forall t ensures t in AtomsIn(Lexemes(ps)) <==> exists x :: x in Toks(ps) && x.0 == t {
        assert t in AtomsIn(Lexemes(ps)) <==> (ps[0].Tok? && t == ps[0].p) || t in rest;
        if ps[0].Tok? {
          assert Toks(ps) == {(ps[0].p, ps[0].v)} + Toks(ps[1..]);
          assert (ps[0].p, ps[0].v) in Toks(ps);
        }
      }
    }
  }

  /** `tokens_in`: the tokens found in the output are exactly those the run made. */
  lemma TokensFound(ps: seq<Piece>)
    requires Clean(ps)
    ensures forall t :: t in TokensOf(Render(ps)) <==> exists x :: x in Toks(ps) && x.0 == t
  {
    LexRender(ps);
    TokensAreAtoms(Render(ps));
    AtomsOfPieces(ps);
  }

  // ----- spans that cut no token -----

  /** Position `b` is not inside a token. */
  ghost predicate Outside(s: string, b: nat) {
    b <= |s| && forall a: nat :: a < b ==> a + AtomLen(TokenShape, s[a..]) <= b
  }

  ghost predicate CutNoToken(s: string, spans: seq<Hosts.Span>) {
    forall k :: 0 <= k < |spans| ==> Outside(s, spans[k].0) && Outside(s, spans[k].1)
  }

  lemma OutsideTail(s: string, w: nat, b: nat)
    requires w <= b && Outside(s, b)
    ensures w <= |s| && Outside(s[w..], b - w)
  {
    forall a: nat | a < b - w ensures a + AtomLen(TokenShape, s[w..][a..]) <= b - w {
      DropDrop(s, w, w + a);
      assert w + a + AtomLen(TokenShape, s[w + a..]) <= b;
    }
  }

  lemma {:induction false} OutsideBetween(ps: seq<Piece>, b: nat)
    requires Clean(ps) && Outside(Render(ps), b)
    ensures Between(ps, b)
  {
    var s := Render(ps);
    if b == 0 {
      assert |Render(ps[..0])| == 0;
    } else {
      var w := Width(ps[0]);
      HeadAtom(ps, 0);
      assert s[0..] == s;
      assert 0 + AtomLen(TokenShape, s[0..]) <= b;
      CleanTail(ps);
      OutsideTail(s, w, b);
      OutsideBetween(ps[1..], b - w);
      var j :| 0 <= j <= |ps[1..]| && |Render(ps[1..][..j])| == b - w;
      ShiftPrefix(ps, j);
    }
  }

  // ----- the whole pipeline -----

  /** The values can be matched as words, no match touches a mark, and none holds a mask of
      the run. */
  ghost predicate Usable(e: Env, labels: map<string, string>) {
    forall v :: v in labels ==>
      NoBracket(v, 0, |v|) && OffMarks(v) && Immune(Shapes(e, labels.Keys), v) && LabelOk(labels[v])
  }

  ghost function TokensIn(s: string): iset<string> { iset t | t in TokensOf(s) }

  /** What a caller can check before the entity pass on the text `s`: the values hold no
      bracket, no mark and none of the run's masks, their types are label words, and none can
      be misread next to another or to a token of the text; the protected spans cut no token,
      and the text holds no mark of its own when there are any. */
  ghost predicate Faithful(e: Env, labels: map<string, string>, s: string, spans: seq<Hosts.Span>, free: string) {
    && Usable(e, labels) && NoneMisread(e, NamesRule(e, labels), TokensIn(s))
    && CutNoToken(s, spans) && (spans == [] || AtomFree(HostShape, free))
  }

  lemma NamesAreWholeWords(e: Env, labels: map<string, string>)
    requires forall v :: v in labels ==> v != "" && NoBracket(v, 0, |v|)
    ensures WordRule(e, NamesRule(e, labels))
  {}

  lemma UsableFacts(e: Env, labels: map<string, string>)
    requires Usable(e, labels)
    ensures LabelsOk(labels) && forall v :: v in labels ==> v != "" && NoBracket(v, 0, |v|)
    ensures AllImmune(e, labels)
  {}

  lemma NamesAreWords(e: Env, labels: map<string, string>)
    requires Sane(e) && Usable(e, labels)
    ensures var r := NamesRule(e, labels);
            && WordRule(e, r) && Names(r) && AllImmune(e, labels)
            && forall v :: r.fits(v) <==> v in labels
  {
    UsableFacts(e, labels);
    NamesAreWholeWords(e, labels);
    NamesRuleNames(e, labels);
  }

  lemma DetOffMarks(e: Env, qs: seq<Piece>, s: string)
    requires Sane(e) && Known(qs, Plain(s), DetMinted(e))
    ensures TokensOffMarks(qs)
  {
    forall k | 0 <= k < |qs| && qs[k].Tok? ensures OffMarks(qs[k].v) {
      assert (qs[k].p, qs[k].v) in DetMinted(e);
      var d :| DetFits(e, d, qs[k].v);
      FitsOffMarks(e, d, qs[k].v);
    }
  }

  lemma FitsOffMarks(e: Env, d: Detector, v: string)
    requires Sane(e) && DetFits(e, d, v)
    ensures OffMarks(v)
  {
    assert !e.digit(HOST_OPEN) && !e.digit(HOST_CLOSE) && !e.space(HOST_OPEN) && !e.space(HOST_CLOSE);
  }

  lemma BetweenAll(ps: seq<Piece>, spans: seq<Hosts.Span>)
    requires Clean(ps) && CutNoToken(Render(ps), spans)
    ensures SpansBetween(ps, spans)
  {
    forall k | 0 <= k < |spans| ensures Between(ps, spans[k].0) && Between(ps, spans[k].1) {
      OutsideBetween(ps, spans[k].0);
      OutsideBetween(ps, spans[k].1);
    }
  }

  /** The text with the hosts taken out is clean too. */
  lemma JoinedClean(segs: seq<seq<Piece>>, hosts: seq<seq<Piece>>)
    requires |segs| == |hosts| + 1 && |hosts| <= PUA_COUNT && Clean(Filled(segs, hosts))
    ensures Clean(Joined(segs, 0))
    ensures forall q :: q in Joined(segs, 0) && q.Tok? ==> q in Filled(segs, hosts)
  {
    JoinedFree(segs, hosts, 0);
    JoinedTokens(segs, hosts, 0);
  }

  lemma {:induction false} JoinedTokens(segs: seq<seq<Piece>>, hosts: seq<seq<Piece>>, k: nat)
    requires |segs| == |hosts| + 1 && k + |hosts| <= PUA_COUNT
    ensures forall q :: q in Joined(segs, k) && q.Tok? ==> q in Filled(segs, hosts)
    decreases |segs|
  {
    if |segs| > 1 {
      JoinedTokens(segs[1..], hosts[1..], k + 1);
    }
  }

  lemma NewOffMarks(e: Env, labels: map<string, string>, ps: seq<Piece>, js: seq<Piece>, qs: seq<Piece>)
    requires TokensOffMarks(ps) && Usable(e, labels)
    requires forall q :: q in js && q.Tok? ==> q in ps
    requires Known(qs, js, Minted(NamesRule(e, labels)))
    ensures TokensOffMarks(qs)
  {
    forall k | 0 <= k < |qs| && qs[k].Tok? ensures OffMarks(qs[k].v) {
      if qs[k] in js {
        var j :| 0 <= j < |ps| && ps[j] == qs[k];
      } else {
        assert (qs[k].p, qs[k].v) in Minted(NamesRule(e, labels));
      }
    }
  }

  lemma TokenFound(ps: seq<Piece>, q: Piece)
    requires Clean(ps) && q.Tok? && q in ps
    ensures q.p in TokensOf(Render(ps))
  {
    TokensFound(ps);
    ToksHas(ps, q.p, q.v);
    assert (q.p, q.v) in Toks(ps);
  }

  lemma OldInside(ps: seq<Piece>, js: seq<Piece>)
    requires Clean(ps) && forall q :: q in js && q.Tok? ==> q in ps
    ensures AllOld(TokensIn(Render(ps)), js)
  {
    forall q | q in js && q.Tok? ensures q.p in TokensOf(Render(ps)) { TokenFound(ps, q); }
  }

  lemma WellFormedBy(fs: seq<Piece>, qs: seq<Piece>, ps: seq<Piece>)
    requires WellFormed(qs) && WellFormed(ps) && Toks(fs) <= Toks(qs) + Toks(ps)
    ensures WellFormed(fs)
  {
    forall k | 0 <= k < |fs| && fs[k].Tok? ensures IsToken(fs[k].p) {
      ToksHas(fs, fs[k].p, fs[k].v);
      ToksHas(qs, fs[k].p, fs[k].v);
      ToksHas(ps, fs[k].p, fs[k].v);
    }
  }

  lemma HostsBack(outs: seq<seq<Piece>>, hosts: seq<seq<Piece>>)
    requires |outs| == |hosts| + 1 && |hosts| <= PUA_COUNT && WellFormed(Filled(outs, hosts))
    requires hosts == [] || AtomFree(HostShape, Source(Filled(outs, hosts)))
    ensures Back(Rendered(hosts), Render(Joined(outs, 0))) == Render(Filled(outs, hosts))
    ensures MarksPlaced(Rendered(hosts), Render(Joined(outs, 0)))
  {
    if hosts != [] { BackFills(outs, hosts); }
  }

  /** The pass over the text between the hosts. */
  lemma PassBetween(e: Env, labels: map<string, string>, ps: seq<Piece>, segs: seq<seq<Piece>>, hosts: seq<seq<Piece>>)
    returns (outs: seq<seq<Piece>>)
    requires Sane(e) && Usable(e, labels) && Clean(ps) && TokensOffMarks(ps)
    requires |segs| == |hosts| + 1 && |hosts| <= PUA_COUNT && Filled(segs, hosts) == ps
    ensures |outs| == |segs| && Clean(Filled(outs, hosts)) && Coarsens(Filled(outs, hosts), ps)
    ensures var r, t := NamesRule(e, labels), Render(Joined(segs, 0));
            && Render(Joined(outs, 0)) == PassText(r, t)
            && Toks(Filled(outs, hosts)) == Toks(ps) + Pairs(PassSwaps(r, t))
  {
    var r, js := NamesRule(e, labels), Joined(segs, 0);
    JoinedClean(segs, hosts);
    NamesAreWords(e, labels);
    NamesSpare(e, labels, Render(js));
    var qs := RulePass(r, js);
    NewOffMarks(e, labels, ps, js, qs);
    outs := PassOnJoined(qs, segs, hosts, 0);
    CoarsensSource(Filled(outs, hosts), ps);
    ToksFilled(segs, hosts, 0);
    ToksFilled(outs, hosts, 0);
    WellFormedBy(Filled(outs, hosts), qs, ps);
  }

  /** With the hosts out, no value survives. */
  lemma NoneSurviveBetween(e: Env, labels: map<string, string>, ps: seq<Piece>, segs: seq<seq<Piece>>,
                           hosts: seq<seq<Piece>>,
                           spans: seq<Hosts.Span>, free: string)
    requires Sane(e) && Clean(ps) && |segs| == |hosts| + 1 && |hosts| <= PUA_COUNT && Filled(segs, hosts) == ps
    requires Faithful(e, labels, Render(ps), spans, free)
    ensures var r, t := NamesRule(e, labels), Render(Joined(segs, 0));
            !Survives(e, labels, Stripped(e, KnownOf(PassSwaps(r, t)), PassText(r, t)))
  {
    JoinedClean(segs, hosts);
    OldInside(ps, Joined(segs, 0));
    NamesAreWords(e, labels);
    NoneSurvive(e, NamesRule(e, labels), labels, TokensIn(Render(ps)), Joined(segs, 0));
  }

  /** The entity pass, and the hosts put back. */
  lemma EntityKeeps(e: Env, labels: map<string, string>, spans: seq<Hosts.Span>, ps: seq<Piece>)
    returns (fs: seq<Piece>)
    requires Sane(e) && Clean(ps) && TokensOffMarks(ps) && Within(Render(ps), spans) && labels != map[]
    requires Faithful(e, labels, Render(ps), spans, Source(ps))
    ensures var r := EntityPass(e, labels, Render(ps), spans); r.Done? && r.text == Render(fs)
    ensures Clean(fs) && Coarsens(fs, ps)
    ensures Toks(fs) == Toks(ps) + Pairs(Swapped(e, labels, Render(ps), spans))
  {
    BetweenAll(ps, spans);
    assert ps[..0] == [] && ps[0..] == ps;
    var segs, hosts := HostsOnPieces(ps, 0, spans, 0, 0);
    var outs := PassBetween(e, labels, ps, segs, hosts);
    fs := Filled(outs, hosts);
    CoarsensSource(fs, ps);
    HostsBack(outs, hosts);
    NoneSurviveBetween(e, labels, ps, segs, hosts, spans, Source(ps));
  }

  /** Every token carries the keyed digest of its value. */
  ghost predicate Named(e: Env, toks: set<(string, string)>) {
    forall x :: x in toks ==> exists ty :: x.0 == Pseudonym(e, ty, x.1)
  }

  /** The deterministic layer on a text without tokens. */
  lemma LayerRun(e: Env, free: string) returns (ps: seq<Piece>)
    requires Sane(e) && AtomFree(TokenShape, free)
    ensures Render(ps) == Layer(e, DETECTORS, free) && Source(ps) == free
    ensures Clean(ps) && Coarsens(ps, Plain(free)) && TokensOffMarks(ps)
    ensures Toks(ps) == Pairs(LayerSwaps(e, DETECTORS, free)) && Named(e, Toks(ps))
  {
    PlainRender(free);
    ToksPlain(free);
    ps := LayerKeeps(e, DETECTORS, Plain(free));
    CoarsensSource(ps, Plain(free));
    DetOffMarks(e, ps, free);
    LayerNamed(e, DETECTORS, free);
  }

  lemma {:induction false} LayerNamed(e: Env, ds: seq<Detector>, s: string)
    ensures Named(e, Pairs(LayerSwaps(e, ds, s)))
  {
    if ds != [] {
      var r := DetRule(e, ds[0]);
      PassNamed(e, ds[0], s);
      LayerNamed(e, ds[1..], PassText(r, s));
      PairsConcat(PassSwaps(r, s), LayerSwaps(e, ds[1..], PassText(r, s)));
    }
  }

  lemma PassNamed(e: Env, d: Detector, s: string)
    ensures Named(e, Pairs(PassSwaps(DetRule(e, d), s)))
  {
    SwapsOfPass(DetRule(e, d), s, 0);
    forall x | x in PassSwaps(DetRule(e, d), s) ensures x.0 == Pseudonym(e, DetLabel(d), x.1) {}
  }

  /** What a caller can check about a run. */
  ghost predicate Good(e: Env, f: Finder, text: string)
    requires InText(f, Body(e, text))
  {
    var s := Body(e, text);
    && Sane(e)
    && (!Blank(e, s) ==>
          f.entities(s).Some? && Faithful(e, Labels(e, f, s), s, Protected(f, s), Neutral(text)))
  }

  /** `out` is `free` with stretches turned into the tokens of `fs`, and the store
      gained exactly the rows of those tokens. */
  ghost predicate Kept(e: Env, free: string, out: string, d: Store, d': Store, fs: seq<Piece>) {
    && out == Render(fs) && Clean(fs) && Coarsens(fs, Plain(free)) && Source(fs) == free
    && Extends(e, d, d', Toks(fs)) && Named(e, Toks(fs))
  }

  lemma LayerKept(e: Env, free: string, d: Store) returns (ps: seq<Piece>)
    requires Sane(e) && AtomFree(TokenShape, free)
    ensures Kept(e, free, Layer(e, DETECTORS, free), d, LayerStore(e, DETECTORS, free, d), ps) && TokensOffMarks(ps)
    ensures Toks(ps) == Pairs(LayerSwaps(e, DETECTORS, free))
  {
    ps := LayerRun(e, free);
    LayerExtends(e, DETECTORS, free, d);
  }

  lemma EntityKept(e: Env, labels: map<string, string>, spans: seq<Hosts.Span>, free: string, s: string,
                   d: Store, d1: Store, ps: seq<Piece>) returns (fs: seq<Piece>)
    requires Sane(e) && Kept(e, free, s, d, d1, ps) && TokensOffMarks(ps) && Within(s, spans) && labels != map[]
    requires Faithful(e, labels, s, spans, free)
    ensures var r := EntityPass(e, labels, s, spans);
            r.Done? && Kept(e, free, r.text, d, PutAll(e, NamesRule(e, labels), d1, Swapped(e, labels, s, spans)), fs)
    ensures Toks(fs) == Toks(ps) + Pairs(Swapped(e, labels, s, spans))
  {
    fs := EntityKeeps(e, labels, spans, ps);
    CoarsensTrans(fs, ps, Plain(free));
    CoarsensSource(fs, ps);
    var swaps := Swapped(e, labels, s, spans);
    if labels != map[] { SwapsOfPass(NamesRule(e, labels), Without(s, spans, 0, 0), 0); }
    PutAllExtends(e, NamesRule(e, labels), d1, swaps);
    ExtendsTrans(e, d, d1, PutAll(e, NamesRule(e, labels), d1, swaps), Toks(ps), Pairs(swaps));
    SwapsNamed(e, labels, Without(s, spans, 0, 0));
    NamedBoth(e, Toks(ps), Pairs(swaps));
  }

  lemma SwapsNamed(e: Env, labels: map<string, string>, t: string)
    ensures Named(e, Pairs(PassSwaps(NamesRule(e, labels), t)))
  {
    SwapsOfPass(NamesRule(e, labels), t, 0);
  }

  lemma NamedBoth(e: Env, a: set<(string, string)>, b: set<(string, string)>)
    requires Named(e, a) && Named(e, b)
    ensures Named(e, a + b)
  {}

  lemma PutNothing(e: Env, r: Rule, d: Store)
    ensures PutAll(e, r, d, []) == d
  {}

  /** The replacements of a run: those of the detectors, then those of the entity pass. */
  function RunToks(e: Env, f: Finder, text: string): set<(string, string)>
    requires InText(f, Body(e, text))
  {
    var s := Body(e, text);
    Pairs(LayerSwaps(e, DETECTORS, Neutral(text)))
    + if Blank(e, s) then {} else Pairs(Swapped(e, Labels(e, f, s), s, Protected(f, s)))
  }

  /** The run on `text` ends well, and what it kept is `fs`; the tokens are exactly the
      replacements it made. */
  ghost predicate Succeeds(e: Env, f: Finder, text: string, d: Store, fs: seq<Piece>)
    requires InText(f, Body(e, text))
  {
    && Run(e, f, text).Done? && Kept(e, Neutral(text), Run(e, f, text).text, d, RunStore(e, f, text, d), fs)
    && Toks(fs) == RunToks(e, f, text)
  }

  lemma RunBlank(e: Env, f: Finder, text: string, d: Store)
    requires InText(f, Body(e, text)) && Blank(e, Body(e, text))
    ensures Run(e, f, text).Done? && Run(e, f, text).text == Body(e, text)
    ensures RunStore(e, f, text, d) == LayerStore(e, DETECTORS, Neutral(text), d)
  {}

  predicate RunIs(e: Env, f: Finder, text: string, out: string)
    requires InText(f, Body(e, text))
  {
    Run(e, f, text).Done? && Run(e, f, text).text == out
  }

  lemma RunNames(e: Env, f: Finder, text: string, d: Store, s: string, d1: Store)
    requires s == Body(e, text) && InText(f, s) && !Blank(e, s) && f.entities(s).Some?
    requires d1 == LayerStore(e, DETECTORS, Neutral(text), d)
    ensures var labels, spans := Labels(e, f, s), Protected(f, s);
            && RunStore(e, f, text, d) == PutAll(e, NamesRule(e, labels), d1, Swapped(e, labels, s, spans))
            && var r := EntityPass(e, labels, s, spans); r.Done? ==> RunIs(e, f, text, r.text)
  {
    NamedPass(e, f, text, d, s, Labels(e, f, s), Protected(f, s));
  }

  lemma BlankKept(e: Env, f: Finder, text: string, d: Store) returns (fs: seq<Piece>)
    requires InText(f, Body(e, text)) && Blank(e, Body(e, text)) && Sane(e)
    ensures Succeeds(e, f, text, d, fs)
  {
    NeutralIsFree(text);
    fs := LayerKept(e, Neutral(text), d);
    RunBlank(e, f, text, d);
  }

  lemma NamesKept(e: Env, labels: map<string, string>, spans: seq<Hosts.Span>, free: string, s: string,
                  d: Store, d1: Store, ps: seq<Piece>) returns (fs: seq<Piece>)
    requires Sane(e) && Kept(e, free, s, d, d1, ps) && TokensOffMarks(ps) && Within(s, spans)
    requires Faithful(e, labels, s, spans, free)
    ensures var r := EntityPass(e, labels, s, spans);
            r.Done? && Kept(e, free, r.text, d, PutAll(e, NamesRule(e, labels), d1, Swapped(e, labels, s, spans)), fs)
    ensures Toks(fs) == Toks(ps) + Pairs(Swapped(e, labels, s, spans))
  {
    if labels == map[] {
      fs := ps;
      assert Pairs([]) == {};
      PutNothing(e, NamesRule(e, labels), d1);
    } else {
      fs := EntityKept(e, labels, spans, free, s, d, d1, ps);
    }
  }

  /** The state of a run in front of the entity pass. */
  ghost predicate Ready(e: Env, f: Finder, text: string, d: Store, s: string, d1: Store, ps: seq<Piece>) {
    && s == Body(e, text) && InText(f, s) && !Blank(e, s) && f.entities(s).Some? && Sane(e)
    && Faithful(e, Labels(e, f, s), s, Protected(f, s), Neutral(text))
    && d1 == LayerStore(e, DETECTORS, Neutral(text), d)
    && Kept(e, Neutral(text), s, d, d1, ps) && TokensOffMarks(ps)
    && Toks(ps) == Pairs(LayerSwaps(e, DETECTORS, Neutral(text)))
  }

  lemma NamedRun(e: Env, f: Finder, text: string, d: Store, s: string, d1: Store, ps: seq<Piece>)
    returns (fs: seq<Piece>)
    requires Ready(e, f, text, d, s, d1, ps)
    ensures InText(f, Body(e, text)) && Succeeds(e, f, text, d, fs)
  {
    RunNames(e, f, text, d, s, d1);
    fs := NamesKept(e, Labels(e, f, s), Protected(f, s), Neutral(text), s, d, d1, ps);
  }

  /** One whole run: it succeeds, no pass breaks a token of an earlier one, and the
      output stands for exactly the neutralised input. */
  lemma RunKeeps(e: Env, f: Finder, text: string, d: Store) returns (fs: seq<Piece>)
    requires InText(f, Body(e, text)) && Good(e, f, text)
    ensures Succeeds(e, f, text, d, fs)
  {
    if Blank(e, Body(e, text)) {
      fs := BlankKept(e, f, text, d);
    } else {
      NeutralIsFree(text);
      var ps := LayerKept(e, Neutral(text), d);
      fs := NamedRun(e, f, text, d, Body(e, text), LayerStore(e, DETECTORS, Neutral(text), d), ps);
    }
  }

  // ----- revealing the output -----

  /** For every token of the output, the key a run seals its type under resolves. */
  ghost predicate KeysServe(e: Env, keys: map<string, Key>, out: string) {
    forall t :: t in TokensOf(out) ==>
      var k := e.key(LabelIn(t)); k.id in keys && keys[k.id].material == k.material
  }

  /** The label in a token is the one its type was written with. */
  lemma LabelOfToken(e: Env, ty: string, v: string, t: string)
    requires Sane(e) && t == Pseudonym(e, ty, v) && IsToken(t)
    ensures LabelIn(t) == UpperCase(ty)
  {
    var l, c := UpperCase(ty), |t| - 2 - HASH_LEN;
    PseudonymLabel(e, ty, v);
    assert t[1..c] == l;
    forall k | 0 <= k < c ensures t[k] != ':' {
      if k > 0 { assert LabelChar(t[1..c][k - 1]); }
    }
    assert FirstIndex(':', t) == c;
  }

  /** A new row was put for a token of the text, under a key that resolves. */
  lemma NewRow(e: Env, d: Store, d': Store, fs: seq<Piece>, keys: map<string, Key>, p: string)
    requires Sane(e) && Clean(fs) && Extends(e, d, d', Toks(fs)) && KeysServe(e, keys, Render(fs))
    requires p in d' && p !in d
    ensures d'[p].keyId in keys && keys[d'[p].keyId].material == d'[p].cipher.material
    ensures (p, d'[p].cipher.plain) in Toks(fs)
  {
    var v, ty :| (p, v) in Toks(fs) && p == Pseudonym(e, ty, v) && d'[p] == Row(e, ty, p, v);
    var k := LabelKey(e, fs, keys, p, v, ty);
  }

  /** Every row was put for a value whose token, under a key of the table, is its own.
      Neither later keys nor re-encryption change that. */
  ghost predicate StoreNamed(e: Env, d: Store, keys: map<string, Key>) {
    forall p :: p in d ==> MintedFor(e, keys, p, d[p].cipher.plain)
  }

  ghost predicate MintedFor(e: Env, keys: map<string, Key>, p: string, v: string) {
    exists ty, id :: id in keys && p == TokenUnder(e, keys[id].material, ty, v)
  }

  /** A token of the output was minted under a key that resolves. */
  lemma NamedMinted(e: Env, fs: seq<Piece>, keys: map<string, Key>, p: string, v: string)
    requires Sane(e) && Clean(fs) && Named(e, Toks(fs)) && KeysServe(e, keys, Render(fs)) && (p, v) in Toks(fs)
    ensures MintedFor(e, keys, p, v)
  {
    var ty :| p == Pseudonym(e, ty, v);
    var k := LabelKey(e, fs, keys, p, v, ty);
    assert k.id in keys && p == TokenUnder(e, keys[k.id].material, ty, v);
  }

  lemma LabelKey(e: Env, fs: seq<Piece>, keys: map<string, Key>, p: string, v: string, ty: string) returns (k: Key)
    requires Sane(e) && Clean(fs) && KeysServe(e, keys, Render(fs)) && (p, v) in Toks(fs) && p == Pseudonym(e, ty, v)
    ensures LabelIn(p) == UpperCase(ty)
    ensures k == e.key(UpperCase(ty)) && k.id in keys && keys[k.id].material == k.material
    ensures p == TokenUnder(e, k.material, ty, v)
  {
    ToksHas(fs, p, v);
    TokensFound(fs);
    LabelOfToken(e, ty, v, p);
    assert p in TokensOf(Render(fs)) by { assert (p, v) in Toks(fs) && (p, v).0 == p; }
    k := e.key(LabelIn(p));
  }

  lemma KeptStore(e: Env, free: string, out: string, d: Store, d': Store, fs: seq<Piece>, keys: map<string, Key>)
    requires Sane(e) && Kept(e, free, out, d, d', fs) && AllOpen(d, keys) && KeysServe(e, keys, out)
    ensures AllOpen(d', keys) && (StoreNamed(e, d, keys) ==> StoreNamed(e, d', keys))
    ensures forall p :: p in d' && p !in d ==> (p, d'[p].cipher.plain) in Toks(fs)
  {
    forall p | p in d' && p !in d
      ensures d'[p].keyId in keys && keys[d'[p].keyId].material == d'[p].cipher.material
      ensures (p, d'[p].cipher.plain) in Toks(fs) && MintedFor(e, keys, p, d'[p].cipher.plain)
    {
      NewRow(e, d, d', fs, keys, p);
      NamedMinted(e, fs, keys, p, d'[p].cipher.plain);
    }
  }

  /** Every run keeps the store sound: all rows open, each to a value whose token is
      its own. */
  lemma RunKeepsStore(e: Env, f: Finder, text: string, d: Store, keys: map<string, Key>)
    requires InText(f, Body(e, text)) && Good(e, f, text) && AllOpen(d, keys)
    requires Run(e, f, text).Done? ==> KeysServe(e, keys, Run(e, f, text).text)
    ensures AllOpen(RunStore(e, f, text, d), keys)
    ensures StoreNamed(e, d, keys) ==> StoreNamed(e, RunStore(e, f, text, d), keys)
  {
    var fs := RunKeeps(e, f, text, d);
    KeptStore(e, Neutral(text), Run(e, f, text).text, d, RunStore(e, f, text, d), fs, keys);
  }

  ghost predicate TableGrows(keys: map<string, Key>, grown: map<string, Key>) {
    forall id :: id in keys ==> id in grown && grown[id] == keys[id]
  }

  /** And so does every rotation: the table of keys grows, other keys become current, and
      the rows of one key move to another. */
  lemma RotationKeepsStore(e: Env, key: string -> Key, d: Store, keys: map<string, Key>, grown: map<string, Key>,
                           oldKey: Key, newKey: Key, nonce: string -> nat)
    requires AllOpen(d, keys) && StoreNamed(e, d, keys) && TableGrows(keys, grown)
    requires oldKey.id in grown && grown[oldKey.id] == oldKey && newKey.id in grown && grown[newKey.id] == newKey
    ensures AllOpen(Moved(d, oldKey, newKey, nonce), grown)
    ensures StoreNamed(e.(key := key), Moved(d, oldKey, newKey, nonce), grown)
  {
    var d' := Moved(d, oldKey, newKey, nonce);
    forall p | p in d' ensures MintedFor(e.(key := key), grown, p, d'[p].cipher.plain) {
      MintedStays(e, key, keys, grown, p, d[p].cipher.plain);
    }
  }

  lemma MintedStays(e: Env, key: string -> Key, keys: map<string, Key>, grown: map<string, Key>, p: string, v: string)
    requires MintedFor(e, keys, p, v) && TableGrows(keys, grown)
    ensures MintedFor(e.(key := key), grown, p, v)
  {
    var ty, id :| id in keys && p == TokenUnder(e, keys[id].material, ty, v);
    assert id in grown && p == TokenUnder(e.(key := key), grown[id].material, ty, v);
  }

  lemma TokenParts(l: string, h: string, t: string)
    requires t == "[" + l + ":" + h + "]"
    ensures |t| == |l| + |h| + 3 && t[1..|l| + 1] == l && t[|l| + 2..|l| + 2 + |h|] == h
  {}

  lemma MessageParts(ty: string, n: string, m: string)
    requires m == ty + ":" + n
    ensures |ty| < |m| && m[..|ty|] == ty && m[|ty| + 1..] == n
  {}

  /** Two values with one token, each under the key of its day, have the same type label
      and digest; unless the digest collides, they have the same type and normal form. */
  lemma SharedToken(e: Env, m: string, ty: string, v: string, m': string, ty': string, w: string)
    requires Sane(e) && TokenUnder(e, m, ty, v) == TokenUnder(e, m', ty', w)
    ensures UpperCase(ty) == UpperCase(ty')
    ensures var a, b := ty + ":" + e.norm(ty, v), ty' + ":" + e.norm(ty', w);
            e.mac(m, a) == e.mac(m', b) && (a == b ==> ty == ty' && e.norm(ty, v) == e.norm(ty', w))
  {
    var a, b := ty + ":" + e.norm(ty, v), ty' + ":" + e.norm(ty', w);
    TokenParts(UpperCase(ty), e.mac(m, a), TokenUnder(e, m, ty, v));
    TokenParts(UpperCase(ty'), e.mac(m', b), TokenUnder(e, m', ty', w));
    MessageParts(ty, e.norm(ty, v), a);
    MessageParts(ty', e.norm(ty', w), b);
  }

  /** The gate of a reader who may see everything the document registered. */
  function Open(d: Store, keys: map<string, Key>, registered: set<string>): Gate {
    Gate(Some(registered), None, d, keys)
  }

  /** The digest tells the two values apart, under the keys at hand and for types that are
      written with one label. */
  ghost predicate NoCollision(e: Env, keys: map<string, Key>, l: string, v: string, w: string) {
    forall ty, ty', id, id' :: id in keys && id' in keys && UpperCase(ty) == UpperCase(ty') == l ==>
      var a, b := ty + ":" + e.norm(ty, v), ty' + ":" + e.norm(ty', w);
      e.mac(keys[id].material, a) == e.mac(keys[id'].material, b) ==> a == b
  }

  /** Both values have the token `p`, and they are one value up to normalisation, in a type
      the token was written with. */
  ghost predicate SameNormal(e: Env, p: string, v: string, w: string) {
    exists ty :: p == Pseudonym(e, ty, v) && e.norm(ty, v) == e.norm(ty, w)
  }

  /** What `w` shows for the token of `v`: it was minted for `w` too, and unless the digest
      collides the two are one value up to normalisation. */
  ghost predicate Variants(e: Env, keys: map<string, Key>, p: string, v: string, w: string) {
    MintedFor(e, keys, p, w) && (NoCollision(e, keys, LabelIn(p), v, w) ==> SameNormal(e, p, v, w))
  }

  lemma MintedVariants(e: Env, fs: seq<Piece>, keys: map<string, Key>, p: string, v: string, w: string)
    requires Sane(e) && Clean(fs) && Named(e, Toks(fs)) && KeysServe(e, keys, Render(fs)) && (p, v) in Toks(fs)
    requires MintedFor(e, keys, p, w)
    ensures Variants(e, keys, p, v, w)
  {
    if NoCollision(e, keys, LabelIn(p), v, w) {
      var ty :| p == Pseudonym(e, ty, v);
      var k := LabelKey(e, fs, keys, p, v, ty);
      var ty', id :| id in keys && p == TokenUnder(e, keys[id].material, ty', w);
      SharedToken(e, k.material, ty, v, keys[id].material, ty', w);
      assert e.norm(ty, v) == e.norm(ty, w);
    }
  }

  /** Each token is in `registered`. */
  ghost predicate Registered(out: string, registered: set<string>) {
    forall t :: t in TokensOf(out) ==> t in registered
  }

  lemma KeptReveals(e: Env, free: string, out: string, d: Store, d': Store, fs: seq<Piece>, keys: map<string, Key>,
                    registered: set<string>)
    requires Sane(e) && Kept(e, free, out, d, d', fs) && AllOpen(d', keys) && StoreNamed(e, d', keys)
    requires KeysServe(e, keys, out) && Registered(out, registered)
    ensures var g := Open(d', keys, registered);
            && RevealText(g, out) == Render(OpenPieces(g, fs))
            && forall x :: x in Toks(fs) ==> Shows(g, x.0).Some? && Variants(e, keys, x.0, x.1, Shown(g, x.0))
  {
    TokensFound(fs);
    var g := Open(d', keys, registered);
    RevealPieces(g, fs);
    forall x | x in Toks(fs) ensures Shows(g, x.0).Some? && Variants(e, keys, x.0, x.1, Shown(g, x.0)) {
      assert Shown(g, x.0) == d'[x.0].cipher.plain;
      MintedVariants(e, fs, keys, x.0, x.1, Shown(g, x.0));
    }
  }

  /** Round trip: a reveal of the output opens every token, each to a value that was given
      the same token under a key of the table, and changes nothing else. Unless digests
      collide, that is the value that stood there, up to normalisation. */
  lemma RunReveals(e: Env, f: Finder, text: string, d: Store, keys: map<string, Key>, registered: set<string>)
    returns (fs: seq<Piece>)
    requires InText(f, Body(e, text)) && Good(e, f, text) && AllOpen(d, keys) && StoreNamed(e, d, keys)
    requires var r := Run(e, f, text); r.Done? ==> KeysServe(e, keys, r.text) && Registered(r.text, registered)
    ensures Run(e, f, text).Done? && Run(e, f, text).text == Render(fs) && Source(fs) == Neutral(text)
    ensures var g := Open(RunStore(e, f, text, d), keys, registered);
            && RevealText(g, Run(e, f, text).text) == Render(OpenPieces(g, fs))
            && forall x :: x in Toks(fs) ==> Shows(g, x.0).Some? && Variants(e, keys, x.0, x.1, Shown(g, x.0))
  {
    fs := RunKeeps(e, f, text, d);
    var out, d' := Run(e, f, text).text, RunStore(e, f, text, d);
    KeptStore(e, Neutral(text), out, d, d', fs, keys);
    KeptReveals(e, Neutral(text), out, d, d', fs, keys, registered);
  }

  /** No two spellings share a token. */
  ghost predicate OneSpelling(toks: set<(string, string)>) {
    forall x, y :: x in toks && y in toks && x.0 == y.0 ==> x.1 == y.1
  }

  /** The spellings at hand: those of the text, and those the store already holds for its
      tokens. */
  function Spellings(d: Store, toks: set<(string, string)>): set<(string, string)> {
    toks + (set x | x in toks && x.0 in d :: (x.0, d[x.0].cipher.plain))
  }

  /** A registered token with a row that opens shows its value. */
  lemma RowsShown(d: Store, keys: map<string, Key>, registered: set<string>, fs: seq<Piece>)
    requires AllOpen(d, keys) && Clean(fs) && Registered(Render(fs), registered)
    requires forall x :: x in Toks(fs) ==> x.0 in d
    ensures forall x :: x in Toks(fs) ==> Shows(Open(d, keys, registered), x.0) == Some(d[x.0].cipher.plain)
  {
    TokensFound(fs);
  }

  lemma KeptRestores(e: Env, free: string, out: string, d: Store, d': Store, fs: seq<Piece>, keys: map<string, Key>,
                     registered: set<string>)
    requires Sane(e) && Kept(e, free, out, d, d', fs) && AllOpen(d, keys) && KeysServe(e, keys, out)
    requires Registered(out, registered)
    ensures var g := Open(d', keys, registered);
            && (OneSpelling(Spellings(d, Toks(fs))) <==> Exact(g, fs))
            && (OneSpelling(Spellings(d, Toks(fs))) ==> RevealText(g, out) == free)
  {
    KeptStore(e, free, out, d, d', fs, keys);
    var g := Open(d', keys, registered);
    RowsShown(d', keys, registered, fs);
    SpellingIsExact(g, d, fs);
    if OneSpelling(Spellings(d, Toks(fs))) { ExactReveals(g, fs); }
  }

  lemma ExactReveals(g: Gate, fs: seq<Piece>)
    requires Clean(fs) && Exact(g, fs) && forall x :: x in Toks(fs) ==> Shows(g, x.0).Some?
    ensures RevealText(g, Render(fs)) == Source(fs)
  {
    forall k | 0 <= k < |fs| && fs[k].Tok? ensures Shows(g, fs[k].p).Some? {
      ToksHas(fs, fs[k].p, fs[k].v);
      assert (fs[k].p, fs[k].v) in Toks(fs);
    }
    RevealRestores(g, fs);
  }

  /** A run is restored piece by piece exactly when no two spellings share a token,
      counting those the store already holds; then the reveal is the neutralised text. */
  lemma RunRestores(e: Env, f: Finder, text: string, d: Store, keys: map<string, Key>, registered: set<string>)
    returns (fs: seq<Piece>)
    requires InText(f, Body(e, text)) && Good(e, f, text) && AllOpen(d, keys)
    requires var r := Run(e, f, text); r.Done? ==> KeysServe(e, keys, r.text) && Registered(r.text, registered)
    ensures Run(e, f, text).Done? && Run(e, f, text).text == Render(fs) && Source(fs) == Neutral(text)
    ensures var g := Open(RunStore(e, f, text, d), keys, registered);
            && (OneSpelling(Spellings(d, RunToks(e, f, text))) <==> Exact(g, fs))
            && (OneSpelling(Spellings(d, RunToks(e, f, text))) ==> RevealText(g, Run(e, f, text).text) == Neutral(text))
  {
    fs := RunKeeps(e, f, text, d);
    KeptRestores(e, Neutral(text), Run(e, f, text).text, d, RunStore(e, f, text, d), fs, keys, registered);
  }

  lemma SpellingIsExact(g: Gate, d: Store, fs: seq<Piece>)
    requires forall x :: x in Toks(fs) ==> Shows(g, x.0).Some?
    requires forall x :: x in Toks(fs) ==> (x.0, Shown(g, x.0)) in Spellings(d, Toks(fs))
    requires forall x :: x in Toks(fs) && x.0 in d ==> Shown(g, x.0) == d[x.0].cipher.plain
    ensures OneSpelling(Spellings(d, Toks(fs))) <==> Exact(g, fs)
  {
    var all := Spellings(d, Toks(fs));
    if OneSpelling(all) {
      forall k | 0 <= k < |fs| && fs[k].Tok? ensures Shown(g, fs[k].p) == fs[k].v {
        ToksHas(fs, fs[k].p, fs[k].v);
        var x, y := (fs[k].p, fs[k].v), (fs[k].p, Shown(g, fs[k].p));
        assert x in all && y in all && x.0 == y.0;
      }
    }
    if Exact(g, fs) {
      forall x | x in Toks(fs) ensures Shown(g, x.0) == x.1 {
        ToksHas(fs, x.0, x.1);
        var k :| 0 <= k < |fs| && fs[k] == Tok(x.0, x.1);
      }
    }
  }

  /** Reveals of such a run compose: types `a`, then types `b`, is both at once. */
  lemma RunRevealsCompose(e: Env, f: Finder, text: string, d: Store, keys: map<string, Key>, registered: set<string>,
                          a: set<string>, b: set<string>)
    returns (fs: seq<Piece>)
    requires InText(f, Body(e, text)) && Good(e, f, text) && AllOpen(d, keys)
    requires var r := Run(e, f, text); r.Done? ==> KeysServe(e, keys, r.text) && Registered(r.text, registered)
    ensures Run(e, f, text).Done? && Run(e, f, text).text == Render(fs)
    ensures var g, out := Open(RunStore(e, f, text, d), keys, registered), Run(e, f, text).text;
            OneSpelling(Spellings(d, RunToks(e, f, text))) ==>
              RevealText(ForTypes(g, b), RevealText(ForTypes(g, a), out)) == RevealText(ForTypes(g, a + b), out)
  {
    fs := RunKeeps(e, f, text, d);
    var out, d' := Run(e, f, text).text, RunStore(e, f, text, d);
    KeptRestores(e, Neutral(text), out, d, d', fs, keys, registered);
    if OneSpelling(Spellings(d, Toks(fs))) {
      ExactForTypes(Open(d', keys, registered), a, fs);
      RevealsCompose(Open(d', keys, registered), a, b, fs);
    }
  }

  lemma ExactForTypes(g: Gate, types: set<string>, ps: seq<Piece>)
    requires g.allowed.None? && Exact(g, ps)
    ensures Exact(ForTypes(g, types), ps)
  {}

  // ----- the scan is complete -----

  /** The cut that covers position `j`, and where it starts. */
  function CutOver(i: nat, cuts: seq<Cut>, j: nat): Option<(nat, Cut)>
    decreases |cuts|
  {
    if cuts == [] || j < i then None
    else if j < i + cuts[0].n then Some((i, cuts[0]))
    else CutOver(i + cuts[0].n, cuts[1..], j)
  }

  predicate Replaced(i: nat, cuts: seq<Cut>, j: nat) {
    var c := CutOver(i, cuts, j); c.Some? && c.value.1.Swap?
  }

  lemma CutOverStep(i: nat, c: Cut, cuts: seq<Cut>, rest: seq<Cut>, j: nat)
    requires cuts == [c] + rest && i <= j
    ensures CutOver(i, cuts, j) == if j < i + c.n then Some((i, c)) else CutOver(i + c.n, rest, j)
  {
    assert cuts[1..] == rest;
  }

  /** Every position is covered by one of the cuts the pass makes. */
  lemma {:induction false} PassCovers(r: Rule, s: string, i: nat, j: nat) returns (m: nat)
    requires i <= j < |s|
    ensures i <= m <= j < m + CutAt(r, s, m).n && CutOver(i, Pass(r, s, i), j) == Some((m, CutAt(r, s, m)))
    decreases |s| - i
  {
    PassOver(r, s, i, j);
    m := i;
    if i + CutAt(r, s, i).n <= j { m := PassCovers(r, s, i + CutAt(r, s, i).n, j); }
  }

  lemma PassOver(r: Rule, s: string, i: nat, j: nat)
    requires i <= j && i < |s|
    ensures var c := CutAt(r, s, i);
            CutOver(i, Pass(r, s, i), j)
            == if j < i + c.n then Some((i, c)) else CutOver(i + c.n, Pass(r, s, i + c.n), j)
  {
    PassStep(r, s, i);
    CutOverStep(i, CutAt(r, s, i), Pass(r, s, i), Pass(r, s, i + CutAt(r, s, i).n), j);
  }

  /** Of a value that stands there as a whole word, the first character is always in reach
      of a match. */
  lemma CutTaken(e: Env, r: Rule, s: string, m: nat, v: string, j: nat)
    requires Lookarounds(e, r) && r.fits(v) && v != "" && Whole(e, s, v, j)
    requires m < |s| && m <= j < m + CutAt(r, s, m).n
    ensures CutAt(r, s, m).Swap? <==> !InToken(s, m)
  {
    Matched(r, s, m);
    if m == j { assert Hit(r, s, m, |v|); }
  }

  /** Whatever the text and the values: a whole-word occurrence of a value stays exactly
      when the match that covers it starts inside a token. */
  lemma KeptExactly(e: Env, r: Rule, s: string, v: string, j: nat) returns (m: nat)
    requires Lookarounds(e, r) && r.fits(v) && v != "" && Whole(e, s, v, j)
    ensures m <= j < |s| && j < m + CutAt(r, s, m).n && CutOver(0, Pass(r, s, 0), j) == Some((m, CutAt(r, s, m)))
    ensures Replaced(0, Pass(r, s, 0), j) <==> !InToken(s, m)
  {
    m := PassCovers(r, s, 0, j);
    CutTaken(e, r, s, m, v, j);
  }

  /** Inside a token a match without brackets stays inside it. */
  lemma TokenHolds(s: string, i: nat, n: nat, j: nat)
    requires i <= j < i + n <= |s| && InToken(s, i) && NoBracket(s, i, n)
    ensures InToken(s, j)
  {
    var b: nat :| b <= i < |s| && i < b + AtomLen(TokenShape, s[b..]);
    var m := AtomLen(TokenShape, s[b..]);
    var t := s[b..][..m];
    AtomEnclosed(TokenShape, t);
    assert s[b + m - 1] == t[m - 1] == ']';
  }

  lemma CutHolds(r: Rule, s: string, m: nat, j: nat)
    requires Bare(r) && m < |s| && m <= j < m + CutAt(r, s, m).n && InToken(s, m)
    ensures InToken(s, j)
  {
    Matched(r, s, m);
    if m < j {
      HitFacts(r, s, m, MatchLen(r, s, m));
      TokenHolds(s, m, MatchLen(r, s, m), j);
    }
  }

  /** So of values without brackets none stays, unless it starts in a token. */
  lemma NoneKept(e: Env, r: Rule, s: string, v: string, j: nat)
    requires WordRule(e, r) && r.fits(v) && Whole(e, s, v, j) && !InToken(s, j)
    ensures Replaced(0, Pass(r, s, 0), j)
  {
    var m := KeptExactly(e, r, s, v, j);
    if InToken(s, m) { CutHolds(r, s, m, j); }
  }

  // ----- the conditions can be met -----

  /** Plain ASCII, with one digest for everything: nothing above rests on different
      values having different tokens. */
  function Ascii(): (e: Env)
    ensures Sane(e)
  {
    Env(c => AsciiLetter(c) || AsciiDigit(c) || c == '_', c => AsciiDigit(c), c => AsciiSpace(c),
        c => if AsciiDigit(c) then c as nat - '0' as nat else 0,
        (m, x) => ['0', '0', '0', '0', '0', '0', '0', '0'], (ty, v) => v, l => Key(l, l), p => 0)
  }

  predicate Letters(v: string) { forall k :: 0 <= k < |v| ==> AsciiLetter(v[k]) && v[k] != 'x' }

  lemma LettersUsable(e: Env, v: string)
    requires Sane(e) && |v| >= MIN_ENTITY_LEN && Letters(v)
    ensures NoBracket(v, 0, |v|) && OffMarks(v) && e.word(v[0]) && e.word(v[|v| - 1]) && MaskOf(e, v) == "xx"
    ensures Immune({"xx"}, v)
  {
    forall k | 0 <= k < |v| - 1 ensures [v[k], v[k + 1]] != "xx" { assert [v[k], v[k + 1]][0] == v[k] != 'x'; }
  }

  ghost predicate LetterValues(labels: map<string, string>) {
    forall v :: v in labels ==> |v| >= MIN_ENTITY_LEN && Letters(v) && LabelOk(labels[v])
  }

  lemma LettersFaithful(e: Env, labels: map<string, string>, s: string, free: string)
    requires Sane(e) && LetterValues(labels)
    ensures Faithful(e, labels, s, [], free)
  {
    LettersAll(e, labels);
    WordEdged(e, NamesRule(e, labels), TokensIn(s));
    assert CutNoToken(s, []);
  }

  lemma LettersAll(e: Env, labels: map<string, string>)
    requires Sane(e) && LetterValues(labels)
    ensures Usable(e, labels) && forall v :: v in labels ==> v != "" && e.word(v[0]) && e.word(v[|v| - 1])
  {
    forall v | v in labels
      ensures NoBracket(v, 0, |v|) && OffMarks(v) && e.word(v[0]) && e.word(v[|v| - 1]) && MaskOf(e, v) == "xx"
      ensures Immune({"xx"}, v) {
      LettersUsable(e, v);
    }
    assert Shapes(e, labels.Keys) == {"xx"};
  }

  lemma WordEdged(e: Env, r: Rule, olds: iset<string>)
    requires Sane(e) && forall v :: r.fits(v) ==> v != "" && e.word(v[0]) && e.word(v[|v| - 1])
    ensures NoneMisread(e, r, olds)
  {
    forall v, a, b | r.fits(v) ensures !Reads(e, r, olds, v, a, b) { WordEdges(e, r, olds, v, a, b); }
  }

  lemma WordEdges(e: Env, r: Rule, olds: iset<string>, v: string, a: Side, b: Side)
    requires Sane(e) && forall v :: r.fits(v) ==> v != "" && e.word(v[0]) && e.word(v[|v| - 1])
    ensures !Reads(e, r, olds, v, a, b)
  {
    if a == Clear && b == Clear {
      ClearSides(e, r, olds, v);
    } else if !a.Clear? {
      assert r.fits(a.w) ==> a.w != "" && MaskOf(e, a.w) == "xx";
    } else {
      assert r.fits(b.w) ==> b.w != "" && MaskOf(e, b.w) == "xx";
    }
  }

  /** Every run without allowed addresses, whose detector reports values of letters other
      than `x` under label words, is within the conditions, whatever the text. */
  lemma LettersAreGood(e: Env, f: Finder, text: string)
    requires Sane(e) && InText(f, Body(e, text)) && f.addresses(Body(e, text)) == []
    requires f.entities(Body(e, text)).Some? && LetterValues(Labels(e, f, Body(e, text)))
    ensures Good(e, f, text)
  {
    var s := Body(e, text);
    assert Protected(f, s) == [] by { assert HostsOf(s, []) == []; }
    LettersFaithful(e, Labels(e, f, s), s, Neutral(text));
  }

  /** The keys of the labels in a text. */
  function AsciiKeys(out: string): map<string, Key> {
    map l | l in (set t | t in TokensOf(out) :: LabelIn(t)) :: Key(l, l)
  }

  lemma AsciiServes(e: Env, out: string)
    requires e == Ascii()
    ensures KeysServe(e, AsciiKeys(out), out)
  {}

  /** From an empty store: restored exactly when no two spellings of the text share a
      token. */
  lemma FirstRunRestores(e: Env, f: Finder, text: string, keys: map<string, Key>, registered: set<string>)
    returns (fs: seq<Piece>)
    requires InText(f, Body(e, text)) && Good(e, f, text)
    requires var r := Run(e, f, text); r.Done? ==> KeysServe(e, keys, r.text) && Registered(r.text, registered)
    ensures Run(e, f, text).Done? && Run(e, f, text).text == Render(fs) && Source(fs) == Neutral(text)
    ensures var g := Open(RunStore(e, f, text, map[]), keys, registered);
            && (OneSpelling(RunToks(e, f, text)) <==> Exact(g, fs))
            && (OneSpelling(RunToks(e, f, text)) ==> RevealText(g, Run(e, f, text).text) == Neutral(text))
  {
    fs := RunRestores(e, f, text, map[], keys, registered);
    assert Spellings(map[], RunToks(e, f, text)) == RunToks(e, f, text);
  }

  /** So the round trip has something to say about each run of `LettersAreGood`, with a
      finite table of keys. */
  lemma LettersRestore(e: Env, f: Finder, text: string) returns (fs: seq<Piece>, keys: map<string, Key>)
    requires e == Ascii() && Sane(e) && InText(f, Body(e, text)) && f.addresses(Body(e, text)) == []
    requires f.entities(Body(e, text)).Some? && LetterValues(Labels(e, f, Body(e, text)))
    ensures Run(e, f, text).Done? && Run(e, f, text).text == Render(fs) && Source(fs) == Neutral(text)
    ensures var g := Open(RunStore(e, f, text, map[]), keys, set t | t in TokensOf(Render(fs)));
            OneSpelling(RunToks(e, f, text)) ==> RevealText(g, Run(e, f, text).text) == Neutral(text)
  {
    LettersAreGood(e, f, text);
    fs := RunKeeps(e, f, text, map[]);
    keys := AsciiKeys(Render(fs));
    AsciiServes(e, Render(fs));
    fs := FirstRunRestores(e, f, text, keys, set t | t in TokensOf(Render(fs)));
  }
}
