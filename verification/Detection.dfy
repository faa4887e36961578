/** The four deterministic detectors cannot match inside a token that one of them
    placed: nine digits do not fit an eight-digit hash, an IBAN needs fourteen
    characters in a row, an address needs an `@`, and a postcode needs digits and
    capitals side by side. */
module Detection {
  import opened Lexer
  import opened Pieces
  import opened Cuts
  import opened Matching
  import opened Rules

  /** A token a detector placed. */
  predicate IsDetToken(t: string) {
    IsToken(t) && exists d :: t[1..|t| - 2 - HASH_LEN] == DetUpper(d)
  }

  ghost predicate DetTokensOnly(ps: seq<Piece>) {
    forall k :: 0 <= k < |ps| && ps[k].Tok? ==> IsDetToken(ps[k].p)
  }

  predicate NoMark(v: string) {
    forall k :: 0 <= k < |v| ==> v[k] != '[' && v[k] != ']' && v[k] != ':'
  }

  lemma FitsNoMark(e: Env, d: Detector, v: string)
    requires Sane(e) && DetFits(e, d, v)
    ensures NoMark(v)
  {
    assert !e.digit('[') && !e.digit(']') && !e.digit(':') && !e.space('[') && !e.space(']') && !e.space(':');
  }

  lemma DetBare(e: Env, d: Detector)
    requires Sane(e)
    ensures Bare(DetRule(e, d))
  {
    forall v | DetFits(e, d, v) ensures NoBracket(v, 0, |v|) { FitsNoMark(e, d, v); }
  }

  predicate LabelStretch(v: string) { |v| <= HASH_LEN && forall k :: 0 <= k < |v| ==> Upper(v[k]) }
  predicate HashStretch(v: string) { |v| <= HASH_LEN && AllHex(v) }

  /** A detector's value is no stretch of a label, nor of a hash. */
  lemma FitsNoStretch(e: Env, d: Detector, v: string)
    requires Sane(e) && DetFits(e, d, v)
    ensures !LabelStretch(v) && !HashStretch(v)
  {
    match d
    case Bsn =>
    case Iban =>
    case Email =>
      var a, p :| 0 < a < |v| && a + 1 < p < |v| - 2 && v[a] == '@' && v[p] == '.';
      assert !Upper(v[a]) && !HexChar(v[a]);
    case Postcode =>
      assert !Upper(v[0]) && !HexChar(v[|v| - 1]);
  }

  /** What stands inside a detector's token without brackets and colon is a
      stretch of its label or of its hash. */
  lemma InnerStretch(t: string, o: nat, v: string)
    requires IsDetToken(t) && v != "" && NoMark(v)
    requires o < |t| && forall k :: 0 <= k < |v| && o + k < |t| ==> v[k] == t[o + k]
    ensures LabelStretch(v) || HashStretch(v)
  {
    var c := |t| - 2 - HASH_LEN;
    var d :| t[1..c] == DetUpper(d);
    assert v[0] == t[o];
    assert 0 < o < |t| - 1 && o != c;
    forall j | o <= j < o + |v| && j < |t| ensures t[j] != ':' && t[j] != ']' { assert v[j - o] == t[j]; }
    if o < c {
      assert t[c] == ':' && o + |v| <= c;
      forall k | 0 <= k < |v| ensures Upper(v[k]) { assert v[k] == t[o + k] == DetUpper(d)[o + k - 1]; }
    } else {
      assert t[|t| - 1] == ']' && o + |v| < |t|;
      forall k | 0 <= k < |v| ensures HexChar(v[k]) {
        assert v[k] == t[o + k] == t[|t| - 1 - HASH_LEN..|t| - 1][o + k - (|t| - 1 - HASH_LEN)];
      }
    }
  }

  /** The token of `ps` around a position inside one. */
  lemma TokenAround(ps: seq<Piece>, i: nat) returns (b: nat, t: string)
    requires Clean(ps) && DetTokensOnly(ps) && InToken(Render(ps), i)
    ensures b <= i < b + |t| <= |Render(ps)| && Render(ps)[b..b + |t|] == t && IsDetToken(t)
  {
    var s := Render(ps);
    b :| b <= i < |s| && i < b + AtomLen(TokenShape, s[b..]);
    var k := TokenStarts(ps, b);
    t := ps[k].p;
    TokInToken(ps, k, 0);
    SliceOf(s, b, t, Render(ps[k + 1..]));
  }

  lemma Stretch(s: string, b: nat, t: string, o: nat, v: string)
    requires b + |t| <= |s| && s[b..b + |t|] == t && b + o + |v| <= |s| && s[b + o..b + o + |v|] == v
    ensures forall k :: 0 <= k < |v| && o + k < |t| ==> v[k] == t[o + k]
  {
    forall k | 0 <= k < |v| && o + k < |t| ensures v[k] == t[o + k] {
      assert t[o + k] == s[b..b + |t|][o + k] == s[b + o + k];
    }
  }

  lemma NotInToken(e: Env, d: Detector, ps: seq<Piece>, i: nat, n: nat)
    requires Sane(e) && Clean(ps) && DetTokensOnly(ps)
    requires 0 < n && i + n <= |Render(ps)| && InToken(Render(ps), i)
    ensures !DetFits(e, d, Render(ps)[i..i + n])
  {
    var s := Render(ps);
    var b, t := TokenAround(ps, i);
    var v := s[i..i + n];
    Stretch(s, b, t, i - b, v);
    StretchDoesNotFit(e, d, t, i - b, v);
  }

  lemma DetHit(e: Env, d: Detector, s: string, i: nat, n: nat)
    ensures Hit(DetRule(e, d), s, i, n) ==> 0 < n && i + n <= |s| && DetFits(e, d, s[i..i + n])
  {}

  lemma DetSpares(e: Env, d: Detector, ps: seq<Piece>)
    requires Sane(e) && Clean(ps) && DetTokensOnly(ps)
    ensures Spares(DetRule(e, d), Render(ps))
  {
    var r, s := DetRule(e, d), Render(ps);
    forall i: nat, n: nat | InToken(s, i) ensures !Hit(r, s, i, n) {
      DetHit(e, d, s, i, n);
      if 0 < n && i + n <= |s| { NotInToken(e, d, ps, i, n); }
    }
  }

  lemma StretchDoesNotFit(e: Env, d: Detector, t: string, o: nat, v: string)
    requires Sane(e) && IsDetToken(t) && v != ""
    requires o < |t| && forall k :: 0 <= k < |v| && o + k < |t| ==> v[k] == t[o + k]
    ensures !DetFits(e, d, v)
  {
    if NoMark(v) { InnerStretch(t, o, v); }
    if DetFits(e, d, v) {
      FitsNoMark(e, d, v);
      FitsNoStretch(e, d, v);
    }
  }

  /** What a detector places is a detector's token. */
  lemma MintedIsDet(e: Env, d: Detector)
    requires Sane(e)
    ensures forall t :: t in Minted(DetRule(e, d)) ==> IsDetToken(t.0)
  {
    forall v: string ensures IsDetToken(Pseudonym(e, DetLabel(d), v)) { MintedOne(e, d, v); }
  }

  lemma MintedOne(e: Env, d: Detector, v: string)
    requires Sane(e)
    ensures IsDetToken(Pseudonym(e, DetLabel(d), v))
  {
    DetLabelOk(d);
    PseudonymIsToken(e, DetLabel(d), v);
    PseudonymLabel(e, DetLabel(d), v);
  }

  // ----- the deterministic layer -----

  const DETECTORS: seq<Detector> := [Bsn, Iban, Email, Postcode]

  /** `re.sub` over the text once per detector, in the fixed order. */
  function Layer(e: Env, ds: seq<Detector>, s: string): string {
    if ds == [] then s else Layer(e, ds[1..], PassText(DetRule(e, ds[0]), s))
  }

  /** All replacements of the layer, in order. */
  function LayerSwaps(e: Env, ds: seq<Detector>, s: string): seq<(string, string)> {
    if ds == [] then []
    else PassSwaps(DetRule(e, ds[0]), s) + LayerSwaps(e, ds[1..], PassText(DetRule(e, ds[0]), s))
  }

  ghost function DetMinted(e: Env): iset<(string, string)> {
    iset d: Detector, v: string | DetFits(e, d, v) :: (Pseudonym(e, DetLabel(d), v), v)
  }

  /** All passes of the layer together: clean text over the same source, in which
      every token of an earlier pass still stands. */
  lemma {:induction false} LayerKeeps(e: Env, ds: seq<Detector>, ps: seq<Piece>) returns (qs: seq<Piece>)
    requires Sane(e) && Clean(ps) && DetTokensOnly(ps)
    ensures Render(qs) == Layer(e, ds, Render(ps))
    ensures Clean(qs) && Coarsens(qs, ps) && DetTokensOnly(qs) && Known(qs, ps, DetMinted(e))
    ensures Toks(qs) == Toks(ps) + Pairs(LayerSwaps(e, ds, Render(ps)))
  {
    if ds == [] {
      qs := ps;
      CoarsensRefl(ps);
      assert Pairs([]) == {};
    } else {
      var d := ds[0];
      DetBare(e, d);
      DetRuleNames(e, d);
      DetSpares(e, d, ps);
      var rs := RulePass(DetRule(e, d), ps);
      MintedIsDet(e, d);
      qs := LayerKeeps(e, ds[1..], rs);
      PairsConcat(PassSwaps(DetRule(e, d), Render(ps)), LayerSwaps(e, ds[1..], Render(rs)));
      CoarsensTrans(qs, rs, ps);
    }
  }
}
