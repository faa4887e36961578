/** What a detector's pass finds: each number, address or postcode that stands as a word, replaced
    exactly when the detector takes it. */
module Detecting {
  import opened Lexer
  import opened Pieces
  import opened Cuts
  import opened Mappings
  import opened Matching
  import opened Rules
  import opened Detection
  import opened Numbers
  import opened RoundTrip

  /** `v` stands at `j`, with an edge of a word on either side. */
  predicate Edged(e: Env, s: string, j: nat, v: string) {
    && v != "" && j + |v| <= |s| && s[j..j + |v|] == v
    && WordAt(e, s, j - 1) != WordAt(e, s, j) && WordAt(e, s, j + |v| - 1) != WordAt(e, s, j + |v|)
  }

  /** Digits are word characters. */
  ghost predicate WordDigits(e: Env) { forall c: char :: e.digit(c) ==> e.word(c) }

  /** The detector takes the value: a BSN by the eleven-test, an IBAN by the remainder of 97, an
      address always, and a postcode unless a PO box stands in the forty characters before it. */
  ghost predicate Takes(e: Env, d: Detector, s: string, j: nat, v: string)
    requires j <= |s|
  {
    match d
    case Bsn => |v| == 9 && (exists k :: 0 <= k < 9 && e.value(v[k]) != 0) && Weighted(e, v) % 11 == 0
    case Iban => |v| >= 4 && Decimal(Expanded(e, v[4..] + v[..4])) % 97 == 1
    case Email => true
    case Postcode => !HasPoBox(e, s[if j < 40 then 0 else j - 40..j])
  }

  ghost predicate HasPoBox(e: Env, w: string) { exists i: nat, a: nat, b: nat :: PoBox(e, w, i, a, b) }

  lemma TakesIs(e: Env, d: Detector, s: string, j: nat, n: nat)
    requires DigitsApart(e) && j + n <= |s| && DetFits(e, d, s[j..j + n])
    ensures DetTakes(e, d, s, j, n) <==> Takes(e, d, s, j, s[j..j + n])
  {
    match d
    case Bsn => BsnExactly(e, s[j..j + n]);
    case Iban => IbanExactly(e, s[j..j + n]);
    case Email =>
    case Postcode => PoBoxes(e, s[if j < 40 then 0 else j - 40..j]);
  }

  lemma PoBoxes(e: Env, w: string)
    requires DigitsApart(e)
    ensures PostbusIn(e, w) <==> HasPoBox(e, w)
  {
    if i: nat :| i < |w| && PostbusAt(e, w, i) {
      PoBoxExactly(e, w, i);
      var a: nat, b: nat :| PoBox(e, w, i, a, b);
    }
    if i: nat, a: nat, b: nat :| PoBox(e, w, i, a, b) { PoBoxExactly(e, w, i); }
  }

  lemma HitOf(e: Env, d: Detector, s: string, j: nat, n: nat)
    ensures Hit(DetRule(e, d), s, j, n) <==>
              0 < n && j + n <= |s| && DetFits(e, d, s[j..j + n])
              && WordAt(e, s, j - 1) != WordAt(e, s, j) && WordAt(e, s, j + n - 1) != WordAt(e, s, j + n)
  {}

  /** No edge lies inside what the first two detectors match. */
  lemma NoEdge(e: Env, d: Detector, s: string, m: nat, n: nat, k: nat)
    requires Sane(e) && WordDigits(e) && d in {Bsn, Iban} && m + n <= |s| && DetFits(e, d, s[m..m + n]) && m < k < m + n
    ensures WordAt(e, s, k - 1) && WordAt(e, s, k)
  {
    var v := s[m..m + n];
    assert v[k - m] == s[k] && v[k - 1 - m] == s[k - 1];
  }

  lemma PostcodeInside(e: Env, s: string, m: nat, n: nat, k: nat)
    requires Sane(e) && m + n <= |s| && PostcodeShape(e, s[m..m + n]) && m < k < m + n
    ensures (WordAt(e, s, k - 1) && WordAt(e, s, k)) || !('1' <= s[k] <= '9')
  {
    var v := s[m..m + n];
    assert v[k - m] == s[k] && v[k - 1 - m] == s[k - 1];
  }

  /** A match cannot start inside another of the same detector, addresses aside. */
  lemma NoneInside(e: Env, d: Detector, s: string, m: nat, n: nat, j: nat, n': nat)
    requires Sane(e) && WordDigits(e) && d != Email
    requires Hit(DetRule(e, d), s, m, n) && Hit(DetRule(e, d), s, j, n') && m <= j < m + n
    ensures m == j
  {
    HitOf(e, d, s, m, n);
    HitOf(e, d, s, j, n');
    if m < j {
      if d == Postcode {
        assert s[j..j + n'][0] == s[j];
        PostcodeInside(e, s, m, n, j);
      } else {
        NoEdge(e, d, s, m, n, j);
      }
    }
  }

  /** And only one length matches. */
  lemma OneLength(e: Env, d: Detector, s: string, j: nat, n: nat, n': nat)
    requires Sane(e) && WordDigits(e) && d != Email
    requires Hit(DetRule(e, d), s, j, n) && Hit(DetRule(e, d), s, j, n') && n <= n'
    ensures n == n'
  {
    HitOf(e, d, s, j, n);
    HitOf(e, d, s, j, n');
    if d == Postcode {
      PostcodeLength(e, s, j, n);
      PostcodeLength(e, s, j, n');
    } else if n < n' {
      NoEdge(e, d, s, j, n', j + n);
    }
  }

  lemma PostcodeLength(e: Env, s: string, j: nat, n: nat)
    requires Sane(e) && j + n <= |s| && PostcodeShape(e, s[j..j + n])
    ensures n == if e.space(s[j + 4]) then 7 else 6
  {
    assert s[j..j + n][4] == s[j + 4];
  }

  lemma CutOfMatch(r: Rule, s: string, m: nat, j: nat)
    requires m < |s| && m <= j < m + CutAt(r, s, m).n && (m < j || MatchLen(r, s, m) > 0)
    ensures var n := MatchLen(r, s, m);
            n == CutAt(r, s, m).n && Hit(r, s, m, n) && (CutAt(r, s, m).Swap? <==> r.takes(s, m, n))
  {
    Matched(r, s, m);
  }

  /** The cut at a match. */
  function Cutting(e: Env, d: Detector, v: string, taken: bool): Cut {
    if taken then Swap(|v|, Pseudonym(e, DetLabel(d), v)) else Keep(|v|)
  }

  lemma CutOfDetector(e: Env, d: Detector, s: string, j: nat, v: string)
    requires j + |v| <= |s| && v == s[j..j + |v|] && v != "" && MatchLen(DetRule(e, d), s, j) == |v|
    ensures CutAt(DetRule(e, d), s, j) == Cutting(e, d, v, DetTakes(e, d, s, j, |v|))
  {}

  /** An address is always replaced, at the latest by an earlier match that covers it. */
  lemma AddressReplaced(e: Env, s: string, j: nat, n: nat)
    requires Hit(DetRule(e, Email), s, j, n)
    ensures Replaced(0, Pass(DetRule(e, Email), s, 0), j)
  {
    var r := DetRule(e, Email);
    var m := PassCovers(r, s, 0, j);
    Matched(r, s, j);
    CutOfMatch(r, s, m, j);
  }

  /** Of the other detectors each match is met where it starts. */
  lemma MetAtStart(e: Env, d: Detector, s: string, j: nat, n: nat)
    requires Sane(e) && WordDigits(e) && d != Email && Hit(DetRule(e, d), s, j, n)
    ensures j < |s| && MatchLen(DetRule(e, d), s, j) == n
    ensures CutOver(0, Pass(DetRule(e, d), s, 0), j) == Some((j, CutAt(DetRule(e, d), s, j)))
  {
    var r := DetRule(e, d);
    var m := PassCovers(r, s, 0, j);
    Matched(r, s, j);
    CutOfMatch(r, s, m, j);
    NoneInside(e, d, s, m, CutAt(r, s, m).n, j, n);
    OneLength(e, d, s, j, n, MatchLen(r, s, j));
  }

  lemma ReplacedBy(cuts: seq<Cut>, j: nat, m: nat, c: Cut)
    requires CutOver(0, cuts, j) == Some((m, c))
    ensures Replaced(0, cuts, j) <==> c.Swap?
  {}

  /** What the pass makes of a match of a detector other than that of addresses. */
  lemma CutDetected(e: Env, d: Detector, s: string, j: nat, v: string)
    requires Sane(e) && WordDigits(e) && d != Email && v != "" && j + |v| <= |s| && v == s[j..j + |v|]
    requires Hit(DetRule(e, d), s, j, |v|)
    ensures CutOver(0, Pass(DetRule(e, d), s, 0), j) == Some((j, Cutting(e, d, v, DetTakes(e, d, s, j, |v|))))
  {
    MetAtStart(e, d, s, j, |v|);
    CutOfDetector(e, d, s, j, v);
  }

  /** Whatever the text: what fits a detector and stands as a word is replaced by the pass of that
      detector exactly when it is taken; but for addresses, which an earlier one may cover, by the
      token of that very value. */
  lemma DetectedExactly(e: Env, d: Detector, s: string, j: nat, v: string)
    requires Sane(e) && WordDigits(e) && DigitsApart(e) && DetFits(e, d, v) && Edged(e, s, j, v)
    ensures Replaced(0, Pass(DetRule(e, d), s, 0), j) <==> Takes(e, d, s, j, v)
    ensures d != Email && Takes(e, d, s, j, v) ==>
              CutOver(0, Pass(DetRule(e, d), s, 0), j) == Some((j, Swap(|v|, Pseudonym(e, DetLabel(d), v))))
  {
    HitOf(e, d, s, j, |v|);
    if d == Email {
      AddressReplaced(e, s, j, |v|);
    } else {
      TakesIs(e, d, s, j, |v|);
      CutDetected(e, d, s, j, v);
      ReplacedBy(Pass(DetRule(e, d), s, 0), j, j, Cutting(e, d, v, Takes(e, d, s, j, v)));
    }
  }

  /** The layer is all four passes, each over what the one before it left. */
  lemma FourPasses(e: Env, s: string) returns (a: string, b: string, c: string)
    ensures a == PassText(DetRule(e, Bsn), s) && b == PassText(DetRule(e, Iban), a)
    ensures c == PassText(DetRule(e, Email), b) && Layer(e, DETECTORS, s) == PassText(DetRule(e, Postcode), c)
  {
    a := PassText(DetRule(e, Bsn), s);
    b := PassText(DetRule(e, Iban), a);
    c := PassText(DetRule(e, Email), b);
    LayerStep(e, Bsn, [Iban, Email, Postcode], s);
    LayerStep(e, Iban, [Email, Postcode], a);
    LayerStep(e, Email, [Postcode], b);
    LayerStep(e, Postcode, [], c);
  }

  lemma LayerStep(e: Env, d: Detector, ds: seq<Detector>, s: string)
    ensures Layer(e, [d] + ds, s) == Layer(e, ds, PassText(DetRule(e, d), s))
  {
    assert ([d] + ds)[1..] == ds;
  }
}
