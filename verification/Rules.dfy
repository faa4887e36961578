/** The two kinds of rule: the four deterministic detectors, and the literal values
    an entity detector reported. */
module Rules {
  import opened Lexer
  import opened Pieces
  import opened Mappings
  import opened Matching

  /** What the passes take from outside: the Unicode classes behind `\w`, `\d`
      and `\s`, the value of a digit, the keyed digest, the normalisation
      profile, the current key of each type's scope, and the nonce drawn for a
      row. */
  datatype Env = Env(word: char -> bool, digit: char -> bool, space: char -> bool, value: char -> nat,
                     mac: (string, string) -> string, norm: (string, string) -> string, key: string -> Key,
                     nonce: string -> nat)

  predicate AsciiSpace(c: char) { c == ' ' || 9 <= c as int <= 13 || 28 <= c as int <= 31 }

  /** On ASCII the classes are the familiar ones; beyond it nothing is assumed.
      The digest is eight lowercase hexadecimal digits. */
  ghost predicate Sane(e: Env) {
    && (forall c: char :: c as int < 128 ==>
          && (e.word(c) <==> AsciiLetter(c) || AsciiDigit(c) || c == '_')
          && (e.digit(c) <==> AsciiDigit(c))
          && (e.space(c) <==> AsciiSpace(c)))
    && (forall m, x :: |e.mac(m, x)| == HASH_LEN && AllHex(e.mac(m, x)))
  }

  // ----- pseudonyms -----

  function UpperChar(c: char): char {
    if 'a' <= c <= 'z' then (c as int - 32) as char else c
  }

  function UpperCase(s: string): (u: string)
    ensures |u| == |s|
  {
    if s == "" then "" else [UpperChar(s[0])] + UpperCase(s[1..])
  }

  predicate LabelOk(ty: string) { ty != "" && AllLabel(UpperCase(ty)) }

  /** `[LABEL:hash8]` for one value of one type, under the key that was current then. */
  function TokenUnder(e: Env, material: string, ty: string, v: string): string {
    "[" + UpperCase(ty) + ":" + e.mac(material, ty + ":" + e.norm(ty, v)) + "]"
  }

  function Pseudonym(e: Env, ty: string, v: string): string { TokenUnder(e, e.key(UpperCase(ty)).material, ty, v) }

  lemma PseudonymIsToken(e: Env, ty: string, v: string)
    requires Sane(e) && LabelOk(ty)
    ensures IsToken(Pseudonym(e, ty, v))
  {
    var l := UpperCase(ty);
    var h := e.mac(e.key(l).material, ty + ":" + e.norm(ty, v));
    var t := Pseudonym(e, ty, v);
    assert t[1..|t| - 2 - HASH_LEN] == l;
    assert t[|t| - 1 - HASH_LEN..|t| - 1] == h;
  }

  lemma PseudonymLabel(e: Env, ty: string, v: string)
    requires Sane(e)
    ensures var t := Pseudonym(e, ty, v);
            |t| >= HASH_LEN + 3 && t[1..|t| - 2 - HASH_LEN] == UpperCase(ty)
  {}

  // ----- detectors -----

  datatype Detector = Bsn | Iban | Email | Postcode

  function DetLabel(d: Detector): string {
    match d case Bsn => "bsn" case Iban => "iban" case Email => "email" case Postcode => "postcode"
  }

  predicate LocalChar(c: char) { AsciiLetter(c) || AsciiDigit(c) || c in "._%+-" }
  predicate DomainChar(c: char) { AsciiLetter(c) || AsciiDigit(c) || c in ".-" }

  predicate EmailShape(v: string) {
    exists a, p ::
      && 0 < a < |v| && a + 1 < p < |v| - 2
      && v[a] == '@' && v[p] == '.'
      && (forall k :: 0 <= k < a ==> LocalChar(v[k]))
      && (forall k :: a < k < p ==> DomainChar(v[k]))
      && (forall k :: p < k < |v| ==> AsciiLetter(v[k]))
  }

  predicate PostcodeShape(e: Env, v: string) {
    && (|v| == 6 || (|v| == 7 && e.space(v[4])))
    && '1' <= v[0] <= '9' && AsciiDigit(v[1]) && AsciiDigit(v[2]) && AsciiDigit(v[3])
    && Upper(v[|v| - 2]) && Upper(v[|v| - 1])
  }

  predicate IbanShape(e: Env, v: string) {
    && 14 <= |v| <= 34 && Upper(v[0]) && Upper(v[1]) && e.digit(v[2]) && e.digit(v[3])
    && forall k :: 4 <= k < |v| ==> Upper(v[k]) || AsciiDigit(v[k])
  }

  predicate BsnShape(e: Env, v: string) {
    |v| == 9 && forall k :: 0 <= k < 9 ==> e.digit(v[k])
  }

  predicate DetFits(e: Env, d: Detector, v: string) {
    match d
    case Bsn => BsnShape(e, v)
    case Iban => IbanShape(e, v)
    case Email => EmailShape(v)
    case Postcode => PostcodeShape(e, v)
  }

  predicate WordAt(e: Env, s: string, i: int) { 0 <= i < |s| && e.word(s[i]) }

  // ----- which matches a detector takes -----

  const BSN_WEIGHTS: seq<int> := [9, 8, 7, 6, 5, 4, 3, 2, -1]

  function BsnSum(e: Env, v: string, k: nat): int
    requires |v| == 9 && k <= 9
  {
    if k == 0 then 0 else BsnSum(e, v, k - 1) + e.value(v[k - 1]) * BSN_WEIGHTS[k - 1]
  }

  /** The eleven-test; nine zeros are no number. */
  predicate ValidBsn(e: Env, v: string) {
    && |v| == 9 && (forall k :: 0 <= k < 9 ==> e.digit(v[k]))
    && (exists k :: 0 <= k < 9 && e.value(v[k]) != 0)
    && BsnSum(e, v, 9) % 11 == 0
  }

  function Base36(e: Env, c: char): nat {
    if Upper(c) then c as int - 'A' as int + 10 else e.value(c)
  }

  function IbanNumber(e: Env, v: string): nat {
    if v == "" then 0
    else
      var d := Base36(e, v[|v| - 1]);
      IbanNumber(e, v[..|v| - 1]) * (if d < 10 then 10 else 100) + d
  }

  predicate ValidIban(e: Env, v: string) {
    |v| >= 4 && IbanNumber(e, v[4..] + v[..4]) % 97 == 1
  }

  function SpaceEnd(e: Env, w: string, i: nat): nat
    requires i <= |w|
    ensures i <= SpaceEnd(e, w, i) <= |w|
    decreases |w| - i
  {
    if i < |w| && e.space(w[i]) then SpaceEnd(e, w, i + 1) else i
  }

  function DigitEnd(e: Env, w: string, i: nat): nat
    requires i <= |w|
    ensures i <= DigitEnd(e, w, i) <= |w|
    decreases |w| - i
  {
    if i < |w| && e.digit(w[i]) then DigitEnd(e, w, i + 1) else i
  }

  predicate AllSeparators(e: Env, t: string) {
    forall k :: 0 <= k < |t| ==> t[k] in ",.|" || e.space(t[k])
  }

  /** `[Pp]ostbus\s+\d+[,.\s|]{1,4}$`, where `$` also stands before a final newline. */
  predicate PostbusAt(e: Env, w: string, i: nat) {
    && i + 7 <= |w| && w[i] in "Pp" && w[i + 1..i + 7] == "ostbus"
    && var a := SpaceEnd(e, w, i + 7);
       var b := DigitEnd(e, w, a);
       var t := w[b..];
       && i + 7 < a < b
       && ((1 <= |t| <= 4 && AllSeparators(e, t))
           || (2 <= |t| <= 5 && t[|t| - 1] == '\n' && AllSeparators(e, t[..|t| - 1])))
  }

  /** The forty characters before a position. */
  function Before(s: string, i: nat): string
    requires i <= |s|
  {
    s[if i < 40 then 0 else i - 40..i]
  }

  predicate PostbusIn(e: Env, w: string) { exists j: nat :: j < |w| && PostbusAt(e, w, j) }

  /** A postcode right behind a PO box is not an address. */
  predicate PostcodeContext(e: Env, s: string, i: nat)
    requires i <= |s|
  {
    !PostbusIn(e, Before(s, i))
  }

  predicate DetTakes(e: Env, d: Detector, s: string, i: nat, n: nat) {
    i + n <= |s| &&
    match d
    case Bsn => ValidBsn(e, s[i..i + n])
    case Iban => ValidIban(e, s[i..i + n])
    case Email => true
    case Postcode => PostcodeContext(e, s, i)
  }

  function DetUpper(d: Detector): string {
    match d case Bsn => "BSN" case Iban => "IBAN" case Email => "EMAIL" case Postcode => "POSTCODE"
  }

  lemma UpperAt(s: string, k: nat)
    requires k < |s|
    ensures UpperCase(s)[k] == UpperChar(s[k])
  {
    if k > 0 { UpperAt(s[1..], k - 1); }
  }

  lemma DetLabelOk(d: Detector)
    ensures UpperCase(DetLabel(d)) == DetUpper(d)
    ensures LabelOk(DetLabel(d))
  {
    var l := DetLabel(d);
    forall k | 0 <= k < |l| ensures UpperCase(l)[k] == DetUpper(d)[k] { UpperAt(l, k); }
  }

  // ----- the rules -----

  /** `\b...\b` around a match of the detector. */
  predicate WordEdges(e: Env, s: string, i: nat, n: nat) {
    WordAt(e, s, i - 1) != WordAt(e, s, i) && WordAt(e, s, i + n - 1) != WordAt(e, s, i + n)
  }

  function DetRule(e: Env, d: Detector): Rule {
    Rule(v => DetFits(e, d, v),
         (s: string, i: nat, n: nat) => WordEdges(e, s, i, n), (s: string, i: nat, n: nat) => DetTakes(e, d, s, i, n),
         v => DetLabel(d), v => Pseudonym(e, DetLabel(d), v))
  }

  function TypeOf(labels: map<string, string>, v: string): string { if v in labels then labels[v] else "" }

  /** `(?<!\w)(?:...)(?!\w)` over the reported values; a match that starts in a
      token stays. */
  function NamesRule(e: Env, labels: map<string, string>): Rule {
    Rule(v => v in labels,
         (s: string, i: nat, n: nat) => !WordAt(e, s, i - 1) && !WordAt(e, s, i + n),
         (s: string, i: nat, n: nat) => !InToken(s, i),
         v => TypeOf(labels, v), v => Pseudonym(e, TypeOf(labels, v), v))
  }

  /** The lookarounds of the entity pass, and its only look at tokens. */
  ghost predicate Lookarounds(e: Env, r: Rule) {
    && (forall s, i: nat, n: nat :: r.edges(s, i, n) <==> !WordAt(e, s, i - 1) && !WordAt(e, s, i + n))
    && (forall s, i: nat, n: nat :: r.takes(s, i, n) <==> !InToken(s, i))
  }

  lemma NamesLook(e: Env, labels: map<string, string>)
    ensures Lookarounds(e, NamesRule(e, labels))
  {}

  ghost predicate LabelsOk(labels: map<string, string>) {
    forall v :: v in labels ==> LabelOk(labels[v])
  }

  lemma NamesRuleNames(e: Env, labels: map<string, string>)
    requires Sane(e) && LabelsOk(labels)
    ensures Names(NamesRule(e, labels))
  {
    forall v | v in labels ensures IsToken(Pseudonym(e, labels[v], v)) { PseudonymIsToken(e, labels[v], v); }
  }

  lemma DetRuleNames(e: Env, d: Detector)
    requires Sane(e)
    ensures Names(DetRule(e, d))
  {
    DetLabelOk(d);
    forall v: string ensures IsToken(Pseudonym(e, DetLabel(d), v)) { PseudonymIsToken(e, DetLabel(d), v); }
  }

  /** A value rule never looks inside a token. */
  lemma NamesSpare(e: Env, labels: map<string, string>, s: string)
    ensures Spares(NamesRule(e, labels), s)
  {}
}
