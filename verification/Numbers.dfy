/** Which numbers the detectors take: the eleven-test of a BSN and the mod-97 test of an IBAN,
    spelled out, and the errors they catch. */
module Numbers {
  import opened Lexer
  import opened Rules

  // ----- BSN -----

  /** The digits of nine, weighted from nine down to two, the last one taken off. */
  function Weighted(e: Env, v: string): int
    requires |v| == 9
  {
    9 * e.value(v[0]) + 8 * e.value(v[1]) + 7 * e.value(v[2]) + 6 * e.value(v[3]) + 5 * e.value(v[4])
    + 4 * e.value(v[5]) + 3 * e.value(v[6]) + 2 * e.value(v[7]) - e.value(v[8])
  }

  lemma SumStep(e: Env, v: string, k: nat, weight: int)
    requires |v| == 9 && k < 9 && weight == (if k == 8 then -1 else 9 - k)
    ensures BsnSum(e, v, k + 1) == BsnSum(e, v, k) + weight * e.value(v[k])
  {
    assert BSN_WEIGHTS[k] == weight;
  }

  lemma SumIs(e: Env, v: string)
    requires |v| == 9
    ensures BsnSum(e, v, 9) == Weighted(e, v)
  {
    SumStep(e, v, 0, 9);
    SumStep(e, v, 1, 8);
    SumStep(e, v, 2, 7);
    SumStep(e, v, 3, 6);
    SumStep(e, v, 4, 5);
    SumStep(e, v, 5, 4);
    SumStep(e, v, 6, 3);
    SumStep(e, v, 7, 2);
    SumStep(e, v, 8, -1);
  }

  /** Nine digits, not all zero, whose weighted sum eleven divides. */
  lemma BsnExactly(e: Env, v: string)
    ensures ValidBsn(e, v) <==>
              && |v| == 9 && (forall k :: 0 <= k < 9 ==> e.digit(v[k]))
              && (exists k :: 0 <= k < 9 && e.value(v[k]) != 0) && Weighted(e, v) % 11 == 0
  {
    if |v| == 9 { SumIs(e, v); }
  }

  /** The digits of a number, as a base-ten reader sees them. */
  ghost predicate Digits(e: Env) { forall c: char :: e.digit(c) ==> e.value(c) < 10 }

  /** Equal but for one character. */
  ghost predicate OneOff(v: string, w: string, i: nat) {
    |v| == |w| && i < |v| && v[i] != w[i] && forall k :: 0 <= k < |v| && k != i ==> v[k] == w[k]
  }

  /** What one wrong digit changes is the difference of the values by its weight, which eleven does
      not divide. */
  lemma SumsDiffer(e: Env, v: string, w: string, i: nat, d: int)
    requires |v| == 9 && OneOff(v, w, i) && d == e.value(v[i]) - e.value(w[i]) && -9 <= d <= 9 && d != 0
    ensures (Weighted(e, v) - Weighted(e, w)) % 11 != 0
  {
    var x := Weighted(e, v) - Weighted(e, w);
    assert forall k :: 0 <= k < 9 && k != i ==> e.value(v[k]) == e.value(w[k]);
    if i == 0 { assert x == 9 * d; }
    else if i == 1 { assert x == 8 * d; }
    else if i == 2 { assert x == 7 * d; }
    else if i == 3 { assert x == 6 * d; }
    else if i == 4 { assert x == 5 * d; }
    else if i == 5 { assert x == 4 * d; }
    else if i == 6 { assert x == 3 * d; }
    else if i == 7 { assert x == 2 * d; }
    else { assert x == -d; }
    NotByEleven(x, d);
  }

  lemma NotByEleven(x: int, d: int)
    requires -9 <= d <= 9 && d != 0
    requires x in {9 * d, 8 * d, 7 * d, 6 * d, 5 * d, 4 * d, 3 * d, 2 * d, -d}
    ensures x % 11 != 0
  {}

  /** One wrong digit is never a BSN too. */
  lemma BsnOneDigit(e: Env, v: string, w: string, i: nat)
    requires Digits(e) && ValidBsn(e, v) && OneOff(v, w, i) && e.digit(w[i]) && e.value(v[i]) != e.value(w[i])
    ensures !ValidBsn(e, w)
  {
    SumIs(e, v);
    SumIs(e, w);
    var d := e.value(v[i]) - e.value(w[i]);
    assert e.digit(v[i]) && -9 <= d <= 9 && d != 0;
    SumsDiffer(e, v, w, i, d);
    SameEleven(Weighted(e, v), Weighted(e, w));
  }

  lemma SameEleven(a: int, b: int)
    requires a % 11 == 0 && (a - b) % 11 != 0
    ensures b % 11 != 0
  {}

  // ----- IBAN -----

  /** `str(int(ch, 36))`: a letter is written with two digits. */
  function Written(d: nat): seq<nat> { if d < 10 then [d] else [d / 10, d % 10] }

  function Expanded(e: Env, v: string): seq<nat> {
    if v == "" then [] else Expanded(e, v[..|v| - 1]) + Written(Base36(e, v[|v| - 1]))
  }

  /** What a row of decimal digits says. */
  function Decimal(ds: seq<nat>): nat { if ds == [] then 0 else Decimal(ds[..|ds| - 1]) * 10 + ds[|ds| - 1] }

  lemma DecimalPush(ds: seq<nat>, d: nat)
    ensures Decimal(ds + [d]) == Decimal(ds) * 10 + d
  {
    assert (ds + [d])[..|ds|] == ds;
  }

  lemma DecimalWritten(ds: seq<nat>, d: nat)
    ensures Decimal(ds + Written(d)) == Decimal(ds) * (if d < 10 then 10 else 100) + d
  {
    if d < 10 {
      DecimalPush(ds, d);
    } else {
      assert ds + Written(d) == (ds + [d / 10]) + [d % 10];
      DecimalPush(ds, d / 10);
      DecimalPush(ds + [d / 10], d % 10);
    }
  }

  /** The number the test divides is the one its letters and digits spell in base ten. */
  lemma {:induction false} NumberIs(e: Env, v: string)
    ensures IbanNumber(e, v) == Decimal(Expanded(e, v))
  {
    if v != "" {
      NumberIs(e, v[..|v| - 1]);
      DecimalWritten(Expanded(e, v[..|v| - 1]), Base36(e, v[|v| - 1]));
    }
  }

  /** The first four characters go to the end, letters become numbers, and what is spelled then
      leaves one when divided by 97. */
  lemma IbanExactly(e: Env, v: string)
    ensures ValidIban(e, v) <==> |v| >= 4 && Decimal(Expanded(e, v[4..] + v[..4])) % 97 == 1
  {
    if |v| >= 4 { NumberIs(e, v[4..] + v[..4]); }
  }

  /** A digit for a digit, or a letter for a letter, with another value. */
  ghost predicate SameKind(e: Env, c: char, d: char) {
    Base36(e, c) != Base36(e, d) && Base36(e, c) < 36 && Base36(e, d) < 36 && (Base36(e, c) < 10 <==> Base36(e, d) < 10)
  }

  /** What one wrong character changes: the difference of the values, moved to its place. */
  lemma {:induction false} NumbersDiffer(e: Env, v: string, w: string, i: nat)
    requires OneOff(v, w, i) && SameKind(e, v[i], w[i])
    ensures (IbanNumber(e, v) - IbanNumber(e, w)) % 97 != 0
    decreases |v|
  {
    var n := |v| - 1;
    var a, b := IbanNumber(e, v[..n]), IbanNumber(e, w[..n]);
    if i == n {
      assert v[..n] == w[..n];
      var k := if Base36(e, v[n]) < 10 then 10 else 100;
      assert IbanNumber(e, v) == a * k + Base36(e, v[n]) && IbanNumber(e, w) == a * k + Base36(e, w[n]);
    } else {
      assert v[n] == w[n];
      NumbersDiffer(e, v[..n], w[..n], i);
      var d := Base36(e, v[n]);
      if d < 10 {
        NotByTen(a - b);
        assert IbanNumber(e, v) - IbanNumber(e, w) == 10 * (a - b);
      } else {
        NotByTen(a - b);
        NotByTen(10 * (a - b));
        assert IbanNumber(e, v) - IbanNumber(e, w) == 10 * (10 * (a - b));
      }
    }
  }

  /** 97 divides ten times a number only when it divides the number: 68 times ten is one more
      than seven times 97. */
  lemma NotByTen(x: int)
    requires x % 97 != 0
    ensures (10 * x) % 97 != 0
  {
    if (10 * x) % 97 == 0 {
      var q := 10 * x / 97;
      assert 10 * x == 97 * q;
      assert x == 97 * (68 * q - 7 * x);
      Divides(x, 68 * q - 7 * x);
    }
  }

  lemma Divides(x: int, q: int)
    requires x == 97 * q
    ensures x % 97 == 0
  {}

  /** One wrong character, a digit for a digit or a letter for a letter, is never an IBAN too. */
  lemma IbanOneCharacter(e: Env, v: string, w: string, i: nat)
    requires ValidIban(e, v) && OneOff(v, w, i) && SameKind(e, v[i], w[i])
    ensures !ValidIban(e, w)
  {
    var a, b, j := v[4..] + v[..4], w[4..] + w[..4], if i < 4 then |v| - 4 + i else i - 4;
    assert OneOff(a, b, j) && a[j] == v[i] && b[j] == w[i];
    NumbersDiffer(e, a, b, j);
    if IbanNumber(e, b) % 97 == 1 { SameRest(IbanNumber(e, a), IbanNumber(e, b)); }
  }

  lemma SameRest(a: int, b: int)
    requires a % 97 == 1 && b % 97 == 1
    ensures (a - b) % 97 == 0
  {}

  // ----- PO boxes -----

  /** At `i` stands "Postbus" or "postbus", space up to `a`, a number up to `b`, and behind it one to
      four separators to the end, a final newline aside. */
  ghost predicate PoBox(e: Env, w: string, i: nat, a: nat, b: nat) {
    && i + 7 < a < b < |w| && w[i] in "Pp" && w[i + 1..i + 7] == "ostbus"
    && (forall k :: i + 7 <= k < a ==> e.space(w[k])) && (forall k :: a <= k < b ==> e.digit(w[k]))
    && (Separators(e, w, b, |w|) || (w[|w| - 1] == '\n' && Separators(e, w, b, |w| - 1)))
  }

  ghost predicate Separators(e: Env, w: string, b: nat, end: nat) {
    b + 1 <= end <= b + 4 && end <= |w| && forall k :: b <= k < end ==> w[k] in ",.|" || e.space(w[k])
  }

  /** No digit is a separator. */
  ghost predicate DigitsApart(e: Env) { forall c: char :: e.digit(c) ==> !e.space(c) && c !in ",.|" }

  lemma {:induction false} SpaceEnds(e: Env, w: string, i: nat)
    requires i <= |w|
    ensures var a := SpaceEnd(e, w, i);
            i <= a <= |w| && (forall k :: i <= k < a ==> e.space(w[k])) && (a < |w| ==> !e.space(w[a]))
    decreases |w| - i
  {
    if i < |w| && e.space(w[i]) { SpaceEnds(e, w, i + 1); }
  }

  lemma {:induction false} DigitEnds(e: Env, w: string, i: nat)
    requires i <= |w|
    ensures var b := DigitEnd(e, w, i);
            i <= b <= |w| && (forall k :: i <= k < b ==> e.digit(w[k])) && (b < |w| ==> !e.digit(w[b]))
    decreases |w| - i
  {
    if i < |w| && e.digit(w[i]) { DigitEnds(e, w, i + 1); }
  }

  lemma TailIs(e: Env, w: string, b: nat)
    requires b <= |w|
    ensures var t := w[b..];
            ((1 <= |t| <= 4 && AllSeparators(e, t))
             || (2 <= |t| <= 5 && t[|t| - 1] == '\n' && AllSeparators(e, t[..|t| - 1])))
            <==> b < |w| && (Separators(e, w, b, |w|) || (w[|w| - 1] == '\n' && Separators(e, w, b, |w| - 1)))
  {
    var t := w[b..];
    assert forall k :: b <= k < |w| ==> w[k] == t[k - b];
  }

  /** The context rule of a postcode holds it back exactly behind a PO box. */
  lemma PoBoxExactly(e: Env, w: string, i: nat)
    requires DigitsApart(e)
    ensures PostbusAt(e, w, i) <==> exists a: nat, b: nat :: PoBox(e, w, i, a, b)
  {
    if i + 7 <= |w| {
      var a := SpaceEnd(e, w, i + 7);
      SpaceEnds(e, w, i + 7);
      var b := DigitEnd(e, w, a);
      DigitEnds(e, w, a);
      TailIs(e, w, b);
      if PostbusAt(e, w, i) { assert PoBox(e, w, i, a, b); }
      forall x: nat, y: nat | PoBox(e, w, i, x, y) ensures x == a && y == b {
        assert e.digit(w[x]) && !e.space(w[x]);
        assert !e.digit(w[y]);
      }
    }
  }
}
