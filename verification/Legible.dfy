/** The legible view: each distinct token shown as a numbered placeholder under a
    reader's label, with a legend back to the tokens. */
module Legible {
  import opened Lexer
  import opened Reveal

  // ----- placeholders -----

  const LABELS: map<string, string> := map[
    "PERSON" := "PERSOON", "LOCATION" := "LOCATIE", "ADDRESS" := "ADRES", "ORGANIZATION" := "ORGANISATIE",
    "PHONE_NUMBER" := "TELEFOON", "DATE" := "DATUM", "DATE_TIME" := "DATUM", "EMAIL_ADDRESS" := "EMAIL",
    "LICENSE_PLATE" := "KENTEKEN", "HEALTH" := "GEZONDHEID", "RELIGION" := "RELIGIE",
    "ETHNICITY" := "ETNICITEIT", "CRIMINAL" := "STRAFRECHTELIJK"]

  function ReaderLabel(l: string): string { if l in LABELS then LABELS[l] else l }

  function Digit(n: nat): char
    requires n < 10
  {
    (48 + n) as char
  }

  function Digits(n: nat): (s: string)
    ensures s != "" && (n < 10 <==> |s| == 1) && forall k :: 0 <= k < |s| ==> '0' <= s[k] <= '9'
  {
    if n < 10 then [Digit(n)] else Digits(n / 10) + [Digit(n % 10)]
  }

  lemma {:induction false} DigitsInjective(m: nat, n: nat)
    requires Digits(m) == Digits(n)
    ensures m == n
  {
    var a, b := Digits(m), Digits(n);
    assert a[|a| - 1] == Digit(m % 10) && b[|b| - 1] == Digit(n % 10);
    if m >= 10 && n >= 10 {
      assert Digits(m / 10) == a[..|a| - 1] == b[..|b| - 1] == Digits(n / 10);
      DigitsInjective(m / 10, n / 10);
    }
  }

  function Placeholder(l: string, n: nat): string { "[" + l + " " + Digits(n) + "]" }

  lemma PlaceholderParts(l: string, n: nat)
    requires forall k :: 0 <= k < |l| ==> l[k] != ' '
    ensures var p := Placeholder(l, n);
            && |p| > |l| + 2 && p[|l| + 1] == ' ' && p[1..|l| + 1] == l && p[|l| + 2..|p| - 1] == Digits(n)
            && forall k :: 0 <= k < |l| + 1 ==> p[k] != ' '
  {}

  lemma PlaceholderInjective(l: string, m: nat, l': string, n: nat)
    requires forall k :: 0 <= k < |l| ==> l[k] != ' '
    requires forall k :: 0 <= k < |l'| ==> l'[k] != ' '
    requires Placeholder(l, m) == Placeholder(l', n)
    ensures l == l' && m == n
  {
    PlaceholderParts(l, m);
    PlaceholderParts(l', n);
    DigitsInjective(m, n);
  }

  lemma ReaderLabelWord(l: string)
    requires AllLabel(l)
    ensures AllLabel(ReaderLabel(l))
  {}

  lemma LabelInWord(t: string)
    requires IsToken(t)
    ensures AllLabel(LabelIn(t))
  {
    var c := |t| - 2 - HASH_LEN;
    forall k | 0 <= k < c ensures t[k] != ':' { if k > 0 { assert t[k] == t[1..c][k - 1]; } }
    assert FirstIndex(':', t) == c;
  }

  /** A reader's label is a word of label characters. */
  lemma ReaderWord(t: string)
    requires IsToken(t)
    ensures AllLabel(ReaderLabel(LabelIn(t)))
  {
    LabelInWord(t);
    ReaderLabelWord(LabelIn(t));
  }

  // ----- numbering -----

  /** token -> placeholder, and label -> last ordinal. */
  datatype Book = Book(ordinal: map<string, string>, counters: map<string, nat>)

  function Count(b: Book, l: string): nat { if l in b.counters then b.counters[l] else 0 }

  function Note(b: Book, t: string): Book {
    if t in b.ordinal then b
    else
      var l := ReaderLabel(LabelIn(t));
      Book(b.ordinal[t := Placeholder(l, Count(b, l) + 1)], b.counters[l := Count(b, l) + 1])
  }

  function NoteAll(b: Book, ts: seq<string>): Book
    decreases |ts|
  {
    if ts == [] then b else NoteAll(Note(b, ts[0]), ts[1..])
  }

  /** Every placeholder carries its token's label and a number already given out. */
  ghost predicate Numbered(b: Book) {
    forall t :: t in b.ordinal ==> IsToken(t) && NumberOf(b, t)
  }

  ghost predicate NumberOf(b: Book, t: string)
    requires t in b.ordinal
  {
    var l := ReaderLabel(LabelIn(t));
    exists n: nat :: 1 <= n <= Count(b, l) && b.ordinal[t] == Placeholder(l, n)
  }

  ghost predicate Distinct(b: Book) {
    forall t, u :: t in b.ordinal && u in b.ordinal && b.ordinal[t] == b.ordinal[u] ==> t == u
  }

  lemma NewNumber(b: Book, t: string, u: string)
    requires Numbered(b) && IsToken(t) && t !in b.ordinal && u in b.ordinal
    ensures Note(b, t).ordinal[t] != b.ordinal[u]
  {
    var l, l' := ReaderLabel(LabelIn(t)), ReaderLabel(LabelIn(u));
    ReaderWord(t);
    ReaderWord(u);
    var n: nat :| 1 <= n <= Count(b, l') && b.ordinal[u] == Placeholder(l', n);
    if Placeholder(l, Count(b, l) + 1) == Placeholder(l', n) {
      PlaceholderInjective(l, Count(b, l) + 1, l', n);
    }
  }

  lemma NumberKept(b: Book, t: string, u: string)
    requires u in b.ordinal && NumberOf(b, u)
    ensures u in Note(b, t).ordinal && NumberOf(Note(b, t), u)
  {
    var l := ReaderLabel(LabelIn(u));
    var n: nat :| 1 <= n <= Count(b, l) && b.ordinal[u] == Placeholder(l, n);
    assert n <= Count(Note(b, t), l);
  }

  lemma NoteKeeps(b: Book, t: string)
    requires Numbered(b) && Distinct(b) && IsToken(t)
    ensures var b' := Note(b, t);
            && Numbered(b') && Distinct(b') && t in b'.ordinal
            && forall u :: u in b.ordinal ==> u in b'.ordinal && b'.ordinal[u] == b.ordinal[u]
  {
    if t !in b.ordinal {
      NoteNumbered(b, t);
      NoteDistinct(b, t);
    }
  }

  lemma NoteNumbered(b: Book, t: string)
    requires Numbered(b) && IsToken(t) && t !in b.ordinal
    ensures Numbered(Note(b, t))
  {
    forall u | u in b.ordinal ensures NumberOf(Note(b, t), u) { NumberKept(b, t, u); }
    assert NumberOf(Note(b, t), t);
  }

  lemma NoteDistinct(b: Book, t: string)
    requires Numbered(b) && Distinct(b) && IsToken(t) && t !in b.ordinal
    ensures Distinct(Note(b, t))
  {
    var b' := Note(b, t);
    forall u | u in b.ordinal ensures b'.ordinal[t] != b'.ordinal[u] { NewNumber(b, t, u); }
  }

  /** Distinct tokens get distinct placeholders, also when their types share a
      reader's label; what is numbered once keeps its number. */
  lemma {:induction false} NotesDistinct(b: Book, ts: seq<string>)
    requires Numbered(b) && Distinct(b) && forall t :: t in ts ==> IsToken(t)
    ensures var b' := NoteAll(b, ts);
            && Numbered(b') && Distinct(b') && (forall t :: t in ts ==> t in b'.ordinal)
            && forall u :: u in b.ordinal ==> u in b'.ordinal && b'.ordinal[u] == b.ordinal[u]
    decreases |ts|
  {
    if ts != [] {
      NoteKeeps(b, ts[0]);
      NotesDistinct(Note(b, ts[0]), ts[1..]);
      assert forall t :: t in ts ==> t == ts[0] || t in ts[1..];
    }
  }

  /** The tokens noted with a reader's label. */
  function Under(b: Book, l: string): set<string> { set t | t in b.ordinal && ReaderLabel(LabelIn(t)) == l }

  /** Each label's counter says how many tokens were noted with it. */
  ghost predicate Tallied(b: Book) { forall l :: Count(b, l) == |Under(b, l)| }

  /** A token that is new takes the next number of its label, with no gap; one that is known changes
      nothing. */
  lemma NextNumber(b: Book, t: string)
    requires Tallied(b)
    ensures var b', l := Note(b, t), ReaderLabel(LabelIn(t));
            && Tallied(b') && b'.ordinal.Keys == b.ordinal.Keys + {t}
            && (t in b.ordinal ==> b' == b)
            && (t !in b.ordinal ==> b'.ordinal[t] == "[" + l + " " + Digits(|Under(b, l)| + 1) + "]")
  {
    if t !in b.ordinal {
      forall l ensures Count(Note(b, t), l) == |Under(Note(b, t), l)| { TallyOne(b, t, l); }
    }
  }

  lemma TallyOne(b: Book, t: string, l: string)
    requires t !in b.ordinal && Count(b, l) == |Under(b, l)|
    ensures Count(Note(b, t), l) == |Under(Note(b, t), l)|
  {
    var here := ReaderLabel(LabelIn(t));
    assert Under(Note(b, t), l) == Under(b, l) + if here == l then {t} else {};
  }

  lemma {:induction false} NotesTallied(b: Book, ts: seq<string>)
    requires Tallied(b)
    ensures Tallied(NoteAll(b, ts)) && forall t :: t in NoteAll(b, ts).ordinal <==> t in b.ordinal || t in ts
    decreases |ts|
  {
    if ts != [] {
      NextNumber(b, ts[0]);
      NotesTallied(Note(b, ts[0]), ts[1..]);
      assert forall t :: t in ts <==> t == ts[0] || t in ts[1..];
    }
  }

  lemma {:induction false} NotesInOrder(b: Book, a: seq<string>, c: seq<string>)
    ensures NoteAll(b, a + c) == NoteAll(NoteAll(b, a), c)
    decreases |a|
  {
    if a == [] {
      assert a + c == c;
    } else {
      assert (a + c)[1..] == a[1..] + c;
      NotesInOrder(Note(b, a[0]), a[1..], c);
    }
  }

  lemma {:induction false} NotesStay(b: Book, ts: seq<string>, t: string)
    requires t in b.ordinal
    ensures t in NoteAll(b, ts).ordinal && NoteAll(b, ts).ordinal[t] == b.ordinal[t]
    decreases |ts|
  {
    if ts != [] { NotesStay(Note(b, ts[0]), ts[1..], t); }
  }

  /** The different tokens of `ts` that a reader sees under one label. */
  function Different(ts: seq<string>, l: string): set<string> { set t | t in ts && ReaderLabel(LabelIn(t)) == l }

  /** Read from left to right: a token that was not there before gets, under its reader's label, the
      number of the different tokens of that label so far, itself included, and keeps it. */
  lemma NumberedByOccurrence(before: seq<string>, t: string, behind: seq<string>)
    requires t !in before
    ensures var b, l := NoteAll(Book(map[], map[]), before + [t] + behind), ReaderLabel(LabelIn(t));
            t in b.ordinal && b.ordinal[t] == "[" + l + " " + Digits(|Different(before, l)| + 1) + "]"
  {
    var b, l := NoteAll(Book(map[], map[]), before), ReaderLabel(LabelIn(t));
    TalliedAfter(before, l);
    NextNumber(b, t);
    NotedBetween(Book(map[], map[]), before, t, behind);
    NotesStay(Note(b, t), behind, t);
  }

  lemma TalliedAfter(ts: seq<string>, l: string)
    ensures var b := NoteAll(Book(map[], map[]), ts);
            Tallied(b) && Under(b, l) == Different(ts, l) && forall t :: t in b.ordinal <==> t in ts
  {
    var none := Book(map[], map[]);
    assert forall x :: Under(none, x) == {};
    NotesTallied(none, ts);
  }

  lemma NotedBetween(b: Book, before: seq<string>, t: string, behind: seq<string>)
    ensures NoteAll(b, before + [t] + behind) == NoteAll(Note(NoteAll(b, before), t), behind)
  {
    assert before + [t] + behind == before + ([t] + behind);
    NotesInOrder(b, before, [t] + behind);
    assert ([t] + behind)[1..] == behind;
  }

  /** Thirteen types have a reader's label of their own; two share one. */
  lemma ReaderLabels()
    ensures ReaderLabel("PERSON") == "PERSOON" && ReaderLabel("ADDRESS") == "ADRES" && ReaderLabel("BSN") == "BSN"
    ensures ReaderLabel("DATE") == ReaderLabel("DATE_TIME") == "DATUM"
  {}

  // ----- the view -----

  lemma {:induction false} TokensAreTokens(s: string)
    ensures forall t :: t in TokensOf(s) ==> IsToken(t)
    decreases |s|
  {
    if s != "" { TokensAreTokens(s[Span(TokenShape, s)..]); }
  }

  /** The numbering of a text, in order of first occurrence. */
  function BookOf(s: string): Book { NoteAll(Book(map[], map[]), TokensOf(s)) }

  function Shown(b: Book, t: string): string { if t in b.ordinal then b.ordinal[t] else t }

  function View(b: Book, s: string): string { ReSub(TokenShape, t => Shown(b, t), s) }

  ghost predicate Inverse(b: Book, legend: map<string, string>) {
    && (forall t :: t in b.ordinal ==> b.ordinal[t] in legend && legend[b.ordinal[t]] == t)
    && (forall p :: p in legend ==> legend[p] in b.ordinal && b.ordinal[legend[p]] == p)
  }

  lemma ViewStep(b: Book, s: string)
    requires s != ""
    ensures var m := Span(TokenShape, s);
            if AtomLen(TokenShape, s) > 0 then
              View(b, s) == Shown(b, s[..m]) + View(b, s[m..]) && TokensOf(s) == [s[..m]] + TokensOf(s[m..])
            else
              View(b, s) == s[..m] + View(b, s[m..]) && TokensOf(s) == TokensOf(s[m..])
  {
    ReSubStep(TokenShape, t => Shown(b, t), s);
  }

  lemma NoteFirst(b: Book, t: string, ts: seq<string>)
    ensures NoteAll(b, [t] + ts) == NoteAll(Note(b, t), ts)
  {
    assert ([t] + ts)[1..] == ts;
  }

  lemma InverseGrows(b: Book, t: string, legend: map<string, string>)
    requires Numbered(b) && Distinct(b) && IsToken(t) && t !in b.ordinal && Inverse(b, legend)
    ensures Inverse(Note(b, t), legend[Note(b, t).ordinal[t] := t])
  {
    var p := Note(b, t).ordinal[t];
    forall u | u in b.ordinal ensures p != b.ordinal[u] { NewNumber(b, t, u); }
    InverseWith(b, Note(b, t), t, p, legend);
  }

  lemma InverseWith(b: Book, b': Book, t: string, p: string, legend: map<string, string>)
    requires Inverse(b, legend) && b'.ordinal == b.ordinal[t := p] && t !in b.ordinal
    requires forall u :: u in b.ordinal ==> p != b.ordinal[u]
    ensures Inverse(b', legend[p := t])
  {}

  method NoteToken(t: string, ordinal: map<string, string>, counters: map<string, nat>, legend: map<string, string>)
    returns (ordinal': map<string, string>, counters': map<string, nat>, legend': map<string, string>)
    requires Numbered(Book(ordinal, counters)) && Distinct(Book(ordinal, counters)) && IsToken(t)
    requires Inverse(Book(ordinal, counters), legend)
    ensures Book(ordinal', counters') == Note(Book(ordinal, counters), t)
    ensures Inverse(Book(ordinal', counters'), legend')
  {
    if t in ordinal { return ordinal, counters, legend; }
    InverseGrows(Book(ordinal, counters), t, legend);
    var l := ReaderLabel(LabelIn(t));
    counters' := counters[l := (if l in counters then counters[l] else 0) + 1];
    ordinal' := ordinal[t := Placeholder(l, counters'[l])];
    legend' := legend[ordinal'[t] := t];
  }

  /** `to_legible`. */
  method ToLegible(text: string) returns (view: string, legend: map<string, string>)
    ensures view == View(BookOf(text), text) && Inverse(BookOf(text), legend)
  {
    var ordinal: map<string, string>, counters: map<string, nat> := map[], map[];
    view, legend := "", map[];
    var rest := text;
    ghost var all := BookOf(text);
    while rest != ""
      invariant Numbered(Book(ordinal, counters)) && Distinct(Book(ordinal, counters))
      invariant NoteAll(Book(ordinal, counters), TokensOf(rest)) == all
      invariant view + View(all, rest) == View(all, text)
      invariant Inverse(Book(ordinal, counters), legend)
      decreases |rest|
    {
      ViewStep(all, rest);
      var n := AtomLen(TokenShape, rest);
      if n == 0 {
        Assoc(view, rest[..1], View(all, rest[1..]));
        view, rest := view + rest[..1], rest[1..];
      } else {
        var t := rest[..n];
        ghost var b := Book(ordinal, counters);
        ordinal, counters, legend := NoteToken(t, ordinal, counters, legend);
        Noted(b, Book(ordinal, counters), t, rest[n..], all);
        Assoc(view, ordinal[t], View(all, rest[n..]));
        view, rest := view + ordinal[t], rest[n..];
      }
    }
  }

  /** One token noted: the numbering goes on, and its placeholder is final. */
  lemma Noted(b: Book, b': Book, t: string, rest: string, all: Book)
    requires Numbered(b) && Distinct(b) && IsToken(t) && b' == Note(b, t)
    requires NoteAll(b, [t] + TokensOf(rest)) == all
    ensures Numbered(b') && Distinct(b') && NoteAll(b', TokensOf(rest)) == all
    ensures t in b'.ordinal && Shown(all, t) == b'.ordinal[t]
  {
    NoteKeeps(b, t);
    NoteFirst(b, t, TokensOf(rest));
    TokensAreTokens(rest);
    NotesDistinct(b', TokensOf(rest));
  }

  // ----- and back -----

  function Named(legend: map<string, string>, p: string): string { if p in legend then legend[p] else p }

  /** The legend put back into the view. */
  function Back(legend: map<string, string>, s: string): string {
    ReSub(LegendShape(legend.Keys), p => Named(legend, p), s)
  }

  lemma PlaceholderIsAtom(b: Book, legend: map<string, string>, t: string)
    requires Numbered(b) && Inverse(b, legend) && t in b.ordinal
    ensures IsAtom(LegendShape(legend.Keys), b.ordinal[t]) && ' ' in b.ordinal[t]
    ensures |b.ordinal[t]| > 0 && b.ordinal[t][0] == '['
  {
    var l := ReaderLabel(LabelIn(t));
    ReaderWord(t);
    var n: nat :| 1 <= n <= Count(b, l) && b.ordinal[t] == Placeholder(l, n);
    PlaceholderParts(l, n);
    var p := Placeholder(l, n);
    forall k | 0 < k < |p| - 1 ensures p[k] != '[' && p[k] != ']' {
      if k <= |l| { assert p[k] == l[k - 1]; } else if k > |l| + 1 { assert p[k] == Digits(n)[k - |l| - 2]; }
    }
  }

  lemma TokenNoSpace(t: string)
    requires IsToken(t)
    ensures ' ' !in t
  {
    forall k | 0 <= k < |t| ensures t[k] != ' ' {
      if 0 < k < |t| - 2 - HASH_LEN {
        assert t[k] == t[1..|t| - 2 - HASH_LEN][k - 1];
      } else if |t| - 2 - HASH_LEN < k < |t| - 1 {
        assert t[k] == t[|t| - 1 - HASH_LEN..|t| - 1][k - (|t| - 1 - HASH_LEN)];
      }
    }
  }

  ghost predicate Plainly(s: string, m: nat) { m <= |s| && forall k :: 0 <= k < m ==> s[k] != '[' }

  /** The view behind the first token or character. */
  lemma ViewRest(b: Book, s: string, v: string) returns (t: string, rest: string)
    requires s != "" && v == View(b, s)
    ensures t == s[..Span(TokenShape, s)] && rest == View(b, s[|t|..])
    ensures v == (if AtomLen(TokenShape, s) > 0 then Shown(b, t) else t) + rest
    ensures AtomLen(TokenShape, s) == 0 ==> |t| == 1 && v[0] == s[0] && v[1..] == rest
    ensures AtomLen(TokenShape, s) > 0 ==> TokensOf(s) == [t] + TokensOf(s[|t|..]) && t in TokensOf(s)
    ensures AtomLen(TokenShape, s) == 0 ==> TokensOf(s) == TokensOf(s[1..])
  {
    ViewStep(b, s);
    t := s[..Span(TokenShape, s)];
    rest := View(b, s[|t|..]);
  }

  /** Up to the first bracket the view is the text. */
  lemma {:induction false} ViewPlain(b: Book, legend: map<string, string>, s: string, v: string, m: nat)
    requires v == View(b, s)
    requires Numbered(b) && Inverse(b, legend) && forall t :: t in TokensOf(s) ==> t in b.ordinal
    requires Plainly(s, m) || Plainly(v, m)
    ensures m <= |s| && m <= |v| && s[..m] == v[..m]
    decreases m
  {
    if m > 0 {
      assert s != "" by { assert s == "" ==> v == ""; }
      var t, rest := ViewRest(b, s, v);
      TokenFront(b, legend, s, v);
      if AtomLen(TokenShape, s) == 0 {
        PlainCons(s, m);
        PlainCons(v, m);
        ViewPlain(b, legend, s[1..], rest, m - 1);
        JoinHead(s, m);
        JoinHead(v, m);
      }
    }
  }

  lemma TokenFront(b: Book, legend: map<string, string>, s: string, v: string)
    requires Numbered(b) && Inverse(b, legend) && s != "" && v == View(b, s)
    requires AtomLen(TokenShape, s) > 0 ==> s[..Span(TokenShape, s)] in b.ordinal
    ensures AtomLen(TokenShape, s) > 0 ==> s[0] == '[' && v != "" && v[0] == '['
  {
    if AtomLen(TokenShape, s) > 0 {
      var t, rest := ViewRest(b, s, v);
      PlaceholderIsAtom(b, legend, t);
      assert s[0] == t[0] && v[0] == b.ordinal[t][0];
    }
  }

  lemma PlainCons(s: string, m: nat)
    requires s != "" && m > 0
    ensures Plainly(s, m) ==> Plainly(s[1..], m - 1)
  {}

  lemma JoinHead(s: string, m: nat)
    requires 0 < m <= |s|
    ensures s[..m] == [s[0]] + s[1..][..m - 1]
  {}

  lemma PlainTail(sh: Shape, s: string)
    requires sh.LegendShape? && AtomLen(sh, s) > 0
    ensures Plainly(s[1..], AtomLen(sh, s) - 1)
  {
    var n := AtomLen(sh, s);
    AtomEnclosed(sh, s[..n]);
    forall k | 0 <= k < n - 1 ensures s[1..][k] != '[' { assert s[1..][k] == s[..n][k + 1]; }
  }

  /** What starts with the same character and goes on without a bracket is the same. */
  lemma PlainHeads(b: Book, legend: map<string, string>, s: string, v: string, rest: string, n: nat)
    requires v != "" && s != "" && v[0] == s[0] && v[1..] == rest == View(b, s[1..])
    requires Numbered(b) && Inverse(b, legend) && forall t :: t in TokensOf(s[1..]) ==> t in b.ordinal
    requires n > 0 && (Plainly(s[1..], n - 1) || Plainly(rest, n - 1))
    ensures n <= |s| && n <= |v| && s[..n] == v[..n]
  {
    ViewPlain(b, legend, s[1..], rest, n - 1);
    SameHead(s, v, n);
  }

  lemma AtomCopied(sh: Shape, s: string, v: string, n: nat)
    requires n == AtomLen(sh, s) > 0 && n <= |v| && s[..n] == v[..n]
    ensures AtomLen(sh, v) == n
  {
    AtomLenUnique(sh, v, n);
  }

  /** Behind a plain character, a legend placeholder stands in the view exactly when
      it stands in the text. */
  lemma SameAtom(b: Book, legend: map<string, string>, s: string, v: string, rest: string)
    requires v != "" && s != "" && v[0] == s[0] && v[1..] == rest == View(b, s[1..])
    requires Numbered(b) && Inverse(b, legend) && forall t :: t in TokensOf(s[1..]) ==> t in b.ordinal
    ensures AtomLen(LegendShape(legend.Keys), s) == AtomLen(LegendShape(legend.Keys), v)
  {
    var sh := LegendShape(legend.Keys);
    var n, m := AtomLen(sh, s), AtomLen(sh, v);
    if n > 0 {
      PlainTail(sh, s);
      PlainHeads(b, legend, s, v, rest, n);
      AtomCopied(sh, s, v, n);
    } else if m > 0 {
      PlainTail(sh, v);
      PlainHeads(b, legend, s, v, rest, m);
      AtomCopied(sh, v, s, m);
    }
  }

  lemma SameHead(s: string, v: string, n: nat)
    requires 0 < n && s != "" && v != "" && s[0] == v[0]
    requires n - 1 <= |s[1..]| && n - 1 <= |v[1..]| && s[1..][..n - 1] == v[1..][..n - 1]
    ensures s[..n] == v[..n]
  {
    JoinHead(s, n);
    JoinHead(v, n);
  }

  lemma FreeCons(sh: Shape, s: string)
    requires s != ""
    ensures AtomFree(sh, s) <==> AtomLen(sh, s) == 0 && AtomFree(sh, s[1..])
  {
    assert s[0..] == s;
    if AtomFree(sh, s) { AtomFreeSuffix(sh, s, 1); }
    if AtomLen(sh, s) == 0 && AtomFree(sh, s[1..]) {
      forall i | 0 <= i <= |s| ensures AtomLen(sh, s[i..]) == 0 {
        if i > 0 { assert s[i..] == s[1..][i - 1..]; }
      }
    }
  }

  /** In a token no legend placeholder starts. */
  lemma FreeBehindToken(b: Book, legend: map<string, string>, s: string, n: nat)
    requires Numbered(b) && Inverse(b, legend) && 0 < n == AtomLen(TokenShape, s)
    ensures AtomFree(LegendShape(legend.Keys), s) <==> AtomFree(LegendShape(legend.Keys), s[n..])
  {
    var sh := LegendShape(legend.Keys);
    if AtomFree(sh, s) { AtomFreeSuffix(sh, s, n); }
    if AtomFree(sh, s[n..]) {
      forall i | 0 <= i <= |s| ensures AtomLen(sh, s[i..]) == 0 {
        if i >= n {
          assert s[i..] == s[n..][i - n..];
        } else {
          NoLegendInToken(b, legend, s, n, i);
        }
      }
    }
  }

  lemma NotOpen(sh: Shape, s: string)
    requires s == "" || s[0] != Open(sh)
    ensures AtomLen(sh, s) == 0
  {
    var n := AtomLen(sh, s);
    if n > 0 { AtomEnclosed(sh, s[..n]); }
  }

  lemma EnclosedUnique(s: string, m: nat, n: nat)
    requires m <= |s| && n <= |s|
    ensures Enclosed('[', ']', s[..m]) && Enclosed('[', ']', s[..n]) ==> m == n
  {
    if 2 <= m <= n { assert s[..n][m - 1] == s[..m][m - 1]; }
    if 2 <= n <= m { assert s[..m][n - 1] == s[..n][n - 1]; }
  }

  lemma AtomSpaces(b: Book, legend: map<string, string>, s: string)
    requires Numbered(b) && Inverse(b, legend) && AtomLen(LegendShape(legend.Keys), s) > 0
    ensures var p := s[..AtomLen(LegendShape(legend.Keys), s)]; Enclosed('[', ']', p) && ' ' in p
  {
    PlaceholderIsAtom(b, legend, legend[s[..AtomLen(LegendShape(legend.Keys), s)]]);
  }

  lemma NoLegendInToken(b: Book, legend: map<string, string>, s: string, n: nat, i: nat)
    requires Numbered(b) && Inverse(b, legend) && i < n == AtomLen(TokenShape, s)
    ensures AtomLen(LegendShape(legend.Keys), s[i..]) == 0
  {
    var sh, t := LegendShape(legend.Keys), s[..n];
    AtomEnclosed(TokenShape, t);
    TokenNoSpace(t);
    assert s[i] == t[i];
    if i > 0 {
      NotOpen(sh, s[i..]);
    } else {
      assert s[i..] == s;
      EnclosedUnique(s, AtomLen(sh, s), n);
      if AtomLen(sh, s) > 0 { AtomSpaces(b, legend, s); }
    }
  }

  ghost predicate Restores(legend: map<string, string>, v: string, s: string) { Back(legend, v) == s }

  lemma BackAtom(legend: map<string, string>, v: string, p: string, rest: string)
    requires v == p + rest && IsAtom(LegendShape(legend.Keys), p)
    ensures Back(legend, v) == Named(legend, p) + Back(legend, rest)
  {
    var sh := LegendShape(legend.Keys);
    assert v[..|p|] == p && v[|p|..] == rest;
    AtomLenUnique(sh, v, |p|);
    ReSubStep(sh, q => Named(legend, q), v);
  }

  lemma BackChar(legend: map<string, string>, v: string)
    requires v != "" && AtomLen(LegendShape(legend.Keys), v) == 0
    ensures Back(legend, v) == v[..1] + Back(legend, v[1..])
  {
    ReSubStep(LegendShape(legend.Keys), q => Named(legend, q), v);
  }

  lemma SameTail(a: string, x: string, y: string)
    ensures a + x == a + y <==> x == y
  {
    assert (a + x)[|a|..] == x && (a + y)[|a|..] == y;
  }

  lemma RestoresToken(b: Book, legend: map<string, string>, s: string, v: string, t: string, rest: string)
    requires Numbered(b) && Inverse(b, legend) && t in b.ordinal && t <= s && v == b.ordinal[t] + rest
    ensures Restores(legend, v, s) <==> Restores(legend, rest, s[|t|..])
  {
    PlaceholderIsAtom(b, legend, t);
    BackAtom(legend, v, b.ordinal[t], rest);
    SameTail(t, Back(legend, rest), s[|t|..]);
    assert s == t + s[|t|..];
  }

  lemma RestoresPlain(legend: map<string, string>, s: string, v: string)
    requires s != "" && v != "" && s[0] == v[0] && AtomLen(LegendShape(legend.Keys), v) == 0
    ensures Restores(legend, v, s) <==> Restores(legend, v[1..], s[1..])
  {
    BackChar(legend, v);
    SameTail(s[..1], Back(legend, v[1..]), s[1..]);
    assert s == s[..1] + s[1..] && v[..1] == s[..1];
  }

  /** A placeholder of the text's own is turned into a token that was not there. */
  lemma RestoresNot(b: Book, legend: map<string, string>, s: string, v: string)
    requires Numbered(b) && Inverse(b, legend) && AtomLen(TokenShape, s) == 0
    requires AtomLen(LegendShape(legend.Keys), v) > 0
    ensures !Restores(legend, v, s)
  {
    BackOpens(b, legend, v);
  }

  lemma LegendHead(legend: map<string, string>, v: string) returns (p: string, rest: string)
    requires AtomLen(LegendShape(legend.Keys), v) > 0
    ensures v == p + rest && IsAtom(LegendShape(legend.Keys), p)
  {
    var n := AtomLen(LegendShape(legend.Keys), v);
    p, rest := v[..n], v[n..];
  }

  lemma BackOpens(b: Book, legend: map<string, string>, v: string)
    requires Numbered(b) && Inverse(b, legend) && AtomLen(LegendShape(legend.Keys), v) > 0
    ensures AtomLen(TokenShape, Back(legend, v)) > 0
  {
    var p, rest := LegendHead(legend, v);
    BackAtom(legend, v, p, rest);
    TokenInFront(legend[p], Back(legend, rest));
  }

  lemma TokenInFront(t: string, rest: string)
    requires IsToken(t)
    ensures AtomLen(TokenShape, t + rest) > 0
  {
    assert (t + rest)[..|t|] == t;
    AtomLenUnique(TokenShape, t + rest, |t|);
  }

  lemma {:induction false} LegendRestores(b: Book, legend: map<string, string>, s: string, v: string)
    requires v == View(b, s)
    requires Numbered(b) && Inverse(b, legend) && forall t :: t in TokensOf(s) ==> t in b.ordinal
    ensures Restores(legend, v, s) <==> AtomFree(LegendShape(legend.Keys), s)
    decreases |s|
  {
    var sh := LegendShape(legend.Keys);
    if s == "" {
      assert v == "" && s[0..] == "";
    } else {
      var t, rest := ViewRest(b, s, v);
      if AtomLen(TokenShape, s) > 0 {
        RestoresToken(b, legend, s, v, t, rest);
        FreeBehindToken(b, legend, s, |t|);
        LegendRestores(b, legend, s[|t|..], rest);
      } else {
        SameAtom(b, legend, s, v, rest);
        FreeCons(sh, s);
        if AtomLen(sh, s) == 0 {
          RestoresPlain(legend, s, v);
          LegendRestores(b, legend, s[1..], rest);
        } else {
          RestoresNot(b, legend, s, v);
        }
      }
    }
  }

  /** Putting the legend back into the view of any text restores the text exactly when
      it held no placeholder of the legend itself; and distinct tokens are shown
      differently. */
  lemma ViewRestores(s: string, legend: map<string, string>)
    requires Inverse(BookOf(s), legend)
    ensures Back(legend, View(BookOf(s), s)) == s <==> AtomFree(LegendShape(legend.Keys), s)
    ensures Distinct(BookOf(s)) && forall t :: t in TokensOf(s) ==> t in BookOf(s).ordinal
  {
    TokensAreTokens(s);
    NotesDistinct(Book(map[], map[]), TokensOf(s));
    LegendRestores(BookOf(s), legend, s, View(BookOf(s), s));
  }
}
