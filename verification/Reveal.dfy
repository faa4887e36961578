/** Taking foreign tokens apart before a run, and putting values back after it. */
module Reveal {
  import opened Lexer
  import opened Pieces
  import opened Mappings

  // ----- neutralise_foreign_tokens -----

  function Defused(t: string): string {
    if |t| < 2 then t else "(" + t[1..|t| - 1] + ")"
  }

  /** Every token `[LABEL:hash]` becomes `(LABEL:hash)`. */
  function Neutral(s: string): string { ReSub(TokenShape, Defused, s) }

  function TokenCount(s: string): nat
    decreases |s|
  {
    if s == "" then 0
    else (if AtomLen(TokenShape, s) > 0 then 1 else 0) + TokenCount(s[Span(TokenShape, s)..])
  }

  lemma TokenChars(t: string)
    requires IsToken(t)
    ensures |t| >= 2 && t[0] == '[' && t[|t| - 1] == ']'
    ensures forall k :: 0 < k < |t| - 1 ==> t[k] != '(' && t[k] != '['
  {
    forall k | 0 < k < |t| - 1 ensures t[k] != '(' && t[k] != '[' {
      if k < |t| - 2 - HASH_LEN {
        assert t[k] == t[1..|t| - 2 - HASH_LEN][k - 1];
      } else if k > |t| - 2 - HASH_LEN {
        assert t[k] == t[|t| - 1 - HASH_LEN..|t| - 1][k - (|t| - 1 - HASH_LEN)];
      }
    }
  }

  predicate Harmless(u: string) { u != "" && u[0] == '(' && '[' !in u }

  lemma DefusedChars(t: string)
    requires IsToken(t)
    ensures |Defused(t)| == |t| && Harmless(Defused(t))
    ensures Readable(t, Defused(t))
  {
    TokenChars(t);
  }

  /** What one step of the scan writes. */
  function Written(s: string): string
    requires s != ""
  {
    if AtomLen(TokenShape, s) > 0 then Defused(s[..Span(TokenShape, s)]) else s[..1]
  }

  lemma WrittenFacts(s: string)
    requires s != ""
    ensures |Written(s)| == Span(TokenShape, s) && Readable(s[..Span(TokenShape, s)], Written(s))
    ensures AtomLen(TokenShape, s) > 0 ==> Harmless(Written(s))
  {
    if AtomLen(TokenShape, s) > 0 { DefusedChars(s[..Span(TokenShape, s)]); }
  }

  lemma Rejoined(s: string, m: nat, all: string, rest: string)
    requires m <= |s|
    ensures s[..m] + s[m..] == s
    ensures all == s[..m] + rest && rest == s[m..] ==> all == s
  {}

  lemma WrittenNext(s: string)
    requires s != ""
    ensures Neutral(s) == Written(s) + Neutral(s[Span(TokenShape, s)..])
  {
    ReSubStep(TokenShape, Defused, s);
  }

  /** The scan of `Neutral`, one step: its first chunk, and what becomes of it. */
  lemma NeutralStep(s: string) returns (t: string, u: string, rest: string)
    requires s != ""
    ensures t == s[..Span(TokenShape, s)] && rest == s[Span(TokenShape, s)..] && s == t + rest
    ensures u == Written(s) && |u| == |t| > 0 && Neutral(s) == u + Neutral(rest) && Readable(t, u)
    ensures Harmless(u) || (|t| == 1 && u == t && AtomLen(TokenShape, s) == 0)
  {
    t, u, rest := s[..Span(TokenShape, s)], Written(s), s[Span(TokenShape, s)..];
    Rejoined(s, |t|, s, rest);
    WrittenNext(s);
    WrittenFacts(s);
  }

  /** Characters without a parenthesis were plain characters of the input. */
  lemma {:induction false} NeutralPlain(s: string, m: nat)
    requires m <= |Neutral(s)|
    requires forall k :: 0 <= k < m ==> Neutral(s)[k] != '('
    ensures m <= |s| && s[..m] == Neutral(s)[..m]
    decreases |s|
  {
    if m > 0 {
      var t, u, rest := NeutralStep(s);
      var o := Neutral(s);
      assert o[0] == u[0];
      assert o[1..] == Neutral(rest);
      assert forall k :: 0 <= k < m - 1 ==> o[1..][k] == o[k + 1];
      NeutralPlain(rest, m - 1);
      assert s[..m] == t + rest[..m - 1];
      assert o[..m] == t + Neutral(rest)[..m - 1];
    }
  }

  lemma NeutralHead(s: string)
    requires s != ""
    ensures AtomLen(TokenShape, Neutral(s)) == 0
  {
    var o := Neutral(s);
    var m := AtomLen(TokenShape, o);
    if m > 0 {
      TokenChars(o[..m]);
      assert forall k :: 0 <= k < m ==> o[k] == o[..m][k];
      NeutralPlain(s, m);
      AtomLenUnique(TokenShape, s, m);
      var t, u, rest := NeutralStep(s);
    }
  }

  lemma NoBracketNoAtom(s: string)
    requires s == "" || s[0] != '['
    ensures AtomLen(TokenShape, s) == 0
  {
    var n := AtomLen(TokenShape, s);
    if n > 0 { TokenChars(s[..n]); }
  }

  /** No token survives, and taking tokens apart builds none. */
  lemma {:induction false} NeutralIsFree(s: string)
    ensures AtomFree(TokenShape, Neutral(s))
    decreases |s|
  {
    var o := Neutral(s);
    if s == "" {
      assert o[0..] == "";
    } else {
      var t, u, rest := NeutralStep(s);
      NeutralIsFree(rest);
      NeutralHead(s);
      forall i | 0 <= i <= |o| ensures AtomLen(TokenShape, o[i..]) == 0 {
        if i == 0 {
          assert o[0..] == o;
        } else if i < |u| {
          assert o[i..][0] == u[i];
          NoBracketNoAtom(o[i..]);
        } else {
          assert o[i..] == Neutral(rest)[i - |u|..];
        }
      }
    }
  }

  /** Text without tokens passes through unchanged; so a second run changes
      nothing. */
  lemma {:induction false} NeutralKeepsFree(s: string)
    requires AtomFree(TokenShape, s)
    ensures Neutral(s) == s && TokenCount(s) == 0
    decreases |s|
  {
    if s != "" {
      assert s[0..] == s;
      var t, u, rest := NeutralStep(s);
      AtomFreeSuffix(TokenShape, s, 1);
      NeutralKeepsFree(rest);
    }
  }

  /** Equal up to brackets turned into parentheses. */
  predicate Readable(a: string, b: string) {
    |a| == |b| && forall k :: 0 <= k < |a| ==> b[k] == a[k] || (a[k], b[k]) in {('[', '('), (']', ')')}
  }

  lemma ReadableConcat(a: string, a': string, b: string, b': string)
    requires Readable(a, b) && Readable(a', b')
    ensures Readable(a + a', b + b')
  {}

  /** Only the brackets of tokens change: the content stays readable. */
  lemma {:induction false} NeutralReadable(s: string)
    ensures Readable(s, Neutral(s))
    decreases |s|
  {
    if s != "" {
      var t, u, rest := NeutralStep(s);
      NeutralReadable(rest);
      ReadableConcat(t, rest, u, Neutral(rest));
    }
  }

  /** One round of the loop. */
  lemma NeutralNext(out: string, s: string)
    requires s != ""
    ensures var n := AtomLen(TokenShape, s);
            if n > 0 then
              && (out + Defused(s[..n])) + Neutral(s[n..]) == out + Neutral(s)
              && TokenCount(s) == 1 + TokenCount(s[n..])
            else
              && (out + s[..1]) + Neutral(s[1..]) == out + Neutral(s)
              && TokenCount(s) == TokenCount(s[1..])
  {
    var t, u, rest := NeutralStep(s);
    Assoc(out, u, Neutral(rest));
  }

  method NeutraliseForeignTokens(text: string) returns (out: string, count: nat)
    ensures out == Neutral(text) && count == TokenCount(text)
    ensures AtomFree(TokenShape, out)
  {
    out, count := "", 0;
    var rest := text;
    while rest != ""
      invariant out + Neutral(rest) == Neutral(text)
      invariant count + TokenCount(rest) == TokenCount(text)
      decreases |rest|
    {
      NeutralNext(out, rest);
      var n := AtomLen(TokenShape, rest);
      if n > 0 {
        count := count + 1;
        out := out + Defused(rest[..n]);
        rest := rest[n..];
      } else {
        out := out + rest[..1];
        rest := rest[1..];
      }
    }
    NeutralIsFree(text);
  }

  // ----- _reveal -----

  /** The three gates of a reveal: the document's own tokens, the granted types
      (`None`: not checked), and what the store and the keys resolve. */
  datatype Gate = Gate(registered: Option<set<string>>, allowed: Option<set<string>>,
                       d: map<string, Mapping>, keys: map<string, Key>)

  /** The PII type a token carries. */
  function LabelIn(t: string): string {
    var k := FirstIndex(':', t);
    if 1 <= k then t[1..k] else ""
  }

  predicate Passes(g: Gate, t: string) {
    && (g.registered.Some? ==> t in g.registered.value)
    && (g.allowed.Some? ==> LabelIn(t) in g.allowed.value)
    && t in g.d && g.d[t].keyId in g.keys
  }

  /** The value a token opens to, if every gate lets it through. */
  function Shows(g: Gate, t: string): Option<string> {
    if Passes(g, t) then Opened(g.d, g.keys, t) else None
  }

  function Shown(g: Gate, t: string): string {
    match Shows(g, t) case Some(v) => v case None => t
  }

  /** A row that does not open under the key it names: decryption raises. */
  predicate Breaks(g: Gate, t: string) { Passes(g, t) && Shows(g, t).None? }

  function RevealText(g: Gate, s: string): string { ReSub(TokenShape, t => Shown(g, t), s) }

  /** The tokens of `s`, in order. */
  function TokensOf(s: string): seq<string>
    decreases |s|
  {
    if s == "" then []
    else
      var m := Span(TokenShape, s);
      (if AtomLen(TokenShape, s) > 0 then [s[..m]] else []) + TokensOf(s[m..])
  }

  function RevealedIn(g: Gate, ts: seq<string>): seq<string> {
    if ts == [] then []
    else (if Shows(g, ts[0]).Some? then [ts[0]] else []) + RevealedIn(g, ts[1..])
  }

  /** One step of the reveal. */
  lemma RevealStep(g: Gate, s: string)
    requires s != ""
    ensures var m := Span(TokenShape, s);
            var t := s[..m];
            if AtomLen(TokenShape, s) > 0 then
              && RevealText(g, s) == Shown(g, t) + RevealText(g, s[m..])
              && TokensOf(s) == [t] + TokensOf(s[m..])
            else
              && RevealText(g, s) == t + RevealText(g, s[m..])
              && TokensOf(s) == TokensOf(s[m..])
  {
    ReSubStep(TokenShape, t => Shown(g, t), s);
  }

  predicate NoneBreaks(g: Gate, ts: seq<string>) {
    ts == [] || (!Breaks(g, ts[0]) && NoneBreaks(g, ts[1..]))
  }

  lemma TokenCons(g: Gate, t: string, ts: seq<string>)
    ensures RevealedIn(g, [t] + ts) == (if Shows(g, t).Some? then [t] else []) + RevealedIn(g, ts)
    ensures NoneBreaks(g, [t] + ts) == (!Breaks(g, t) && NoneBreaks(g, ts))
  {
    assert ([t] + ts)[1..] == ts;
  }

  lemma {:induction false} CountIsTokens(s: string)
    ensures TokenCount(s) == |TokensOf(s)|
    decreases |s|
  {
    if s != "" { CountIsTokens(s[Lexer.Span(TokenShape, s)..]); }
  }

  // ----- what the gates let through -----

  /** The document registered the token, and its type is granted. */
  predicate Granted(g: Gate, t: string) {
    && (g.registered.Some? ==> t in g.registered.value)
    && (g.allowed.Some? ==> LabelIn(t) in g.allowed.value)
  }

  /** The type is what stands between the bracket and the colon. */
  lemma LabelInside(t: string)
    requires IsToken(t)
    ensures t[1..|t| - 2 - HASH_LEN] == LabelIn(t)
  {
    var c := |t| - 2 - HASH_LEN;
    forall k | 0 <= k < c ensures t[k] != ':' {
      if k > 0 { assert LabelChar(t[1..c][k - 1]); }
    }
    assert FirstIndex(':', t) == c;
  }

  /** `t` stands at `i`, and is a token. */
  predicate TokenStands(s: string, i: nat, t: string) { i + |t| <= |s| && s[i..i + |t|] == t && IsToken(t) }

  lemma TokenHere(s: string, i: nat, t: string)
    requires TokenStands(s, i, t)
    ensures AtomLen(TokenShape, s[i..]) == |t| && s[i..][..|t|] == t && s[i..][|t|..] == s[i + |t|..]
  {
    assert s[i..][..|t|] == t;
    AtomLenUnique(TokenShape, s[i..], |t|);
  }

  /** In front of a token the scan reads as if the text ended there. */
  lemma FrontAtom(s: string, i: nat)
    requires 0 < i <= |s| && AtomLen(TokenShape, s[i..]) > 0
    ensures AtomLen(TokenShape, s[..i]) == AtomLen(TokenShape, s) <= i
  {
    var n := AtomLen(TokenShape, s);
    if i < n { NoAtomInside(TokenShape, s, i); }
    if n > 0 {
      assert s[..i][..n] == s[..n];
      AtomLenUnique(TokenShape, s[..i], n);
    } else {
      PrefixAtom(TokenShape, s, s[..i]);
    }
  }

  /** What a scan makes of a text: each token by `f`, the rest as it is; and the tokens. */
  ghost predicate Parts(g: Gate, s: string, a: string, b: string) {
    RevealText(g, s) == RevealText(g, a) + RevealText(g, b) && TokensOf(s) == TokensOf(a) + TokensOf(b)
  }

  lemma PartsCons(g: Gate, s: string, a: string, b: string, m: nat)
    requires s != "" && a != "" && m == Lexer.Span(TokenShape, s) == Lexer.Span(TokenShape, a) && s[..m] == a[..m]
    requires (AtomLen(TokenShape, s) > 0) == (AtomLen(TokenShape, a) > 0) && Parts(g, s[m..], a[m..], b)
    ensures Parts(g, s, a, b)
  {
    RevealStep(g, s);
    RevealStep(g, a);
    var t := s[..m];
    Assoc(Shown(g, t), RevealText(g, a[m..]), RevealText(g, b));
    Assoc(t, RevealText(g, a[m..]), RevealText(g, b));
    Assoc([t], TokensOf(a[m..]), TokensOf(b));
  }

  lemma PartsStart(g: Gate, s: string)
    ensures Parts(g, s, "", s)
  {
    assert "" + RevealText(g, s) == RevealText(g, s) && [] + TokensOf(s) == TokensOf(s);
  }

  /** The first lexeme of a text and of what stands in front of one of its tokens. */
  lemma FrontStep(s: string, i: nat) returns (m: nat)
    requires 0 < i <= |s| && AtomLen(TokenShape, s[i..]) > 0
    ensures m == Lexer.Span(TokenShape, s) == Lexer.Span(TokenShape, s[..i]) && 0 < m <= i
    ensures s[..m] == s[..i][..m] && s[m..][..i - m] == s[..i][m..] && s[m..][i - m..] == s[i..]
    ensures (AtomLen(TokenShape, s) > 0) == (AtomLen(TokenShape, s[..i]) > 0)
  {
    FrontAtom(s, i);
    m := Lexer.Span(TokenShape, s);
    DropDrop(s, m, i);
  }

  /** A scan starts afresh at a token. */
  lemma {:induction false} AtToken(g: Gate, s: string, i: nat, a: string, b: string)
    requires i <= |s| && a == s[..i] && b == s[i..] && AtomLen(TokenShape, b) > 0
    ensures Parts(g, s, a, b)
    decreases i
  {
    if i == 0 {
      PartsStart(g, s);
    } else {
      var m := FrontStep(s, i);
      AtToken(g, s[m..], i - m, a[m..], b);
      PartsCons(g, s, a, b, m);
    }
  }

  /** What neutralising makes of a text, and what it counts, in two parts. */
  ghost predicate NeutralParts(s: string, a: string, b: string) {
    Neutral(s) == Neutral(a) + Neutral(b) && TokenCount(s) == TokenCount(a) + TokenCount(b)
  }

  lemma NeutralPartsCons(s: string, a: string, b: string, m: nat)
    requires s != "" && a != "" && m == Lexer.Span(TokenShape, s) == Lexer.Span(TokenShape, a) && s[..m] == a[..m]
    requires (AtomLen(TokenShape, s) > 0) == (AtomLen(TokenShape, a) > 0) && NeutralParts(s[m..], a[m..], b)
    ensures NeutralParts(s, a, b)
  {
    WrittenNext(s);
    WrittenNext(a);
    assert s[..1] == s[..m][..1] && a[..1] == a[..m][..1];
    Assoc(Written(s), Neutral(a[m..]), Neutral(b));
  }

  lemma {:induction false} NeutralSplit(s: string, i: nat, a: string, b: string)
    requires i <= |s| && a == s[..i] && b == s[i..] && AtomLen(TokenShape, b) > 0
    ensures NeutralParts(s, a, b)
    decreases i
  {
    if i == 0 {
      assert "" + Neutral(s) == Neutral(s) && b == s && a == "";
    } else {
      var m := FrontStep(s, i);
      NeutralSplit(s[m..], i - m, a[m..], b);
      NeutralPartsCons(s, a, b, m);
    }
  }

  /** Whatever else the text holds: of each token of it the brackets become round, and it is
      counted once. */
  lemma NeutralAt(s: string, i: nat, t: string)
    requires TokenStands(s, i, t)
    ensures Neutral(s) == Neutral(s[..i]) + ("(" + t[1..|t| - 1] + ")") + Neutral(s[i + |t|..])
    ensures TokenCount(s) == TokenCount(s[..i]) + 1 + TokenCount(s[i + |t|..])
  {
    TokenHere(s, i, t);
    NeutralSplit(s, i, s[..i], s[i..]);
    WrittenNext(s[i..]);
    Assoc(Neutral(s[..i]), Defused(t), Neutral(s[i + |t|..]));
  }

  /** Whatever else the text holds: a token of it is replaced by its value exactly when the
      document registered it, its type is granted, and its row opens under the key it names;
      otherwise it stays where it stands. */
  lemma RevealAt(g: Gate, s: string, i: nat, t: string)
    requires TokenStands(s, i, t)
    ensures RevealText(g, s)
         == RevealText(g, s[..i])
            + (if (g.registered.Some? ==> t in g.registered.value)
                  && (g.allowed.Some? ==> t[1..|t| - 2 - HASH_LEN] in g.allowed.value)
                  && t in g.d && g.d[t].keyId in g.keys && g.keys[g.d[t].keyId].material == g.d[t].cipher.material
               then g.d[t].cipher.plain else t)
            + RevealText(g, s[i + |t|..])
  {
    TokenHere(s, i, t);
    LabelInside(t);
    AtToken(g, s, i, s[..i], s[i..]);
    RevealStep(g, s[i..]);
    Assoc(RevealText(g, s[..i]), Shown(g, t), RevealText(g, s[i + |t|..]));
  }

  /** The tokens of a text are those that stand in it. */
  lemma TokensStand(s: string, t: string)
    ensures t in TokensOf(s) <==> exists i: nat :: TokenStands(s, i, t)
  {
    if t in TokensOf(s) { var i := TokenPlace(s, t); }
    if exists i: nat :: TokenStands(s, i, t) {
      var i: nat :| TokenStands(s, i, t);
      TokenHere(s, i, t);
      AtToken(Gate(None, None, map[], map[]), s, i, s[..i], s[i..]);
    }
  }

  lemma StandsLater(s: string, m: nat, i: nat, t: string)
    requires m <= |s| && TokenStands(s[m..], i, t)
    ensures TokenStands(s, i + m, t)
  {
    assert s[m..][i..i + |t|] == s[i + m..i + m + |t|];
  }

  lemma {:induction false} TokenPlace(s: string, t: string) returns (i: nat)
    requires t in TokensOf(s)
    ensures TokenStands(s, i, t)
    decreases |s|
  {
    var m := Lexer.Span(TokenShape, s);
    if AtomLen(TokenShape, s) > 0 && t == s[..m] {
      i := 0;
    } else {
      i := TokenPlace(s[m..], t);
      StandsLater(s, m, i, t);
      i := i + m;
    }
  }

  lemma {:induction false} RevealedAre(g: Gate, ts: seq<string>)
    ensures forall t :: t in RevealedIn(g, ts) <==> t in ts && Shows(g, t).Some?
    ensures NoneBreaks(g, ts) <==> forall t :: t in ts ==> !Breaks(g, t)
  {
    if ts != [] {
      RevealedAre(g, ts[1..]);
      assert forall t :: t in ts <==> t == ts[0] || t in ts[1..];
    }
  }

  lemma NotShown(g: Gate, t: string)
    requires !Granted(g, t)
    ensures Shown(g, t) == t && Shows(g, t).None? && !Breaks(g, t)
  {}

  lemma TokensTail(s: string, m: nat)
    requires s != "" && m == Lexer.Span(TokenShape, s)
    ensures forall u :: u in TokensOf(s[m..]) ==> u in TokensOf(s)
    ensures AtomLen(TokenShape, s) > 0 ==> s[..m] in TokensOf(s)
  {
    if AtomLen(TokenShape, s) > 0 { assert TokensOf(s)[0] == s[..m]; }
  }

  lemma ShownSame(g: Gate, s: string, m: nat)
    requires s != "" && m == Lexer.Span(TokenShape, s) && RevealText(g, s[m..]) == s[m..]
    requires AtomLen(TokenShape, s) > 0 ==> Shown(g, s[..m]) == s[..m]
    ensures RevealText(g, s) == s
  {
    RevealStep(g, s);
    Rejoined(s, m, RevealText(g, s), RevealText(g, s[m..]));
  }

  lemma {:induction false} NothingShown(g: Gate, s: string)
    requires forall t :: t in TokensOf(s) ==> !Granted(g, t)
    ensures RevealText(g, s) == s
    decreases |s|
  {
    if s != "" {
      var m := Lexer.Span(TokenShape, s);
      TokensTail(s, m);
      if AtomLen(TokenShape, s) > 0 { NotShown(g, s[..m]); }
      NothingShown(g, s[m..]);
      ShownSame(g, s, m);
    }
  }

  /** What a reveal reports: only tokens of the text that the document registered, whose type is
      granted, and whose row opens; and all of them, when it comes to its end. */
  ghost predicate Discloses(g: Gate, text: string, r: Option<string>, revealed: seq<string>) {
    && (forall t :: t in revealed ==>
          && t in TokensOf(text) && Granted(g, t) && t in g.d && g.d[t].keyId in g.keys
          && g.keys[g.d[t].keyId].material == g.d[t].cipher.material)
    && (r.Some? ==> forall t ::
          t in TokensOf(text) && Granted(g, t) && t in g.d && g.d[t].keyId in g.keys ==> t in revealed)
  }

  lemma RevealDiscloses(g: Gate, text: string, r: Option<string>, revealed: seq<string>)
    requires revealed <= RevealedIn(g, TokensOf(text)) && (r.Some? ==> NoneBreaks(g, TokensOf(text)))
    requires r.Some? ==> revealed == RevealedIn(g, TokensOf(text))
    ensures Discloses(g, text, r, revealed)
  {
    var ts := TokensOf(text);
    RevealedAre(g, ts);
    forall t | t in revealed ensures t in ts && Shows(g, t).Some? { assert t in RevealedIn(g, ts); }
  }

  /** They are reported in the order of the text. */
  lemma {:induction false} RevealedInOrder(g: Gate, a: seq<string>, b: seq<string>)
    ensures RevealedIn(g, a + b) == RevealedIn(g, a) + RevealedIn(g, b)
  {
    if a == [] {
      assert a + b == b && [] + RevealedIn(g, b) == RevealedIn(g, b);
    } else {
      RevealedInOrder(g, a[1..], b);
      assert a + b == [a[0]] + (a[1..] + b);
      TokenCons(g, a[0], a[1..] + b);
      Assoc(if Shows(g, a[0]).Some? then [a[0]] else [], RevealedIn(g, a[1..]), RevealedIn(g, b));
    }
  }

  lemma FirstIn(ts: seq<string>)
    ensures ts == [] || ts[0] in ts
  {}

  /** Where nothing is granted nothing changes. */
  lemma NothingGranted(g: Gate, text: string)
    requires forall t :: t in TokensOf(text) ==> !Granted(g, t)
    ensures NoneBreaks(g, TokensOf(text)) && RevealText(g, text) == text && RevealedIn(g, TokensOf(text)) == []
  {
    var ts := TokensOf(text);
    forall t | t in ts ensures Shows(g, t).None? && !Breaks(g, t) { NotShown(g, t); }
    RevealedAre(g, ts);
    NothingShown(g, text);
    FirstIn(RevealedIn(g, ts));
  }

  /** The replacement of one token: `None` when its row does not decrypt. */
  method RevealToken(t: string, g: Gate) returns (r: Option<string>, hit: bool)
    ensures r == if Breaks(g, t) then None else Some(Shown(g, t))
    ensures hit <==> Shows(g, t).Some?
  {
    if g.registered.Some? && t !in g.registered.value { return Some(t), false; }
    if g.allowed.Some? && LabelIn(t) !in g.allowed.value { return Some(t), false; }
    if t !in g.d { return Some(t), false; }
    if g.d[t].keyId !in g.keys { return Some(t), false; }
    r := Decrypt(g.keys[g.d[t].keyId].material, g.d[t].cipher);
    hit := r.Some?;
  }

  /** Replaces each token that passes the gates; raises on a row that does not
      decrypt. The revealed tokens are reported in order. */
  method Reveal(text: string, g: Gate) returns (r: Option<string>, revealed: seq<string>)
    ensures r.Some? <==> NoneBreaks(g, TokensOf(text))
    ensures r.Some? ==> r.value == RevealText(g, text) && revealed == RevealedIn(g, TokensOf(text))
    ensures Discloses(g, text, r, revealed)
    ensures (forall t :: t in TokensOf(text) ==> !Granted(g, t)) ==> r == Some(text) && revealed == []
  {
    if forall t :: t in TokensOf(text) ==> !Granted(g, t) { NothingGranted(g, text); }
    var out, rest := "", text;
    revealed := [];
    while rest != ""
      invariant NoneBreaks(g, TokensOf(rest)) == NoneBreaks(g, TokensOf(text))
      invariant out + RevealText(g, rest) == RevealText(g, text)
      invariant revealed + RevealedIn(g, TokensOf(rest)) == RevealedIn(g, TokensOf(text))
      decreases |rest|
    {
      RevealStep(g, rest);
      var n := AtomLen(TokenShape, rest);
      if n == 0 {
        Assoc(out, rest[..1], RevealText(g, rest[1..]));
        out := out + rest[..1];
        rest := rest[1..];
      } else {
        var t := rest[..n];
        TokenCons(g, t, TokensOf(rest[n..]));
        var shown, hit := RevealToken(t, g);
        if shown.None? {
          RevealDiscloses(g, text, None, revealed);
          return None, revealed;
        }
        Assoc(out, Shown(g, t), RevealText(g, rest[n..]));
        Assoc(revealed, if hit then [t] else [], RevealedIn(g, TokensOf(rest[n..])));
        if hit { revealed := revealed + [t]; }
        out := out + shown.value;
        rest := rest[n..];
      }
    }
    r := Some(out);
    RevealDiscloses(g, text, r, revealed);
  }

  // ----- revealing pieces -----

  /** The pieces after a reveal: an opened token is plain text again. */
  function OpenPieces(g: Gate, ps: seq<Piece>): seq<Piece> {
    if ps == [] then []
    else (if ps[0].Tok? && Shows(g, ps[0].p).Some? then Plain(Shown(g, ps[0].p)) else [ps[0]])
         + OpenPieces(g, ps[1..])
  }

  /** Every token the gate opens carries the spelling this text had. */
  ghost predicate Exact(g: Gate, ps: seq<Piece>) {
    forall k :: 0 <= k < |ps| && ps[k].Tok? && Shows(g, ps[k].p).Some? ==> Shown(g, ps[k].p) == ps[k].v
  }

  lemma {:induction false} MapPieces(g: Gate, ps: seq<Piece>)
    ensures MapFlat(t => Shown(g, t), Lexemes(ps)) == Render(OpenPieces(g, ps))
  {
    if ps != [] {
      LexemesTail(ps);
      MapPieces(g, ps[1..]);
      if ps[0].Tok? && Shows(g, ps[0].p).Some? {
        var w := Shown(g, ps[0].p);
        PlainRender(w);
        RenderConcat(Plain(w), OpenPieces(g, ps[1..]));
      }
    }
  }

  /** A reveal of assembled text acts on its pieces, one by one. */
  lemma RevealPieces(g: Gate, ps: seq<Piece>)
    requires Clean(ps)
    ensures RevealText(g, Render(ps)) == Render(OpenPieces(g, ps))
  {
    CleanCanonical(ps);
    FlatLexemes(ps);
    ReSubFlat(TokenShape, t => Shown(g, t), Lexemes(ps));
    MapPieces(g, ps);
  }

  /** Exactly then no revealed value joins its surroundings into a token: what a scan of the
      revealed text sees are the pieces the reveal left. */
  lemma RevealReadsBack(g: Gate, ps: seq<Piece>)
    requires Clean(ps)
    ensures var qs := OpenPieces(g, ps);
            Lex(TokenShape, RevealText(g, Render(ps))) == Lexemes(qs) <==> Canonical(TokenShape, Lexemes(qs))
  {
    var qs := OpenPieces(g, ps);
    RevealPieces(g, ps);
    FlatLexemes(qs);
    LexCanonical(TokenShape, Render(qs));
    if Canonical(TokenShape, Lexemes(qs)) { LexOfFlat(TokenShape, Lexemes(qs)); }
  }

  lemma {:induction false} OpenKeepsSource(g: Gate, ps: seq<Piece>)
    requires Exact(g, ps)
    ensures Source(OpenPieces(g, ps)) == Source(ps)
  {
    if ps != [] {
      OpenKeepsSource(g, ps[1..]);
      if ps[0].Tok? && Shows(g, ps[0].p).Some? {
        var w := Shown(g, ps[0].p);
        PlainRender(w);
        RenderConcat(Plain(w), OpenPieces(g, ps[1..]));
      }
    }
  }

  lemma {:induction false} OpenWellFormed(g: Gate, ps: seq<Piece>)
    requires WellFormed(ps)
    ensures WellFormed(OpenPieces(g, ps))
    ensures forall q :: q in OpenPieces(g, ps) && q.Tok? ==> q in ps && Shows(g, q.p).None?
  {
    if ps != [] {
      OpenWellFormed(g, ps[1..]);
    }
  }

  /** With exact spellings, no revealed value joins its surroundings into a new
      token: what a reveal leaves is again clean text over the same source. */
  lemma RevealStaysClean(g: Gate, ps: seq<Piece>)
    requires Clean(ps) && Exact(g, ps)
    ensures Clean(OpenPieces(g, ps)) && Source(OpenPieces(g, ps)) == Source(ps)
  {
    OpenKeepsSource(g, ps);
    OpenWellFormed(g, ps);
  }

  lemma {:induction false} OpenPlain(g: Gate, v: string, qs: seq<Piece>)
    ensures OpenPieces(g, Plain(v) + qs) == Plain(v) + OpenPieces(g, qs)
  {
    if v == "" {
      assert Plain(v) + qs == qs && Plain(v) + OpenPieces(g, qs) == OpenPieces(g, qs);
    } else {
      OpenPlain(g, v[1..], qs);
      var head := [Raw(v[0])];
      assert Plain(v) == head + Plain(v[1..]);
      var all := Plain(v) + qs;
      assert all == head + (Plain(v[1..]) + qs);
      assert all[1..] == Plain(v[1..]) + qs;
      assert OpenPieces(g, all) == head + OpenPieces(g, all[1..]);
    }
  }

  /** The same gate, for other types. */
  function ForTypes(g: Gate, types: set<string>): Gate { g.(allowed := Some(types)) }

  lemma {:induction false} OpenTwice(g: Gate, a: set<string>, b: set<string>, ps: seq<Piece>)
    ensures OpenPieces(ForTypes(g, b), OpenPieces(ForTypes(g, a), ps)) == OpenPieces(ForTypes(g, a + b), ps)
  {
    if ps != [] {
      OpenTwice(g, a, b, ps[1..]);
      var ga, gb := ForTypes(g, a), ForTypes(g, b);
      var rest := OpenPieces(ga, ps[1..]);
      if ps[0].Tok? && Shows(ga, ps[0].p).Some? {
        OpenPlain(gb, Shown(ga, ps[0].p), rest);
      } else {
        assert ([ps[0]] + rest)[1..] == rest;
      }
    }
  }

  /** Reveals compose: types `a`, then types `b`, is `a` and `b` at once. */
  lemma RevealsCompose(g: Gate, a: set<string>, b: set<string>, ps: seq<Piece>)
    requires Clean(ps) && Exact(ForTypes(g, a), ps)
    ensures RevealText(ForTypes(g, b), RevealText(ForTypes(g, a), Render(ps)))
         == RevealText(ForTypes(g, a + b), Render(ps))
  {
    RevealPieces(ForTypes(g, a), ps);
    RevealStaysClean(ForTypes(g, a), ps);
    RevealPieces(ForTypes(g, b), OpenPieces(ForTypes(g, a), ps));
    OpenTwice(g, a, b, ps);
    RevealPieces(ForTypes(g, a + b), ps);
  }

  /** When every token opens to its own spelling, the reveal is the source. */
  lemma RevealRestores(g: Gate, ps: seq<Piece>)
    requires Clean(ps) && Exact(g, ps)
    requires forall k :: 0 <= k < |ps| && ps[k].Tok? ==> Shows(g, ps[k].p).Some?
    ensures RevealText(g, Render(ps)) == Source(ps)
  {
    RevealPieces(g, ps);
    RevealStaysClean(g, ps);
    OpenWellFormed(g, ps);
    var qs := OpenPieces(g, ps);
    AllRaw(qs);
  }

  lemma {:induction false} AllRaw(qs: seq<Piece>)
    requires forall k :: 0 <= k < |qs| ==> qs[k].Raw?
    ensures Render(qs) == Source(qs)
  {
    if qs != [] { AllRaw(qs[1..]); }
  }
}
