/** Long texts go to the detector in bounded chunks, and the spans it finds come back
    as spans of the whole text. */
module Chunks {

  // ----- lines -----

  predicate IsBreak(c: char) { c in "\n\r\U{000B}\U{000C}\U{001C}\U{001D}\U{001E}\U{0085}\U{2028}\U{2029}" }

  /** The length of the first line with its break; a carriage return and a line feed
      are one break. */
  function LineLen(s: string): (n: nat)
    requires s != ""
    ensures 0 < n <= |s|
  {
    if s[0] == '\r' && |s| > 1 && s[1] == '\n' then 2
    else if IsBreak(s[0]) || |s| == 1 then 1
    else 1 + LineLen(s[1..])
  }

  /** `splitlines(keepends=True)`. */
  function SplitLines(s: string): (ls: seq<string>)
    ensures forall k :: 0 <= k < |ls| ==> ls[k] != ""
    decreases |s|
  {
    if s == "" then [] else [s[..LineLen(s)]] + SplitLines(s[LineLen(s)..])
  }

  predicate EndsLine(s: string) { s != "" && IsBreak(s[|s| - 1]) }

  /** A break only at the end. */
  predicate OneLine(s: string) {
    forall k :: 0 <= k < |s| - 1 && IsBreak(s[k]) ==> k == |s| - 2 && s[k] == '\r' && s[k + 1] == '\n'
  }

  lemma {:induction false} FirstLine(s: string)
    requires s != ""
    ensures OneLine(s[..LineLen(s)]) && (LineLen(s) < |s| ==> EndsLine(s[..LineLen(s)]))
  {
    if !(s[0] == '\r' && |s| > 1 && s[1] == '\n') && !IsBreak(s[0]) && |s| > 1 {
      FirstLine(s[1..]);
      var line, tail := s[..LineLen(s)], s[1..][..LineLen(s[1..])];
      assert forall k :: 0 < k < |line| ==> line[k] == tail[k - 1];
    }
  }

  /** Each is one line, and only the last may go without a break. */
  ghost predicate Lines(ls: seq<string>) {
    && (forall k :: 0 <= k < |ls| ==> ls[k] != "" && OneLine(ls[k]))
    && forall k :: 0 <= k < |ls| - 1 ==> EndsLine(ls[k])
  }

  lemma {:induction false} SplitIsLines(s: string)
    ensures Lines(SplitLines(s))
    decreases |s|
  {
    if s != "" {
      FirstLine(s);
      SplitIsLines(s[LineLen(s)..]);
    }
  }

  function Flatten(ss: seq<string>): string { if ss == [] then "" else ss[0] + Flatten(ss[1..]) }

  lemma {:induction false} SplitFlatten(s: string)
    ensures Flatten(SplitLines(s)) == s
    decreases |s|
  {
    if s != "" {
      SplitFlatten(s[LineLen(s)..]);
      assert s == s[..LineLen(s)] + s[LineLen(s)..];
    }
  }

  lemma {:induction false} FlattenConcat(a: seq<string>, b: seq<string>)
    ensures Flatten(a + b) == Flatten(a) + Flatten(b)
  {
    if a == [] {
      assert a + b == b;
    } else {
      assert (a + b)[1..] == a[1..] + b;
      FlattenConcat(a[1..], b);
    }
  }

  lemma FlattenPush(a: seq<string>, s: string)
    ensures Flatten(a + [s]) == Flatten(a) + s
  {
    FlattenConcat(a, [s]);
    assert [s][1..] == [];
    assert Flatten([s]) == s + Flatten([]);
  }

  // ----- chunks -----

  ghost predicate Bounded(chunks: seq<string>, max: int) {
    forall k :: 0 <= k < |chunks| ==> 0 < |chunks[k]| <= max
  }

  /** No two neighbours would fit together. */
  ghost predicate Tight(chunks: seq<string>, max: int) {
    forall k :: 0 < k < |chunks| ==> |chunks[k - 1]| + |chunks[k]| > max
  }

  /** A chunk ends where a line does, unless it is a full piece of one line. */
  predicate WellCut(c: string, max: int) { EndsLine(c) || (|c| == max && forall k :: 0 <= k < |c| ==> !IsBreak(c[k])) }

  ghost predicate AllCut(chunks: seq<string>, max: int) { forall k :: 0 <= k < |chunks| ==> WellCut(chunks[k], max) }

  lemma PieceCut(line: string, max: int)
    requires OneLine(line) && 0 < max < |line|
    ensures WellCut(line[..max], max) && OneLine(line[max..]) && (EndsLine(line) ==> EndsLine(line[max..]))
  {}

  /** The chunks so far, with the one being filled. */
  ghost predicate Filling(chunks: seq<string>, cur: string, max: int) {
    && Bounded(chunks, max) && Tight(chunks, max)
    && (chunks != [] ==> |chunks[|chunks| - 1]| + |cur| > max)
  }

  lemma Pushed(chunks: seq<string>, cur: string, max: int)
    requires Filling(chunks, cur, max) && 0 < |cur| <= max
    ensures Bounded(chunks + [cur], max) && Tight(chunks + [cur], max)
  {}

  lemma CutMore(chunks: seq<string>, c: string, max: int)
    requires AllCut(chunks, max) && WellCut(c, max)
    ensures AllCut(chunks + [c], max)
  {}

  lemma PieceFills(chunks: seq<string>, cur: string, max: int)
    requires Filling(chunks, cur, max) && 0 < max < |cur|
    ensures Filling(chunks + [cur[..max]], cur[max..], max)
  {
    Pushed(chunks, cur[..max], max);
  }

  lemma PieceFlat(chunks: seq<string>, cur: string, full: string, more: string)
    requires cur == full + more
    ensures Flatten(chunks + [full]) + more == Flatten(chunks) + cur
  {
    FlattenPush(chunks, full);
    assert Flatten(chunks) + (full + more) == (Flatten(chunks) + full) + more;
  }

  /** One piece goes out. */
  lemma PieceOut(chunks: seq<string>, cur: string, max: int)
    requires Filling(chunks, cur, max) && AllCut(chunks, max) && 0 < max < |cur| && OneLine(cur)
    ensures Filling(chunks + [cur[..max]], cur[max..], max) && AllCut(chunks + [cur[..max]], max)
    ensures OneLine(cur[max..]) && (EndsLine(cur) ==> EndsLine(cur[max..]))
    ensures Flatten(chunks + [cur[..max]]) + cur[max..] == Flatten(chunks) + cur
  {
    PieceCut(cur, max);
    PieceFills(chunks, cur, max);
    CutMore(chunks, cur[..max], max);
    assert cur == cur[..max] + cur[max..];
    PieceFlat(chunks, cur, cur[..max], cur[max..]);
  }

  /** A line longer than the bound goes out in full pieces. */
  method HardSplit(chunks: seq<string>, cur: string, max: int) returns (chunks': seq<string>, cur': string)
    requires 0 < max && cur != "" && Filling(chunks, cur, max) && AllCut(chunks, max)
    requires |cur| > max ==> OneLine(cur)
    ensures Flatten(chunks') + cur' == Flatten(chunks) + cur
    ensures Filling(chunks', cur', max) && 0 < |cur'| <= max
    ensures AllCut(chunks', max) && (EndsLine(cur) ==> EndsLine(cur'))
  {
    chunks', cur' := chunks, cur;
    while |cur'| > max
      invariant cur' != "" && Filling(chunks', cur', max) && AllCut(chunks', max)
      invariant Flatten(chunks') + cur' == Flatten(chunks) + cur
      invariant (|cur'| > max ==> OneLine(cur')) && (EndsLine(cur) ==> EndsLine(cur'))
    {
      PieceOut(chunks', cur', max);
      chunks', cur' := chunks' + [cur'[..max]], cur'[max..];
    }
  }

  /** The chunk is full before the line. */
  lemma Flushed(chunks: seq<string>, cur: string, line: string, max: int)
    requires Filling(chunks, cur, max) && AllCut(chunks, max) && 0 < |cur| <= max < |cur| + |line| && EndsLine(cur)
    ensures Filling(chunks + [cur], line, max) && AllCut(chunks + [cur], max)
    ensures Flatten(chunks + [cur]) + line == Flatten(chunks) + (cur + line)
  {
    Pushed(chunks, cur, max);
    CutMore(chunks, cur, max);
    PieceFlat(chunks, cur + line, cur, line);
  }

  lemma LineFits(chunks: seq<string>, cur: string, line: string, max: int)
    requires Filling(chunks, cur, max) && line != "" && (cur == "" ==> chunks == [])
    ensures Filling(chunks, cur + line, max) && (EndsLine(line) ==> EndsLine(cur + line))
    ensures cur == "" ==> cur + line == line
  {}

  /** One line more. */
  method AddLine(chunks: seq<string>, cur: string, line: string, max: int) returns (chunks': seq<string>, cur': string)
    requires 0 < max && line != "" && Filling(chunks, cur, max) && |cur| <= max && (cur == "" ==> chunks == [])
    requires AllCut(chunks, max) && (cur == "" || EndsLine(cur)) && OneLine(line)
    ensures Flatten(chunks') + cur' == Flatten(chunks) + (cur + line)
    ensures Filling(chunks', cur', max) && 0 < |cur'| <= max
    ensures AllCut(chunks', max) && (EndsLine(line) ==> EndsLine(cur'))
  {
    chunks', cur' := chunks, cur;
    if cur != "" && |cur| + |line| > max {
      Flushed(chunks, cur, line, max);
      chunks', cur' := chunks + [cur], "";
      assert cur' + line == line;
    } else {
      LineFits(chunks, cur, line, max);
    }
    cur' := cur' + line;
    chunks', cur' := HardSplit(chunks', cur', max);
  }

  lemma NothingMore(a: string)
    ensures a + "" == a
  {}

  lemma LineOver(a: string, cur: string, line: string, rest: string)
    ensures (a + cur) + (line + rest) == (a + (cur + line)) + rest
  {}

  lemma OneChunk(text: string)
    ensures Flatten([text]) == text
  {
    FlattenPush([], text);
    assert [] + [text] == [text];
  }

  /** The chunks so far, the one being filled and the lines to come are the text. */
  ghost predicate Underway(text: string, chunks: seq<string>, cur: string, lines: seq<string>, max: int) {
    && Lines(lines) && AllCut(chunks, max) && (cur == "" || EndsLine(cur) || lines == [])
    && (Flatten(chunks) + cur) + Flatten(lines) == text
    && Filling(chunks, cur, max) && |cur| <= max && (cur == "" ==> chunks == [])
  }

  lemma LineStep(text: string, chunks: seq<string>, cur: string, chunks': seq<string>, cur': string, lines: seq<string>,
                 max: int)
    requires Underway(text, chunks, cur, lines, max) && lines != []
    requires Flatten(chunks') + cur' == Flatten(chunks) + (cur + lines[0])
    requires Filling(chunks', cur', max) && 0 < |cur'| <= max
    requires AllCut(chunks', max) && (EndsLine(lines[0]) ==> EndsLine(cur'))
    ensures Underway(text, chunks', cur', lines[1..], max)
  {
    LineOver(Flatten(chunks), cur, lines[0], Flatten(lines[1..]));
    LinesTail(lines);
  }

  lemma LinesTail(lines: seq<string>)
    requires Lines(lines) && lines != []
    ensures Lines(lines[1..]) && (lines[1..] != [] ==> EndsLine(lines[0]))
  {}

  lemma LastChunk(text: string, chunks: seq<string>, cur: string, max: int)
    requires Underway(text, chunks, cur, [], max) && cur != ""
    ensures Flatten(chunks + [cur]) == text && Bounded(chunks + [cur], max) && Tight(chunks + [cur], max)
    ensures AllCut((chunks + [cur])[..|chunks + [cur]| - 1], max)
  {
    Pushed(chunks, cur, max);
    FlattenPush(chunks, cur);
    NothingMore(Flatten(chunks) + cur);
    assert (chunks + [cur])[..|chunks + [cur]| - 1] == chunks;
  }

  lemma FirstLines(text: string, max: int)
    requires 0 < max
    ensures Underway(text, [], "", SplitLines(text), max)
  {
    SplitFlatten(text);
    SplitIsLines(text);
    assert (Flatten([]) + "") + text == text;
  }

  /** Pieces of at most `max` characters that are the text, none of them empty, no two
      neighbours small enough to be one, and cut between lines, or within a line that is
      longer than a piece. */
  method ChunkText(text: string, max: int) returns (chunks: seq<string>)
    ensures Flatten(chunks) == text
    ensures max <= 0 || |text| <= max ==> chunks == [text]
    ensures 0 < max < |text| ==> Bounded(chunks, max) && Tight(chunks, max) && AllCut(chunks[..|chunks| - 1], max)
  {
    if max <= 0 || |text| <= max {
      OneChunk(text);
      return [text];
    }
    FirstLines(text, max);
    chunks := [];
    var cur, lines := "", SplitLines(text);
    while lines != []
      invariant Underway(text, chunks, cur, lines, max)
    {
      var chunks', cur' := AddLine(chunks, cur, lines[0], max);
      LineStep(text, chunks, cur, chunks', cur', lines, max);
      chunks, cur, lines := chunks', cur', lines[1..];
    }
    LastChunk(text, chunks, cur, max);
    chunks := chunks + [cur];
  }

  // ----- spans -----

  datatype Span = Span(kind: string, start: nat, end: nat)

  predicate Inside(e: Span, s: string) { e.start <= e.end <= |s| }

  function Shift(e: Span, off: nat): Span { Span(e.kind, e.start + off, e.end + off) }

  function ShiftAll(es: seq<Span>, off: nat): (r: seq<Span>)
    ensures |r| == |es| && forall k :: 0 <= k < |es| ==> r[k] == Shift(es[k], off)
  {
    seq(|es|, k requires 0 <= k < |es| => Shift(es[k], off))
  }

  /** Where the chunks start. */
  function Base(chunks: seq<string>, i: nat): nat
    requires i <= |chunks|
  {
    if i == 0 then 0 else Base(chunks, i - 1) + |chunks[i - 1]|
  }

  lemma {:induction false} BaseIsPrefix(chunks: seq<string>, i: nat)
    requires i <= |chunks|
    ensures Base(chunks, i) == |Flatten(chunks[..i])|
  {
    if i > 0 {
      BaseIsPrefix(chunks, i - 1);
      assert chunks[..i] == chunks[..i - 1] + [chunks[i - 1]];
      FlattenPush(chunks[..i - 1], chunks[i - 1]);
    }
  }

  lemma SplitAt(chunks: seq<string>, i: nat) returns (a: string, rest: string)
    requires i < |chunks|
    ensures |a| == Base(chunks, i) && Flatten(chunks) == a + (chunks[i] + rest)
  {
    BaseIsPrefix(chunks, i);
    FlattenConcat(chunks[..i], chunks[i..]);
    assert chunks == chunks[..i] + chunks[i..];
    a, rest := Flatten(chunks[..i]), Flatten(chunks[i..][1..]);
  }

  /** A chunk stands in the whole text at its base. */
  lemma ChunkAt(chunks: seq<string>, i: nat)
    requires i < |chunks|
    ensures var b := Base(chunks, i);
            b + |chunks[i]| <= |Flatten(chunks)| && Flatten(chunks)[b..b + |chunks[i]|] == chunks[i]
  {
    var a, rest := SplitAt(chunks, i);
    Middle(a, chunks[i], rest);
  }

  lemma Middle(a: string, b: string, c: string)
    ensures (a + (b + c))[|a|..|a| + |b|] == b
  {}

  /** A shifted span selects in the whole text what the span selected in its chunk. */
  lemma ShiftSelects(chunks: seq<string>, i: nat, e: Span)
    requires i < |chunks| && Inside(e, chunks[i])
    ensures var f := Shift(e, Base(chunks, i));
            Inside(f, Flatten(chunks)) && Flatten(chunks)[f.start..f.end] == chunks[i][e.start..e.end]
  {
    ChunkAt(chunks, i);
    SliceSlice(Flatten(chunks), Base(chunks, i), |chunks[i]|, e.start, e.end);
  }

  lemma SliceSlice(t: string, b: nat, n: nat, i: nat, j: nat)
    requires b + n <= |t| && i <= j <= n
    ensures t[b..b + n][i..j] == t[b + i..b + j]
  {
    var part := t[b..b + n];
    var a, c := part[i..j], t[b + i..b + j];
    forall k | 0 <= k < |a| ensures a[k] == c[k] { assert a[k] == part[i + k]; }
  }

  /** `f` is `e` moved to where chunk `k` starts; if `e` lies in the chunk, `f` selects in
      the whole what `e` selected there. */
  ghost predicate SelectsSame(chunks: seq<string>, k: nat, e: Span, f: Span) {
    && k < |chunks| && f == Shift(e, Base(chunks, k))
    && (Inside(e, chunks[k]) ==>
          Inside(f, Flatten(chunks)) && Flatten(chunks)[f.start..f.end] == chunks[k][e.start..e.end])
  }

  /** What the detector finds in the chunks from `i` on, as spans of the whole. */
  function Found(chunks: seq<string>, detect: string -> seq<Span>, i: nat): seq<Span>
    requires i <= |chunks|
    decreases |chunks| - i
  {
    if i == |chunks| then []
    else ShiftAll(detect(chunks[i]), Base(chunks, i)) + Found(chunks, detect, i + 1)
  }

  /** Nothing the detector finds in a chunk is lost. */
  lemma {:induction false} AllFound(chunks: seq<string>, detect: string -> seq<Span>, i: nat, k: nat, e: Span)
    requires i <= k < |chunks| && e in detect(chunks[k])
    ensures Shift(e, Base(chunks, k)) in Found(chunks, detect, i)
    decreases k - i
  {
    if i == k {
      var j :| 0 <= j < |detect(chunks[k])| && detect(chunks[k])[j] == e;
      assert ShiftAll(detect(chunks[k]), Base(chunks, k))[j] == Shift(e, Base(chunks, k));
    } else {
      AllFound(chunks, detect, i + 1, k, e);
    }
  }

  /** Each span is found once for each time it was detected. */
  lemma {:induction false} FoundCount(chunks: seq<string>, detect: string -> seq<Span>, i: nat)
    requires i <= |chunks|
    ensures |Found(chunks, detect, i)| == Detected(chunks, detect, i)
    decreases |chunks| - i
  {
    if i < |chunks| { FoundCount(chunks, detect, i + 1); }
  }

  /** How many spans the detector finds in the chunks from `i` on. */
  function Detected(chunks: seq<string>, detect: string -> seq<Span>, i: nat): nat
    requires i <= |chunks|
    decreases |chunks| - i
  {
    if i == |chunks| then 0 else |detect(chunks[i])| + Detected(chunks, detect, i + 1)
  }

  lemma {:induction false} FoundSelect(chunks: seq<string>, detect: string -> seq<Span>, i: nat, f: Span)
    requires i <= |chunks| && f in Found(chunks, detect, i)
    ensures exists k: nat, e :: SelectsSame(chunks, k, e, f) && e in detect(chunks[k])
    decreases |chunks| - i
  {
    if f in ShiftAll(detect(chunks[i]), Base(chunks, i)) {
      var e :| e in detect(chunks[i]) && f == Shift(e, Base(chunks, i));
      if Inside(e, chunks[i]) { ShiftSelects(chunks, i, e); }
      assert SelectsSame(chunks, i, e, f);
    } else {
      FoundSelect(chunks, detect, i + 1, f);
    }
  }

  /** `r` is what the detector finds in some chunks of the text, each within the bound: every
      span it finds in a chunk, and no other; and one that lay in its chunk selects in the text
      exactly what it selected there. */
  ghost predicate FoundIn(chunks: seq<string>, text: string, max: int, detect: string -> seq<Span>, r: seq<Span>) {
    && Flatten(chunks) == text && r == Found(chunks, detect, 0)
    && (0 < max < |text| ==> Bounded(chunks, max))
    && |r| == Detected(chunks, detect, 0)
    && (forall f :: f in r ==> exists k: nat, e :: SelectsSame(chunks, k, e, f) && e in detect(chunks[k]))
    && forall k: nat, e :: k < |chunks| && e in detect(chunks[k]) ==> Shift(e, Base(chunks, k)) in r
  }

  lemma FoundIs(chunks: seq<string>, text: string, max: int, detect: string -> seq<Span>)
    requires Flatten(chunks) == text && (0 < max < |text| ==> Bounded(chunks, max))
    ensures FoundIn(chunks, text, max, detect, Found(chunks, detect, 0))
  {
    FoundCount(chunks, detect, 0);
    forall f | f in Found(chunks, detect, 0)
      ensures exists k: nat, e :: SelectsSame(chunks, k, e, f) && e in detect(chunks[k]) {
      FoundSelect(chunks, detect, 0, f);
    }
    forall k: nat, e | k < |chunks| && e in detect(chunks[k])
      ensures Shift(e, Base(chunks, k)) in Found(chunks, detect, 0) {
      AllFound(chunks, detect, 0, k, e);
    }
  }

  method DetectEntities(text: string, max: int, detect: string -> seq<Span>) returns (r: seq<Span>)
    ensures exists chunks :: FoundIn(chunks, text, max, detect, r)
  {
    var parts := ChunkText(text, max);
    ghost var chunks := parts;
    if |parts| == 1 {
      SameSpans(detect(parts[0]));
      assert parts[0] == text by { assert parts == [] + [parts[0]]; FlattenPush([], parts[0]); }
      assert Found(parts, detect, 1) == [];
      FoundIs(chunks, text, max, detect);
      assert Found(chunks, detect, 0) == detect(text);
      return detect(text);
    }
    var base := 0;
    r := [];
    for i := 0 to |parts|
      invariant base == Base(parts, i)
      invariant r + Found(parts, detect, i) == Found(parts, detect, 0)
    {
      ghost var here, rest := ShiftAll(detect(parts[i]), base), Found(parts, detect, i + 1);
      assert r + (here + rest) == (r + here) + rest;
      r := r + ShiftAll(detect(parts[i]), base);
      base := base + |parts[i]|;
    }
    assert r + [] == r;
    FoundIs(chunks, text, max, detect);
  }

  lemma SameSpans(es: seq<Span>)
    ensures ShiftAll(es, 0) == es
  {}
}
