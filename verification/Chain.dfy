/** Hash-chained trails: appending, verifying, slicing, exporting in steps, and the
    retention-locked copy. Both the document trail and the key-lifecycle stream are
    chains of this form. */
module Chain {
  import opened Mappings

  // ----- the chain -----

  /** One record: its place in the table, what is hashed of it, and the two hashes.
      The place is given out by the database and may skip numbers. */
  datatype Rec<C> = Rec(seqNo: nat, content: C, prev: string, hash: string)

  /** The digest, and the canonical text of a record. */
  datatype Hashing<!C> = Hashing(sha: string -> string, canon: C -> string)

  const DIGEST_LEN: nat := 64

  function Zeros(n: nat): (z: string)
    ensures |z| == n && forall k :: 0 <= k < n ==> z[k] == '0'
  {
    if n == 0 then "" else "0" + Zeros(n - 1)
  }

  /** What the first record names as the hash before it: as long as a digest, all zeros. */
  const GENESIS: string := Zeros(DIGEST_LEN)

  function HashOf<C>(h: Hashing<C>, prev: string, c: C): string { h.sha(prev + h.canon(c)) }

  /** Each record names the hash before it and carries its own. */
  predicate Verifies<C>(h: Hashing<C>, prev: string, rs: seq<Rec<C>>)
    decreases |rs|
  {
    rs == [] || (rs[0].prev == prev && rs[0].hash == HashOf(h, prev, rs[0].content) && Verifies(h, rs[0].hash, rs[1..]))
  }

  function LastHash<C>(prev: string, rs: seq<Rec<C>>): string { if rs == [] then prev else rs[|rs| - 1].hash }

  /** The first record that does not fit. */
  function FirstBad<C>(h: Hashing<C>, prev: string, rs: seq<Rec<C>>): Option<nat>
    decreases |rs|
  {
    if rs == [] then None
    else if rs[0].prev != prev || rs[0].hash != HashOf(h, prev, rs[0].content) then Some(rs[0].seqNo)
    else FirstBad(h, rs[0].hash, rs[1..])
  }

  lemma {:induction false} FirstBadNone<C>(h: Hashing<C>, prev: string, rs: seq<Rec<C>>)
    ensures FirstBad(h, prev, rs).None? <==> Verifies(h, prev, rs)
    decreases |rs|
  {
    if rs != [] { FirstBadNone(h, rs[0].hash, rs[1..]); }
  }

  /** It is the first: the chain in front of it fits, and it does not. */
  lemma {:induction false} FirstBadIs<C>(h: Hashing<C>, prev: string, rs: seq<Rec<C>>) returns (i: nat)
    requires FirstBad(h, prev, rs).Some?
    ensures i < |rs| && FirstBad(h, prev, rs) == Some(rs[i].seqNo)
    ensures Verifies(h, prev, rs[..i]) && !Verifies(h, prev, rs[..i + 1])
    decreases |rs|
  {
    i := 0;
    if rs[0].prev == prev && rs[0].hash == HashOf(h, prev, rs[0].content) {
      i := FirstBadIs(h, rs[0].hash, rs[1..]);
      assert rs[..i + 1][1..] == rs[1..][..i] && rs[..i + 2][1..] == rs[1..][..i + 1];
      i := i + 1;
    }
  }

  /** `verify_chain`: walks the chain, recomputing every hash. */
  method VerifyChain<C>(h: Hashing<C>, prev: string, rs: seq<Rec<C>>) returns (bad: Option<nat>)
    ensures bad == FirstBad(h, prev, rs)
    ensures bad.None? <==> Verifies(h, prev, rs)
  {
    var last, i := prev, 0;
    while i < |rs|
      invariant 0 <= i <= |rs| && FirstBad(h, last, rs[i..]) == FirstBad(h, prev, rs)
    {
      assert rs[i..][1..] == rs[i + 1..];
      if rs[i].prev != last || HashOf(h, rs[i].prev, rs[i].content) != rs[i].hash {
        FirstBadNone(h, prev, rs);
        return Some(rs[i].seqNo);
      }
      last := rs[i].hash;
      i := i + 1;
    }
    FirstBadNone(h, prev, rs);
    bad := None;
  }

  /** A slice verifies from the hash before it: cutting a chain anywhere gives two
      chains, and two that meet make one. */
  lemma {:induction false} VerifiesConcat<C>(h: Hashing<C>, prev: string, a: seq<Rec<C>>, b: seq<Rec<C>>)
    ensures Verifies(h, prev, a + b) <==> Verifies(h, prev, a) && Verifies(h, LastHash(prev, a), b)
    decreases |a|
  {
    if a == [] {
      assert a + b == b;
    } else {
      assert (a + b)[1..] == a[1..] + b;
      VerifiesConcat(h, a[0].hash, a[1..], b);
      assert LastHash(prev, a) == LastHash(a[0].hash, a[1..]);
    }
  }

  // ----- appending -----

  /** `append`, under the chain's lock: the new record takes a number above all others
      and the hash of the last one. */
  function Appended<C>(h: Hashing<C>, rs: seq<Rec<C>>, seqNo: nat, c: C): seq<Rec<C>> {
    rs + [Rec(seqNo, c, LastHash(GENESIS, rs), HashOf(h, LastHash(GENESIS, rs), c))]
  }

  /** Every appended chain verifies. */
  lemma AppendVerifies<C>(h: Hashing<C>, rs: seq<Rec<C>>, seqNo: nat, c: C)
    requires Verifies(h, GENESIS, rs)
    ensures Verifies(h, GENESIS, Appended(h, rs, seqNo, c))
  {
    var prev := LastHash(GENESIS, rs);
    var r := Rec(seqNo, c, prev, HashOf(h, prev, c));
    assert [r][1..] == [];
    VerifiesConcat(h, GENESIS, rs, [r]);
  }

  function AppendAll<C>(h: Hashing<C>, rs: seq<Rec<C>>, cs: seq<(nat, C)>): seq<Rec<C>>
    decreases |cs|
  {
    if cs == [] then rs else AppendAll(h, Appended(h, rs, cs[0].0, cs[0].1), cs[1..])
  }

  lemma {:induction false} AppendAllVerifies<C>(h: Hashing<C>, rs: seq<Rec<C>>, cs: seq<(nat, C)>)
    requires Verifies(h, GENESIS, rs)
    ensures Verifies(h, GENESIS, AppendAll(h, rs, cs)) && rs <= AppendAll(h, rs, cs)
    decreases |cs|
  {
    if cs != [] {
      AppendVerifies(h, rs, cs[0].0, cs[0].1);
      AppendAllVerifies(h, Appended(h, rs, cs[0].0, cs[0].1), cs[1..]);
    }
  }

  /** What was appended stands behind, in order. */
  lemma {:induction false} AppendAllHolds<C>(h: Hashing<C>, rs: seq<Rec<C>>, cs: seq<(nat, C)>)
    requires Verifies(h, GENESIS, rs)
    ensures var all := AppendAll(h, rs, cs);
            && |all| == |rs| + |cs| && rs <= all
            && forall i :: 0 <= i < |cs| ==> all[|rs| + i].seqNo == cs[i].0 && all[|rs| + i].content == cs[i].1
    decreases |cs|
  {
    if cs != [] {
      var next := Appended(h, rs, cs[0].0, cs[0].1);
      AppendVerifies(h, rs, cs[0].0, cs[0].1);
      AppendAllHolds(h, next, cs[1..]);
      assert AppendAll(h, rs, cs)[|rs|] == next[|rs|];
      forall i | 0 < i < |cs|
        ensures AppendAll(h, rs, cs)[|rs| + i].seqNo == cs[i].0 && AppendAll(h, rs, cs)[|rs| + i].content == cs[i].1 {
        assert cs[1..][i - 1] == cs[i] && |next| + (i - 1) == |rs| + i;
      }
    }
  }

  // ----- tampering -----

  /** Digests have one length, none is the genesis value, and the records at hand do
      not collide. */
  ghost predicate CollisionFree<C(!new)>(h: Hashing<C>, cs: set<C>, prevs: set<string>) {
    && (forall x :: |h.sha(x)| == DIGEST_LEN)
    && (forall p, c :: p in prevs && c in cs ==> HashOf(h, p, c) != GENESIS)
    && (forall p, c, q, d :: p in prevs && c in cs && q in prevs && d in cs && HashOf(h, p, c) == HashOf(h, q, d) ==>
          p + h.canon(c) == q + h.canon(d))
    && (forall c, d :: c in cs && d in cs && h.canon(c) == h.canon(d) ==> c == d)
  }

  /** Equal but for the number the database gave out. */
  predicate SameRecord<C(==)>(r: Rec<C>, s: Rec<C>) { r.content == s.content && r.prev == s.prev && r.hash == s.hash }

  predicate SameRecords<C(==)>(a: seq<Rec<C>>, b: seq<Rec<C>>) {
    |a| == |b| && forall k :: 0 <= k < |a| ==> SameRecord(a[k], b[k])
  }

  lemma {:induction false} PrevsLong<C>(h: Hashing<C>, prev: string, rs: seq<Rec<C>>)
    requires Verifies(h, prev, rs) && |prev| == DIGEST_LEN && forall x :: |h.sha(x)| == DIGEST_LEN
    ensures forall k :: 0 <= k < |rs| ==>
              |rs[k].prev| == DIGEST_LEN && rs[k].hash == HashOf(h, rs[k].prev, rs[k].content)
    decreases |rs|
  {
    if rs != [] {
      PrevsLong(h, rs[0].hash, rs[1..]);
      assert forall k :: 1 <= k < |rs| ==> rs[k] == rs[1..][k - 1];
    }
  }

  lemma SplitEqual(p: string, c: string, q: string, d: string)
    requires |p| == |q| && p + c == q + d
    ensures p == q && c == d
  {
    assert p == (p + c)[..|p|] && c == (p + c)[|p|..];
    assert q == (q + d)[..|q|] && d == (q + d)[|q|..];
  }

  /** The last record of a verifying chain, and the chain in front of it. */
  lemma LastLink<C>(h: Hashing<C>, rs: seq<Rec<C>>)
    requires Verifies(h, GENESIS, rs) && rs != []
    ensures var r, front := rs[|rs| - 1], rs[..|rs| - 1];
            && Verifies(h, GENESIS, front) && r.prev == LastHash(GENESIS, front)
            && r.hash == HashOf(h, r.prev, r.content)
  {
    var front, r := rs[..|rs| - 1], rs[|rs| - 1];
    assert rs == front + [r];
    VerifiesConcat(h, GENESIS, front, [r]);
  }

  /** Two records with one hash are one record. */
  lemma SameHash<C(!new)>(h: Hashing<C>, cs: set<C>, prevs: set<string>, r: Rec<C>, s: Rec<C>)
    requires CollisionFree(h, cs, prevs) && r.content in cs && s.content in cs && r.prev in prevs && s.prev in prevs
    requires r.hash == s.hash && r.hash == HashOf(h, r.prev, r.content) && s.hash == HashOf(h, s.prev, s.content)
    requires |r.prev| == |s.prev|
    ensures r.prev == s.prev && r.content == s.content
  {
    SplitEqual(r.prev, h.canon(r.content), s.prev, h.canon(s.content));
  }

  /** Two verifying chains with the same last hash are equal record by record: any
      edit, reorder, insertion or removal before the tail changes the tail's hash. */
  lemma {:induction false} SameTail<C(!new)>(h: Hashing<C>, a: seq<Rec<C>>, b: seq<Rec<C>>, cs: set<C>,
                                             prevs: set<string>)
    requires Verifies(h, GENESIS, a) && Verifies(h, GENESIS, b) && LastHash(GENESIS, a) == LastHash(GENESIS, b)
    requires CollisionFree(h, cs, prevs)
    requires forall r :: r in a || r in b ==> r.content in cs && r.prev in prevs
    ensures SameRecords(a, b)
    decreases |a|
  {
    if a == [] || b == [] {
      if a != [] { LastLink(h, a); }
      if b != [] { LastLink(h, b); }
    } else {
      SameLast(h, a, b, cs, prevs);
      SameTail(h, a[..|a| - 1], b[..|b| - 1], cs, prevs);
      SameSnoc(a, b);
    }
  }

  /** Their last records are the same, and so is the hash in front of them. */
  lemma SameLast<C(!new)>(h: Hashing<C>, a: seq<Rec<C>>, b: seq<Rec<C>>, cs: set<C>, prevs: set<string>)
    requires Verifies(h, GENESIS, a) && Verifies(h, GENESIS, b) && LastHash(GENESIS, a) == LastHash(GENESIS, b)
    requires CollisionFree(h, cs, prevs) && a != [] && b != []
    requires forall r :: r in a || r in b ==> r.content in cs && r.prev in prevs
    ensures SameRecord(a[|a| - 1], b[|b| - 1])
    ensures Verifies(h, GENESIS, a[..|a| - 1]) && Verifies(h, GENESIS, b[..|b| - 1])
    ensures LastHash(GENESIS, a[..|a| - 1]) == LastHash(GENESIS, b[..|b| - 1])
  {
    LastLink(h, a);
    LastLink(h, b);
    PrevsLong(h, GENESIS, a);
    PrevsLong(h, GENESIS, b);
    SameHash(h, cs, prevs, a[|a| - 1], b[|b| - 1]);
  }

  lemma SameSnoc<C>(a: seq<Rec<C>>, b: seq<Rec<C>>)
    requires a != [] && b != [] && SameRecord(a[|a| - 1], b[|b| - 1])
    requires SameRecords(a[..|a| - 1], b[..|b| - 1])
    ensures SameRecords(a, b)
  {
    var i, j := a[..|a| - 1], b[..|b| - 1];
    forall k | 0 <= k < |a| ensures SameRecord(a[k], b[k]) {
      if k < |i| { assert a[k] == i[k] && b[k] == j[k]; }
    }
  }

  // ----- incremental export -----

  ghost predicate Ordered<C>(rs: seq<Rec<C>>) { forall i, j :: 0 <= i < j < |rs| ==> rs[i].seqNo < rs[j].seqNo }

  /** The records past `after`, in order. */
  function Past<C>(rs: seq<Rec<C>>, after: nat): seq<Rec<C>> {
    if rs == [] then []
    else (if rs[0].seqNo > after then [rs[0]] else []) + Past(rs[1..], after)
  }

  function LastSeq<C>(rs: seq<Rec<C>>, after: nat): nat { if rs == [] then after else rs[|rs| - 1].seqNo }

  /** Whatever numbers were skipped, the records past the last one of a prefix are
      exactly the rest. */
  lemma {:induction false} PastPrefix<C>(a: seq<Rec<C>>, b: seq<Rec<C>>, after: nat)
    requires forall k :: 0 <= k < |a| ==> a[k].seqNo <= after
    requires forall k :: 0 <= k < |b| ==> after < b[k].seqNo
    ensures Past(a + b, after) == b
    decreases |a|
  {
    if a == [] {
      assert a + b == b;
      PastAll(b, after);
    } else {
      assert (a + b)[1..] == a[1..] + b;
      PastPrefix(a[1..], b, after);
    }
  }

  lemma {:induction false} PastAll<C>(b: seq<Rec<C>>, after: nat)
    requires forall k :: 0 <= k < |b| ==> after < b[k].seqNo
    ensures Past(b, after) == b
  {
    if b != [] {
      PastAll(b[1..], after);
      assert b == [b[0]] + b[1..];
    }
  }

  /** A run of exports: each one of what the table held then, past the last number of
      the one before. `ends` says how many records there were at each export. */
  ghost predicate Growing(ends: seq<nat>, n: nat) {
    (forall i, j :: 0 <= i < j < |ends| ==> ends[i] <= ends[j]) && forall i :: 0 <= i < |ends| ==> ends[i] <= n
  }

  function Exports<C>(rs: seq<Rec<C>>, ends: seq<nat>, after: nat): seq<Rec<C>>
    requires forall i :: 0 <= i < |ends| ==> ends[i] <= |rs|
    decreases |ends|
  {
    if ends == [] then []
    else
      var slice := Past(rs[..ends[0]], after);
      slice + Exports(rs, ends[1..], LastSeq(slice, after))
  }

  /** Everything up to `done` was exported, nothing behind it. */
  ghost predicate Cut<C>(rs: seq<Rec<C>>, done: nat, after: nat)
    requires done <= |rs|
  {
    && (forall k :: 0 <= k < done ==> rs[k].seqNo <= after)
    && (forall k :: done <= k < |rs| ==> after < rs[k].seqNo)
  }

  lemma SliceIs<C>(rs: seq<Rec<C>>, done: nat, e: nat, after: nat)
    requires Ordered(rs) && done <= e <= |rs| && Cut(rs, done, after)
    ensures Past(rs[..e], after) == rs[done..e] && Cut(rs, e, LastSeq(rs[done..e], after))
  {
    assert rs[..e] == rs[..done] + rs[done..e];
    PastPrefix(rs[..done], rs[done..e], after);
  }

  /** Exports that each start where the last one stopped lose nothing and repeat
      nothing. */
  lemma {:induction false} ExportsConcat<C>(rs: seq<Rec<C>>, ends: seq<nat>, done: nat, after: nat)
    requires Ordered(rs) && Growing(ends, |rs|) && done <= |rs| && (ends != [] ==> done <= ends[0])
             && Cut(rs, done, after)
    ensures Exports(rs, ends, after) == if ends == [] then [] else rs[done..ends[|ends| - 1]]
    decreases |ends|
  {
    if ends != [] {
      var e := ends[0];
      var last := LastSeq(rs[done..e], after);
      SliceIs(rs, done, e, after);
      GrowingTail(ends, |rs|);
      ExportsConcat(rs, ends[1..], e, last);
      assert Exports(rs, ends, after) == rs[done..e] + Exports(rs, ends[1..], last);
      if |ends| > 1 { JoinSlices(rs, done, e, ends[|ends| - 1]); }
    }
  }

  lemma GrowingTail(ends: seq<nat>, n: nat)
    requires Growing(ends, n) && ends != []
    ensures Growing(ends[1..], n) && ends[0] <= n
    ensures |ends| > 1 ==> ends[0] <= ends[1..][0] && ends[0] <= ends[|ends| - 1] <= n
  {}

  lemma JoinSlices<T>(s: seq<T>, i: nat, j: nat, k: nat)
    requires i <= j <= k <= |s|
    ensures s[i..j] + s[j..k] == s[i..k]
  {}

  /** From the start: the exports together are the whole table. */
  lemma ExportsComplete<C>(rs: seq<Rec<C>>, ends: seq<nat>)
    requires Ordered(rs) && Growing(ends, |rs|) && ends != [] && ends[|ends| - 1] == |rs|
    requires forall k :: 0 <= k < |rs| ==> rs[k].seqNo > 0
    ensures Exports(rs, ends, 0) == rs
  {
    ExportsConcat(rs, ends, 0, 0);
  }

  // ----- what the document export reports -----

  /** `export_worm` counts by subtracting numbers; `export_key_lifecycle_worm` counts
      the rows it exported. */
  datatype Report = Report(first: nat, last: nat, count: nat)

  function ByNumbers(last: nat, after: nat): Report
    requires after <= last
  {
    Report(after + 1, last, last - after)
  }

  function ByRows<C>(slice: seq<Rec<C>>): Report
    requires slice != []
  {
    Report(slice[0].seqNo, slice[|slice| - 1].seqNo, |slice|)
  }

  lemma {:induction false} Spread<C>(slice: seq<Rec<C>>, after: nat, k: nat)
    requires Ordered(slice) && k < |slice| && forall i :: 0 <= i < |slice| ==> after < slice[i].seqNo
    ensures slice[k].seqNo >= after + 1 + k
  {
    if k > 0 { Spread(slice, after, k - 1); }
  }

  lemma {:induction false} SpreadBack<C>(slice: seq<Rec<C>>, k: nat)
    requires Ordered(slice) && k < |slice|
    ensures slice[k].seqNo + (|slice| - 1 - k) <= slice[|slice| - 1].seqNo
    decreases |slice| - k
  {
    if k + 1 < |slice| { SpreadBack(slice, k + 1); }
  }

  /** Counting by numbers is right exactly when no number was skipped since the last
      export. */
  lemma NumbersAreRows<C>(slice: seq<Rec<C>>, after: nat)
    requires slice != [] && Ordered(slice) && forall i :: 0 <= i < |slice| ==> after < slice[i].seqNo
    ensures ByNumbers(slice[|slice| - 1].seqNo, after) == ByRows(slice)
            <==> forall k :: 0 <= k < |slice| ==> slice[k].seqNo == after + 1 + k
  {
    var last := slice[|slice| - 1].seqNo;
    if ByNumbers(last, after) == ByRows(slice) {
      forall k | 0 <= k < |slice| ensures slice[k].seqNo == after + 1 + k {
        Spread(slice, after, k);
        SpreadBack(slice, k);
      }
    }
    if forall k :: 0 <= k < |slice| ==> slice[k].seqNo == after + 1 + k {
      assert slice[|slice| - 1].seqNo == after + |slice| && slice[0].seqNo == after + 1;
    }
  }

  // ----- lines of the key-lifecycle stream -----

  datatype Value = Num(n: nat) | Text(s: string) | Data(raw: string)

  /** What is hashed of an event. */
  datatype Event = Event(ts: string, action: string, actor: string, payload: map<string, Value>)

  const STREAM: string := "key-lifecycle"
  const ENVELOPE: set<string> := {"seq", "ts", "stage", "action", "actor", "prev_hash", "hash"}

  /** `as_dict`: later keys win. */
  function AsDict(e: Event): map<string, Value> {
    map["ts" := Text(e.ts), "stage" := Text(STREAM), "action" := Text(e.action)]
    + e.payload + map["actor" := Text(e.actor)]
  }

  /** One exported line. */
  function Line(r: Rec<Event>): map<string, Value> {
    map["seq" := Num(r.seqNo)] + AsDict(r.content) + map["prev_hash" := Text(r.prev), "hash" := Text(r.hash)]
  }

  function TextAt(row: map<string, Value>, k: string): string {
    if k in row && row[k].Text? then row[k].s else ""
  }

  /** The event a line tells of: the envelope stripped off. */
  function Stripped(row: map<string, Value>): Event {
    Event(TextAt(row, "ts"), TextAt(row, "action"), TextAt(row, "actor"), row - ENVELOPE)
  }

  function Parsed(row: map<string, Value>): Rec<Event> {
    Rec(if "seq" in row && row["seq"].Num? then row["seq"].n else 0, Stripped(row),
        TextAt(row, "prev_hash"), TextAt(row, "hash"))
  }

  predicate Apart(e: Event) { e.payload.Keys !! ENVELOPE }

  /** What a line holds under each key of the envelope: the number, the actor and the two hashes are
      never the payload's; the time, the stream and the action are unless the payload has them. */
  lemma LineHolds(r: Rec<Event>)
    ensures var row, p := Line(r), r.content.payload;
            && row["actor"] == Text(r.content.actor) && row["prev_hash"] == Text(r.prev) && row["hash"] == Text(r.hash)
            && row["seq"] == (if "seq" in p then p["seq"] else Num(r.seqNo))
            && row["ts"] == (if "ts" in p then p["ts"] else Text(r.content.ts))
            && row["stage"] == (if "stage" in p then p["stage"] else Text("key-lifecycle"))
            && row["action"] == (if "action" in p then p["action"] else Text(r.content.action))
            && forall k :: k in p && k !in ENVELOPE ==> row[k] == p[k]
  {}

  /** Stripping the envelope gives the payload back exactly when the payload uses none
      of the envelope's keys; then the whole record is read back. */
  lemma LineRoundTrip(r: Rec<Event>)
    ensures Stripped(Line(r)).payload == r.content.payload <==> Apart(r.content)
    ensures Apart(r.content) ==> Parsed(Line(r)) == r
  {
    var row, p := Line(r), r.content.payload;
    assert (row - ENVELOPE).Keys == p.Keys - ENVELOPE;
    assert forall k :: k in p && k !in ENVELOPE ==> row[k] == p[k];
    if Apart(r.content) { assert row - ENVELOPE == p; }
    if row - ENVELOPE == p { assert p.Keys == p.Keys - ENVELOPE; }
  }

  function Lines(rs: seq<Rec<Event>>): seq<map<string, Value>> {
    if rs == [] then [] else [Line(rs[0])] + Lines(rs[1..])
  }

  function ParsedAll(rows: seq<map<string, Value>>): seq<Rec<Event>> {
    if rows == [] then [] else [Parsed(rows[0])] + ParsedAll(rows[1..])
  }

  lemma {:induction false} LinesRoundTrip(rs: seq<Rec<Event>>)
    requires forall k :: 0 <= k < |rs| ==> Apart(rs[k].content)
    ensures ParsedAll(Lines(rs)) == rs
  {
    if rs != [] {
      LineRoundTrip(rs[0]);
      LinesRoundTrip(rs[1..]);
      assert Lines(rs)[1..] == Lines(rs[1..]);
    }
  }

  /** `verify_jsonl`: a slice verified without the database. */
  method VerifyLines(h: Hashing<Event>, rows: seq<map<string, Value>>, prev: string) returns (bad: Option<nat>)
    ensures bad == FirstBad(h, prev, ParsedAll(rows))
  {
    var last, todo := prev, rows;
    while todo != []
      invariant FirstBad(h, last, ParsedAll(todo)) == FirstBad(h, prev, ParsedAll(rows))
      decreases |todo|
    {
      var r := Parsed(todo[0]);
      assert ParsedAll(todo)[1..] == ParsedAll(todo[1..]);
      if r.prev != last || r.hash != HashOf(h, last, r.content) { return Some(r.seqNo); }
      last := r.hash;
      todo := todo[1..];
    }
    bad := None;
  }

  /** `hash_before`: the hash of the last record at or before a number. */
  function HashBefore<C>(rs: seq<Rec<C>>, after: nat): string { LastHash(GENESIS, UpTo(rs, after)) }

  function UpTo<C>(rs: seq<Rec<C>>, after: nat): seq<Rec<C>> {
    if rs == [] then [] else (if rs[0].seqNo <= after then [rs[0]] else []) + UpTo(rs[1..], after)
  }

  /** At every cut of an ordered chain, the exported slice verifies from the hash
      before it exactly when the chain behind the cut does. */
  lemma SliceVerifies(h: Hashing<Event>, rs: seq<Rec<Event>>, done: nat, after: nat)
    requires Ordered(rs) && done <= |rs| && Cut(rs, done, after) && Verifies(h, GENESIS, rs[..done])
    requires forall k :: 0 <= k < |rs| ==> Apart(rs[k].content)
    ensures Past(rs, after) == rs[done..] && HashBefore(rs, after) == LastHash(GENESIS, rs[..done])
    ensures FirstBad(h, HashBefore(rs, after), ParsedAll(Lines(Past(rs, after)))).None? <==> Verifies(h, GENESIS, rs)
  {
    assert rs == rs[..done] + rs[done..] && rs[..|rs|] == rs;
    SliceIs(rs, done, |rs|, after);
    UpToIs(rs, done, after);
    LinesRoundTrip(rs[done..]);
    FirstBadNone(h, LastHash(GENESIS, rs[..done]), rs[done..]);
    VerifiesConcat(h, GENESIS, rs[..done], rs[done..]);
  }

  lemma {:induction false} UpToIs<C>(rs: seq<Rec<C>>, done: nat, after: nat)
    requires done <= |rs| && Cut(rs, done, after)
    ensures UpTo(rs, after) == rs[..done]
    decreases |rs|
  {
    if rs != [] {
      var before := if done > 0 then done - 1 else 0;
      UpToIs(rs[1..], before, after);
      if done > 0 { assert rs[..done] == [rs[0]] + rs[1..][..before]; }
    }
  }

  // ----- the retention-locked copy -----

  datatype Locked<D> = Locked(data: D, until: int)

  /** Objects that cannot be replaced or removed before their term. */
  class WormStore<D(0)> {
    var objects: map<string, Locked<D>>

    constructor ()
      ensures objects == map[]
    {
      objects := map[];
    }

    /** The guard: a lock that has not run out refuses. */
    predicate Held(key: string, now: int)
      reads this
    {
      key in objects && now < objects[key].until
    }

    method PutLocked(key: string, data: D, until: int, now: int) returns (ok: bool)
      modifies this
      ensures ok <==> !(key in old(objects) && now < old(objects)[key].until)
      ensures objects == if ok then old(objects)[key := Locked(data, until)] else old(objects)
    {
      if Held(key, now) { return false; }
      objects := objects[key := Locked(data, until)];
      ok := true;
    }

    method Delete(key: string, now: int) returns (ok: bool)
      modifies this
      ensures ok <==> !(key in old(objects) && now < old(objects)[key].until)
      ensures objects == if ok then old(objects) - {key} else old(objects)
    {
      if Held(key, now) { return false; }
      objects := objects - {key};
      ok := true;
    }
  }

  datatype Exported = Nothing(last: nat) | Shipped(key: string, report: Report) | Refused

  /** `export_key_lifecycle_worm`: the chain is verified, the slice stored under lock,
      read back, and verified again from the hash before it. */
  method ExportWorm(h: Hashing<Event>, rs: seq<Rec<Event>>, store: WormStore<seq<map<string, Value>>>, after: nat,
                    keyOf: (nat, nat) -> string, until: int, now: int) returns (r: Exported)
    modifies store
    ensures var slice := Past(rs, after);
            var key := keyOf(if slice == [] then after else slice[0].seqNo, LastSeq(slice, after));
            if !Verifies(h, GENESIS, rs) then r == Refused && store.objects == old(store.objects)
            else if slice == [] then r == Nothing(after) && store.objects == old(store.objects)
            else if key in old(store.objects) && now < old(store.objects)[key].until then
              r == Refused && store.objects == old(store.objects)
            else
              && store.objects == old(store.objects)[key := Locked(Lines(slice), until)]
              && r == if FirstBad(h, HashBefore(rs, after), ParsedAll(Lines(slice))).Some? then Refused
                      else Shipped(key, Report(slice[0].seqNo, slice[|slice| - 1].seqNo, |slice|))
  {
    var bad := VerifyChain(h, GENESIS, rs);
    if bad.Some? { return Refused; }
    var slice := Past(rs, after);
    if slice == [] { return Nothing(after); }
    var key := keyOf(slice[0].seqNo, slice[|slice| - 1].seqNo);
    var ok := store.PutLocked(key, Lines(slice), until, now);
    if !ok { return Refused; }
    var wrong := VerifyLines(h, store.objects[key].data, HashBefore(rs, after));
    if wrong.Some? { return Refused; }
    r := Shipped(key, ByRows(slice));
  }
}
