/** The token bucket, twice: in the process, where a clock that goes back counts as
    standing still, and as one SQL statement, where it takes tokens back. Times and
    tokens are reals. */
module RateLimit {
  import opened Mappings

  datatype Bucket = Bucket(tokens: real, at: real)

  /** The capacity, and what is refilled from one time to another. */
  datatype Limit = Limit(burst: real, refill: (real, real) -> real)

  /** The SQL statement subtracts the times, the process clamps the difference. */
  function InSql(rate: real, burst: real): Limit { Limit(burst, (from, to) => rate * (to - from)) }

  function InProcess(rate: real, burst: real): Limit {
    Limit(burst, (from, to) => rate * (if to < from then 0.0 else to - from))
  }

  function Min(a: real, b: real): real { if a <= b then a else b }

  /** The tokens at a check: a new client starts full. */
  function Avail(l: Limit, s: Option<Bucket>, now: real): real {
    match s case None => l.burst case Some(b) => Min(l.burst, b.tokens + l.refill(b.at, now))
  }

  function Allowed(l: Limit, s: Option<Bucket>, now: real): bool { Avail(l, s, now) >= 1.0 }

  function Spent(l: Limit, s: Option<Bucket>, now: real): real { if Allowed(l, s, now) then 1.0 else 0.0 }

  function After(l: Limit, s: Option<Bucket>, now: real): Bucket { Bucket(Avail(l, s, now) - Spent(l, s, now), now) }

  function Ceil(x: real): int { -(-x).Floor }

  function RetryAfter(rate: real, tokens: real): int
    requires rate > 0.0
  {
    var n := Ceil((1.0 - tokens) / rate);
    if n < 1 then 1 else n
  }

  datatype Decision = Decision(allowed: bool, retryAfter: int)

  function Decide(rate: real, l: Limit, s: Option<Bucket>, now: real): Decision
    requires rate > 0.0
  {
    if Allowed(l, s, now) then Decision(true, 0) else Decision(false, RetryAfter(rate, Avail(l, s, now)))
  }

  function BucketOf(buckets: map<string, Bucket>, key: string): Option<Bucket> {
    if key in buckets then Some(buckets[key]) else None
  }

  /** The limiter in the process, for many clients. */
  class TokenBucket {
    const rate: real
    const burst: real
    var buckets: map<string, Bucket>

    constructor (rate: real, burst: real)
      requires rate > 0.0 && burst > 0.0
      ensures this.rate == rate && this.burst == burst && buckets == map[]
    {
      this.rate, this.burst, buckets := rate, burst, map[];
    }

    /** Refills, decides and spends; no other client's bucket changes. */
    method Check(key: string, now: real) returns (d: Decision)
      requires rate > 0.0
      modifies this
      ensures var l, s := InProcess(rate, burst), BucketOf(old(buckets), key);
              buckets == old(buckets)[key := After(l, s, now)] && d == Decide(rate, l, s, now)
    {
      var tokens := burst;
      if key in buckets {
        var elapsed := now - buckets[key].at;
        if elapsed < 0.0 { elapsed := 0.0; }
        tokens := Min(burst, buckets[key].tokens + rate * elapsed);
      }
      if tokens >= 1.0 {
        buckets := buckets[key := Bucket(tokens - 1.0, now)];
        return Decision(true, 0);
      }
      buckets := buckets[key := Bucket(tokens, now)];
      d := Decision(false, RetryAfter(rate, tokens));
    }
  }

  /** The limiter all replicas share: one statement under the row's lock. */
  class PostgresTokenBucket {
    const rate: real
    const burst: real
    var rows: map<string, Bucket>

    constructor (rate: real, burst: real)
      requires rate > 0.0 && burst > 0.0
      ensures this.rate == rate && this.burst == burst && rows == map[]
    {
      this.rate, this.burst, rows := rate, burst, map[];
    }

    method Check(key: string, now: real, sha: string -> string) returns (d: Decision)
      requires rate > 0.0
      modifies this
      ensures var l, s := InSql(rate, burst), BucketOf(old(rows), sha(key));
              rows == old(rows)[sha(key) := After(l, s, now)] && d == Decide(rate, l, s, now)
    {
      var client := sha(key);
      ghost var l, s := InSql(rate, burst), BucketOf(rows, client);
      var allowed, tokens;
      if client !in rows {
        tokens := if burst >= 1.0 then burst - 1.0 else burst;
        allowed := burst >= 1.0;
      } else {
        var b := rows[client];
        allowed := Min(burst, b.tokens + rate * (now - b.at)) >= 1.0;
        tokens := Min(burst, b.tokens + rate * (now - b.at)) - (if allowed then 1.0 else 0.0);
      }
      assert allowed == Allowed(l, s, now) && tokens == Avail(l, s, now) - Spent(l, s, now);
      rows := rows[client := Bucket(tokens, now)];
      d := if allowed then Decision(true, 0) else Decision(false, RetryAfter(rate, tokens));
    }
  }

  // ----- runs of one client -----

  /** The bucket after checks at the times `ts`, in the order they were applied. */
  function Ran(l: Limit, s: Option<Bucket>, ts: seq<real>): Option<Bucket>
    decreases |ts|
  {
    if ts == [] then s else Ran(l, Some(After(l, s, ts[0])), ts[1..])
  }

  function Allows(l: Limit, s: Option<Bucket>, ts: seq<real>): (r: seq<bool>)
    ensures |r| == |ts|
    decreases |ts|
  {
    if ts == [] then [] else [Allowed(l, s, ts[0])] + Allows(l, Some(After(l, s, ts[0])), ts[1..])
  }

  /** How many were allowed. */
  function Count(bs: seq<bool>): real { if bs == [] then 0.0 else (if bs[0] then 1.0 else 0.0) + Count(bs[1..]) }

  /** What time gave, check by check. */
  function Gained(l: Limit, at: real, ts: seq<real>): real
    decreases |ts|
  {
    if ts == [] then 0.0 else l.refill(at, ts[0]) + Gained(l, ts[0], ts[1..])
  }

  lemma CountStep(l: Limit, s: Option<Bucket>, ts: seq<real>)
    requires ts != []
    ensures Count(Allows(l, s, ts)) == Spent(l, s, ts[0]) + Count(Allows(l, Some(After(l, s, ts[0])), ts[1..]))
  {
    assert Allows(l, s, ts)[1..] == Allows(l, Some(After(l, s, ts[0])), ts[1..]);
  }

  /** Tokens are conserved: what is left is at most what was there, plus what time
      gave, minus what was spent. */
  lemma {:induction false} Conserved(l: Limit, b: Bucket, ts: seq<real>)
    ensures var r := Ran(l, Some(b), ts);
            r.Some? && r.value.tokens <= b.tokens + Gained(l, b.at, ts) - Count(Allows(l, Some(b), ts))
    decreases |ts|
  {
    if ts != [] {
      Conserved(l, After(l, Some(b), ts[0]), ts[1..]);
      CountStep(l, Some(b), ts);
    }
  }

  lemma {:induction false} LastSpent(l: Limit, s: Option<Bucket>, ts: seq<real>)
    requires ts != [] && Allows(l, s, ts)[|ts| - 1]
    ensures Ran(l, s, ts).Some? && Ran(l, s, ts).value.tokens >= 0.0
    decreases |ts|
  {
    var b := After(l, s, ts[0]);
    if |ts| > 1 {
      assert Allows(l, s, ts)[|ts| - 1] == Allows(l, Some(b), ts[1..])[|ts| - 2];
      LastSpent(l, Some(b), ts[1..]);
    } else {
      assert ts[1..] == [];
    }
  }

  /** Whatever the bucket held and whatever the clock did: up to an allowed check, the
      checks allowed are at most the burst plus what time gave. */
  lemma Bound(l: Limit, s: Option<Bucket>, ts: seq<real>)
    requires ts != [] && Allows(l, s, ts)[|ts| - 1]
    ensures Count(Allows(l, s, ts)) <= l.burst + Gained(l, ts[0], ts[1..])
  {
    Conserved(l, After(l, s, ts[0]), ts[1..]);
    LastSpent(l, s, ts);
    CountStep(l, s, ts);
  }

  /** A clock whose refills add up: going back gives back. */
  ghost predicate Additive(l: Limit) {
    forall a, b, c :: l.refill(a, b) + l.refill(b, c) == l.refill(a, c)
  }

  lemma Distribute(r: real, a: real, b: real)
    ensures r * a + r * b == r * (a + b)
  {}

  lemma SqlAdditive(rate: real, burst: real)
    ensures Additive(InSql(rate, burst))
  {
    var l := InSql(rate, burst);
    forall a, b, c ensures l.refill(a, b) + l.refill(b, c) == l.refill(a, c) {
      Distribute(rate, b - a, c - b);
      assert (b - a) + (c - b) == c - a;
    }
  }

  lemma {:induction false} Telescopes(l: Limit, at: real, ts: seq<real>)
    requires Additive(l)
    ensures Gained(l, at, ts) == l.refill(at, if ts == [] then at else ts[|ts| - 1])
    decreases |ts|
  {
    assert l.refill(at, at) + l.refill(at, at) == l.refill(at, at);
    if ts != [] {
      Telescopes(l, ts[0], ts[1..]);
      var last := ts[|ts| - 1];
      assert l.refill(at, ts[0]) + l.refill(ts[0], last) == l.refill(at, last);
    }
  }

  lemma {:induction false} RunSplit(l: Limit, s: Option<Bucket>, a: seq<real>, b: seq<real>)
    ensures Allows(l, s, a + b) == Allows(l, s, a) + Allows(l, Ran(l, s, a), b)
    decreases |a|
  {
    if a == [] {
      assert a + b == b;
    } else {
      assert (a + b)[1..] == a[1..] + b;
      RunSplit(l, Some(After(l, s, a[0])), a[1..], b);
    }
  }

  /** The checks `i` up to and with `j` of a run are a run from the bucket after `i`
      checks. */
  lemma RunSlice(l: Limit, s: Option<Bucket>, ts: seq<real>, i: nat, j: nat)
    requires i <= j < |ts|
    ensures Allows(l, s, ts)[i..j + 1] == Allows(l, Ran(l, s, ts[..i]), ts[i..j + 1])
  {
    assert ts == ts[..i] + (ts[i..j + 1] + ts[j + 1..]);
    RunSplit(l, s, ts[..i], ts[i..j + 1] + ts[j + 1..]);
    RunSplit(l, Ran(l, s, ts[..i]), ts[i..j + 1], ts[j + 1..]);
  }

  lemma AdditiveBound(l: Limit, s: Option<Bucket>, part: seq<real>)
    requires Additive(l) && part != [] && Allows(l, s, part)[|part| - 1]
    ensures Count(Allows(l, s, part)) <= l.burst + l.refill(part[0], part[|part| - 1])
  {
    Bound(l, s, part);
    Telescopes(l, part[0], part[1..]);
    assert |part| > 1 ==> part[1..][|part| - 2] == part[|part| - 1];
  }

  lemma BoundWithin(l: Limit, ts: seq<real>, i: nat, j: nat)
    requires Additive(l) && i <= j < |ts| && Allows(l, None, ts)[j]
    ensures Count(Allows(l, None, ts)[i..j + 1]) <= l.burst + l.refill(ts[i], ts[j])
  {
    RunSlice(l, None, ts, i, j);
    assert Allows(l, None, ts)[i..j + 1][j - i] == Allows(l, None, ts)[j];
    AdditiveBound(l, Ran(l, None, ts[..i]), ts[i..j + 1]);
  }

  /** The rate bound of the SQL bucket: between any two checks of a run, the second
      allowed, at most `burst + rate * time` were allowed, in whatever order the times
      came. */
  lemma SqlBound(rate: real, burst: real, ts: seq<real>, i: nat, j: nat)
    requires i <= j < |ts| && Allows(InSql(rate, burst), None, ts)[j]
    ensures Count(Allows(InSql(rate, burst), None, ts)[i..j + 1]) <= burst + rate * (ts[j] - ts[i])
  {
    SqlAdditive(rate, burst);
    BoundWithin(InSql(rate, burst), ts, i, j);
  }

  ghost predicate Ordered(ts: seq<real>) { forall i, j :: 0 <= i <= j < |ts| ==> ts[i] <= ts[j] }

  /** Two limits that refill alike forward in time. */
  ghost predicate AlikeForward(l: Limit, m: Limit) {
    l.burst == m.burst && forall a, b :: a <= b ==> l.refill(a, b) == m.refill(a, b)
  }

  lemma {:induction false} SameOnOrdered(l: Limit, m: Limit, s: Option<Bucket>, ts: seq<real>)
    requires AlikeForward(l, m) && Ordered(ts) && (s.Some? && ts != [] ==> s.value.at <= ts[0])
    ensures Allows(l, s, ts) == Allows(m, s, ts) && Ran(l, s, ts) == Ran(m, s, ts)
    decreases |ts|
  {
    if ts != [] {
      assert Avail(l, s, ts[0]) == Avail(m, s, ts[0]);
      SameOnOrdered(l, m, Some(After(m, s, ts[0])), ts[1..]);
    }
  }

  /** On ordered times the two buckets are one. */
  lemma BucketsAgree(rate: real, burst: real, ts: seq<real>)
    requires Ordered(ts)
    ensures Allows(InProcess(rate, burst), None, ts) == Allows(InSql(rate, burst), None, ts)
    ensures Ran(InProcess(rate, burst), None, ts) == Ran(InSql(rate, burst), None, ts)
  {
    SameOnOrdered(InProcess(rate, burst), InSql(rate, burst), None, ts);
  }

  /** The bucket in the process meets the bound when the times do not go back. */
  lemma ProcessBound(rate: real, burst: real, ts: seq<real>, i: nat, j: nat)
    requires i <= j < |ts| && Ordered(ts) && Allows(InProcess(rate, burst), None, ts)[j]
    ensures Count(Allows(InProcess(rate, burst), None, ts)[i..j + 1]) <= burst + rate * (ts[j] - ts[i])
  {
    BucketsAgree(rate, burst, ts);
    SqlBound(rate, burst, ts, i, j);
  }

  lemma ThreeChecks(l: Limit, a: real, b: real, c: real, b0: Bucket, b1: Bucket)
    requires b0 == After(l, None, a) && b1 == After(l, Some(b0), b)
    ensures Allows(l, None, [a, b, c]) == [Allowed(l, None, a), Allowed(l, Some(b0), b), Allowed(l, Some(b1), c)]
    ensures Count(Allows(l, None, [a, b, c])) == Spent(l, None, a) + Spent(l, Some(b0), b) + Spent(l, Some(b1), c)
  {
    assert [a, b, c][1..] == [b, c] && [b, c][1..] == [c] && [c][1..] == [];
    assert Allows(l, Some(b1), [c]) == [Allowed(l, Some(b1), c)];
    assert Allows(l, Some(b0), [b, c]) == [Allowed(l, Some(b0), b)] + Allows(l, Some(b1), [c]);
    CountStep(l, None, [a, b, c]);
    CountStep(l, Some(b0), [b, c]);
    CountStep(l, Some(b1), [c]);
  }

  /** And fails it when one time goes back: two checks at one moment are allowed with a
      burst of one, because the clock stood still on the way back and ran on the way
      forth. */
  lemma ProcessBoundFails()
    ensures var l := InProcess(1.0, 1.0);
            && Allows(l, None, [10.0, 0.0, 10.0]) == [true, false, true]
            && Count(Allows(l, None, [10.0, 0.0, 10.0])) > 1.0 + 1.0 * (10.0 - 10.0)
  {
    ThreeChecks(InProcess(1.0, 1.0), 10.0, 0.0, 10.0, Bucket(0.0, 10.0), Bucket(0.0, 0.0));
  }

  /** The bound, for one choice of limit and one pair of checks. */
  ghost predicate Meets(rate: real, burst: real, ts: seq<real>, i: nat, j: nat) {
    (rate > 0.0 && burst > 0.0 && i <= j < |ts| && Allows(InProcess(rate, burst), None, ts)[j]) ==>
      Count(Allows(InProcess(rate, burst), None, ts)[i..j + 1]) <= burst + rate * (ts[j] - ts[i])
  }

  lemma {:induction false} StepDown(ts: seq<real>, i: nat, j: nat) returns (k: nat)
    requires i <= j < |ts| && ts[i] > ts[j]
    ensures k + 1 < |ts| && ts[k] > ts[k + 1]
    decreases j - i
  {
    if ts[i] > ts[i + 1] { k := i; } else { k := StepDown(ts, i + 1, j); }
  }

  /** A burst as large as the number of checks refuses none of them. */
  lemma {:induction false} Plenty(l: Limit, s: Option<Bucket>, ts: seq<real>)
    requires l.burst >= |ts| as real && (s.Some? ==> s.value.tokens >= |ts| as real)
             && forall a, b :: l.refill(a, b) >= 0.0
    ensures forall k :: 0 <= k < |ts| ==> Allows(l, s, ts)[k]
    decreases |ts|
  {
    if ts != [] {
      assert s.Some? ==> l.refill(s.value.at, ts[0]) >= 0.0;
      var b := After(l, s, ts[0]);
      Plenty(l, Some(b), ts[1..]);
      assert forall k :: 1 <= k < |ts| ==> Allows(l, s, ts)[k] == Allows(l, Some(b), ts[1..])[k - 1];
    }
  }

  lemma ScaleLe(r: real, a: real, b: real)
    requires r > 0.0
    ensures a <= b <==> r * a <= r * b
  {
    if a <= b { assert r * (b - a) >= 0.0; } else { assert r * (a - b) > 0.0; }
  }

  lemma ProcessGives(rate: real, burst: real)
    requires rate > 0.0
    ensures forall a, b :: InProcess(rate, burst).refill(a, b) >= 0.0
  {
    var l := InProcess(rate, burst);
    forall a, b ensures l.refill(a, b) >= 0.0 {
      if b >= a { ScaleLe(rate, 0.0, b - a); }
    }
  }

  lemma TwoAllowed(bs: seq<bool>, k: nat)
    requires k + 1 < |bs| && bs[k] && bs[k + 1]
    ensures Count(bs[k..k + 2]) == 2.0
  {
    assert bs[k..k + 2] == [true, true];
    assert [true, true][1..] == [true] && [true][1..] == [];
  }

  /** A time that goes back breaks the bound for some limit. */
  lemma BackBreaks(ts: seq<real>, k: nat) returns (rate: real, burst: real)
    requires k + 1 < |ts| && ts[k] > ts[k + 1]
    ensures !Meets(rate, burst, ts, k, k + 1)
  {
    var gap := ts[k] - ts[k + 1];
    burst := |ts| as real;
    rate := burst / gap;
    assert rate * gap == burst;
    assert rate > 0.0;
    var l := InProcess(rate, burst);
    ProcessGives(rate, burst);
    Plenty(l, None, ts);
    TwoAllowed(Allows(l, None, ts), k);
    assert rate * (ts[k + 1] - ts[k]) == -(rate * gap);
  }

  /** The bucket in the process meets the bound, whatever the limit, exactly on times
      that do not go back. */
  lemma ProcessBoundExactly(ts: seq<real>)
    ensures (forall rate, burst, i, j :: Meets(rate, burst, ts, i, j)) <==> Ordered(ts)
  {
    if Ordered(ts) {
      forall rate: real, burst: real, i: nat, j: nat ensures Meets(rate, burst, ts, i, j) {
        if i <= j < |ts| && Allows(InProcess(rate, burst), None, ts)[j] { ProcessBound(rate, burst, ts, i, j); }
      }
    } else {
      var i, j :| 0 <= i <= j < |ts| && ts[i] > ts[j];
      var k := StepDown(ts, i, j);
      var _, _ := BackBreaks(ts, k);
    }
  }

  // ----- the waiting time -----

  lemma CeilBounds(x: real)
    ensures Ceil(x) as real - 1.0 < x <= Ceil(x) as real
  {}

  lemma WaitFor(rate: real, gap: real, m: int)
    requires rate > 0.0 && gap > 0.0 && m >= 1
    ensures gap <= rate * m as real <==> m >= Ceil(gap / rate)
  {
    var x := gap / rate;
    assert rate * x == gap;
    CeilBounds(x);
    ScaleLe(rate, x, m as real);
    assert x <= m as real <==> Ceil(x) <= m;
  }

  /** `retry_after` is the least whole number of seconds, at least one, after which the
      client is allowed; with a burst below one there is none. */
  lemma RetryIsLeast(rate: real, l: Limit, s: Option<Bucket>, now: real, m: int)
    requires rate > 0.0 && (l == InSql(rate, l.burst) || l == InProcess(rate, l.burst)) && !Allowed(l, s, now) && m >= 1
    ensures Allowed(l, Some(After(l, s, now)), now + m as real)
            <==> l.burst >= 1.0 && m >= RetryAfter(rate, Avail(l, s, now))
  {
    var t := Avail(l, s, now);
    assert l.refill(now, now + m as real) == rate * m as real;
    WaitFor(rate, 1.0 - t, m);
  }
}
