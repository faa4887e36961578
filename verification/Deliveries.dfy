/** What one delivery leaves in the table, the store and the key cache, and what a transaction
    of them publishes. */
module Deliveries {
  import opened Mappings
  import opened Envelope
  import opened Originals

  // ----- the cache -----

  /** Dropping keeps the order of the others. */
  lemma {:induction false} DropConcat(a: Cache, b: Cache, k: Bytes)
    ensures Drop(a + b, k) == Drop(a, k) + Drop(b, k)
  {
    if a == [] {
      assert a + b == b && [] + Drop(b, k) == Drop(b, k);
    } else {
      DropFirst(a + b, a[1..] + b, k);
      DropFirst(a, a[1..], k);
      DropConcat(a[1..], b, k);
      DropAssoc(if a[0].objectKey == k then [] else [a[0]], Drop(a[1..], k), Drop(b, k));
    }
  }

  lemma DropFirst(cache: Cache, rest: Cache, k: Bytes)
    requires cache != [] && rest == cache[1..]
    ensures Drop(cache, k) == (if cache[0].objectKey == k then [] else [cache[0]]) + Drop(rest, k)
  {}

  lemma DropAssoc(a: Cache, b: Cache, c: Cache)
    ensures a + (b + c) == (a + b) + c
  {}

  /** A key is handed out exactly while its entry lives; it is then the freshest, and an entry that
      has expired is gone. The others stay in their order. */
  lemma CacheGetIs(cache: Cache, k: Bytes, clock: int)
    ensures var (r, c) := CacheGet(cache, k, clock);
            && (r.Some? <==> Find(cache, k).Some? && clock < Find(cache, k).value.expiry)
            && (r.Some? ==> c == Drop(cache, k) + [Find(cache, k).value] && r == Some(Find(cache, k).value.key))
            && (r.None? ==> c == Drop(cache, k))
  {
    if Find(cache, k).None? { NeverFound(cache, k); }
  }

  lemma {:induction false} NeverFound(cache: Cache, k: Bytes)
    requires Find(cache, k).None?
    ensures Drop(cache, k) == cache
  {
    if cache != [] { NeverFound(cache[1..], k); }
  }

  /** A stored key is the freshest, replaces any other of its object, and pushes out the oldest only
      as far as the bound demands. */
  lemma CachePutIs(cache: Cache, k: Bytes, key: DataKey, expiry: int, size: nat) returns (n: nat)
    ensures var all, c := Drop(cache, k) + [Entry(k, key, expiry)], CachePut(cache, k, key, expiry, size);
            n <= |all| && c == all[n..] && |c| <= size && (n > 0 ==> |c| == size)
  {
    var all := Drop(cache, k) + [Entry(k, key, expiry)];
    n := if |all| <= size then 0 else |all| - size;
  }

  /** What was cached is found. */
  lemma PutFinds(cache: Cache, k: Bytes, key: DataKey, expiry: int, size: nat)
    requires size > 0
    ensures Find(CachePut(cache, k, key, expiry, size), k) == Some(Entry(k, key, expiry))
  {
    var x, c := Entry(k, key, expiry), CachePut(cache, k, key, expiry, size);
    var all := Drop(cache, k) + [x];
    assert c[|c| - 1] == x;
    forall y | y in c && y.objectKey == k ensures y == x { assert y in all; }
    OnlyEntry(c, k, x);
  }

  /** A key that had to be unwrapped is cached. */
  lemma UnwrapCaches(cr: Crypto, cfg: Config, rows: Rows, cache: Cache, k: Bytes, g: Draw)
    requires Find(cache, k).None?
    ensures var (key, c) := Unwrap(cr, cfg, rows, cache, k, g);
            key.Some? ==> c == CachePut(cache, k, key.value, g.clock + cfg.ttl, cfg.size)
  {}

  lemma {:induction false} OnlyEntry(c: Cache, k: Bytes, x: Entry)
    requires x in c && x.objectKey == k && forall y :: y in c && y.objectKey == k ==> y == x
    ensures Find(c, k) == Some(x)
  {
    if c[0].objectKey != k { OnlyEntry(c[1..], k, x); }
  }

  // ----- the key row -----

  /** After a write the row says that the object is sealed; a row that was there keeps its owner and
      its key, a new one is the deliverer's. Delivered unchanged, the object passes to the
      deliverer. */
  lemma PutRow(cr: Crypto, cfg: Config, w: World, owner: nat, k: Bytes, data: Bytes, g: Draw)
    ensures var (r, w') := PutOriginal(cr, cfg, w, owner, k, data, g);
            && (r == Wrote ==>
                  && k in w'.rows && w'.rows[k].sealedAt == Some(g.now)
                  && w'.rows[k].owner == (if k in w.rows then w.rows[k].owner else owner)
                  && (k in w.rows ==> w'.rows[k].keyId == w.rows[k].keyId && w'.rows[k].kek == w.rows[k].kek
                                      && w'.rows[k].wrapped == w.rows[k].wrapped)
                  && (k !in w.rows ==> w'.rows[k].kek == g.kek && w'.rows[k].wrapped == cr.wrap(g.kek, g.material)))
            && (r == Unchanged ==> k in w.rows && w'.rows == w.rows[k := w.rows[k].(owner := owner)])
            && (r !in {Wrote, Unchanged} ==> w'.rows == w.rows)
  {}

  // ----- the clean-up -----

  /** A delivery that fails behind its write leaves no object of its own, and every other object as
      it was; one that did not write leaves all of them. */
  lemma FailedLeavesNothing(cr: Crypto, cfg: Config, w: World, x: Delivery)
    requires x.fails
    ensures var k, (ok, w') := Address(cr, x.data), Ingest(cr, cfg, w, x);
            var wrote := PutOriginal(cr, cfg, w, x.owner, k, x.data, x.g).0 == Wrote;
            && !ok && w'.objects == (if wrote then w.objects - {k} else w.objects)
  {
    var k := Address(cr, x.data);
    var (r, w1) := PutOriginal(cr, cfg, w, x.owner, k, x.data, x.g);
    PutTouches(cr, cfg, w, x.owner, k, x.data, x.g);
    assert w1.objects - {k} == w.objects - {k};
  }

  // ----- a transaction -----

  /** Deliveries of an open transaction, none of which raises. */
  function Delivered(cr: Crypto, cfg: Config, w: World, xs: seq<Delivery>): Option<World>
    decreases |xs|
  {
    if xs == [] then Some(w)
    else
      var (ok, w') := Ingest(cr, cfg, w, xs[0]);
      if ok then Delivered(cr, cfg, w', xs[1..]) else None
  }

  /** The bytes of `data` stand sealed under their address, as the transaction sees it. */
  ghost predicate InFlight(cr: Crypto, w: World, k: Bytes, data: Bytes, since: int) {
    k in w.objects && w.objects[k].modified == since && ReadBack(cr, w.objects, w.rows, k) == Some(data)
  }

  lemma IngestIs(cr: Crypto, cfg: Config, w: World, x: Delivery)
    requires Ingest(cr, cfg, w, x).0
    ensures Ingest(cr, cfg, w, x).1 == PutOriginal(cr, cfg, w, x.owner, Address(cr, x.data), x.data, x.g).1
  {}

  /** A delivery leaves what is in flight as it is. */
  lemma IngestKeeps(cr: Crypto, cfg: Config, w: World, x: Delivery, k: Bytes, data: Bytes, since: int)
    requires Ideal(cr) && Inv(cr, w) && |x.g.nonce| == NONCE_LEN && Ingest(cr, cfg, w, x).0
    requires InFlight(cr, w, k, data, since)
    ensures Inv(cr, Ingest(cr, cfg, w, x).1) && InFlight(cr, Ingest(cr, cfg, w, x).1, k, data, since)
  {
    var a := Address(cr, x.data);
    IngestInv(cr, cfg, w, x);
    IngestIs(cr, cfg, w, x);
    PutTouches(cr, cfg, w, x.owner, a, x.data, x.g);
    PutKeepsReadable(cr, cfg, w, x.owner, a, x.data, x.g, k);
    if PutOriginal(cr, cfg, w, x.owner, a, x.data, x.g).0 == Wrote {
      WroteOverNothing(cr, cfg, w, x.owner, a, x.data, x.g);
    }
  }

  lemma {:induction false} DeliveredKeeps(cr: Crypto, cfg: Config, w: World, xs: seq<Delivery>, w': World, k: Bytes,
                                          data: Bytes, since: int)
    requires Ideal(cr) && Inv(cr, w) && Fit(xs) && Delivered(cr, cfg, w, xs) == Some(w')
    requires InFlight(cr, w, k, data, since)
    ensures Inv(cr, w') && InFlight(cr, w', k, data, since)
    decreases |xs|
  {
    if xs != [] {
      IngestKeeps(cr, cfg, w, xs[0], k, data, since);
      DeliveredKeeps(cr, cfg, Ingest(cr, cfg, w, xs[0]).1, xs[1..], w', k, data, since);
    }
  }

  /** A delivery that goes through reads back, to its transaction, as what was delivered. */
  lemma DeliveredReads(cr: Crypto, cfg: Config, w: World, x: Delivery)
    requires Ideal(cr) && Inv(cr, w) && |x.g.nonce| == NONCE_LEN && x.g.up && Ingest(cr, cfg, w, x).0
    requires Unforged(cr, w, Address(cr, x.data), x.data)
    ensures var k, w' := Address(cr, x.data), Ingest(cr, cfg, w, x).1;
            Inv(cr, w') && k in w'.objects && InFlight(cr, w', k, x.data, w'.objects[k].modified)
  {
    IngestInv(cr, cfg, w, x);
    PutMakesReadable(cr, cfg, w, x.owner, Address(cr, x.data), x.data, x.g);
  }

  lemma {:induction false} DeliveredInv(cr: Crypto, cfg: Config, w: World, xs: seq<Delivery>, w': World)
    requires Ideal(cr) && Inv(cr, w) && Fit(xs) && Delivered(cr, cfg, w, xs) == Some(w')
    ensures Inv(cr, w') && w'.committed == w.committed
    decreases |xs|
  {
    if xs != [] {
      IngestInv(cr, cfg, w, xs[0]);
      DeliveredInv(cr, cfg, Ingest(cr, cfg, w, xs[0]).1, xs[1..], w');
    }
  }

  /** A transaction none of whose deliveries raises is published by its commit as it stands, and
      otherwise leaves the table as it was committed before. */
  lemma {:induction false} TransactionIs(cr: Crypto, cfg: Config, w: World, xs: seq<Delivery>, commit: bool)
    ensures var r, w' := Delivered(cr, cfg, w, xs), Transaction(cr, cfg, w, xs, commit);
            && (r.Some? && commit ==> w' == r.value.(committed := r.value.rows))
            && (r.Some? && !commit ==> w' == r.value.(rows := r.value.committed))
            && (r.None? ==> w'.rows == w'.committed == w.committed)
    decreases |xs|
  {
    if xs != [] {
      PutTouches(cr, cfg, w, xs[0].owner, Address(cr, xs[0].data), xs[0].data, xs[0].g);
      TransactionIs(cr, cfg, Ingest(cr, cfg, w, xs[0]).1, xs[1..], commit);
    }
  }

  lemma {:induction false} DeliveredAppend(cr: Crypto, cfg: Config, w: World, xs: seq<Delivery>, ys: seq<Delivery>)
    ensures Delivered(cr, cfg, w, xs + ys)
         == match Delivered(cr, cfg, w, xs) case None => None case Some(v) => Delivered(cr, cfg, v, ys)
    decreases |xs|
  {
    if xs == [] {
      assert xs + ys == ys;
    } else {
      assert (xs + ys)[1..] == xs[1..] + ys;
      DeliveredAppend(cr, cfg, Ingest(cr, cfg, w, xs[0]).1, xs[1..], ys);
    }
  }

  /** Of a committed transaction every delivery reads back: whatever was delivered before it, `a`,
      and after it, `b`. */
  lemma CommittedReads(cr: Crypto, cfg: Config, w: World, a: seq<Delivery>, v: World, x: Delivery, b: seq<Delivery>)
    requires Ideal(cr) && Inv(cr, w) && Fit(a) && Fit([x]) && Fit(b) && x.g.up
    requires Delivered(cr, cfg, w, a) == Some(v) && Unforged(cr, v, Address(cr, x.data), x.data)
    requires Delivered(cr, cfg, w, a + [x] + b).Some?
    ensures var w' := Transaction(cr, cfg, w, a + [x] + b, true);
            ReadBack(cr, w'.objects, w'.committed, Address(cr, x.data)) == Some(x.data)
  {
    var k := Address(cr, x.data);
    DeliveredInv(cr, cfg, w, a, v);
    DeliveredAppend(cr, cfg, w, a + [x], b);
    DeliveredAppend(cr, cfg, w, a, [x]);
    assert [x][0] == x && [x][1..] == [];
    DeliveredReads(cr, cfg, v, x);
    var u := Ingest(cr, cfg, v, x).1;
    DeliveredKeeps(cr, cfg, u, b, Delivered(cr, cfg, u, b).value, k, x.data, u.objects[k].modified);
    TransactionIs(cr, cfg, w, a + [x] + b, true);
  }

  /** A delivery that writes has its bytes in flight from then on. */
  lemma Launched(cr: Crypto, cfg: Config, w: World, x: Delivery)
    requires Ideal(cr) && Inv(cr, w) && |x.g.nonce| == NONCE_LEN && x.g.up && !x.fails
    requires Unforged(cr, w, Address(cr, x.data), x.data)
    requires PutOriginal(cr, cfg, w, x.owner, Address(cr, x.data), x.data, x.g).0 == Wrote
    ensures Ingest(cr, cfg, w, x).0
    ensures var w' := Ingest(cr, cfg, w, x).1; Inv(cr, w') && InFlight(cr, w', Address(cr, x.data), x.data, x.g.now)
  {
    var k := Address(cr, x.data);
    IngestInv(cr, cfg, w, x);
    PutMakesReadable(cr, cfg, w, x.owner, k, x.data, x.g);
    WrittenNow(cr, cfg, w, x.owner, k, x.data, x.g);
  }

  lemma WrittenNow(cr: Crypto, cfg: Config, w: World, owner: nat, k: Bytes, data: Bytes, g: Draw)
    requires PutOriginal(cr, cfg, w, owner, k, data, g).0 == Wrote
    ensures var w' := PutOriginal(cr, cfg, w, owner, k, data, g).1; k in w'.objects && w'.objects[k].modified == g.now
  {}
}
