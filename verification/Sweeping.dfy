/** The orphan sweep beside a transaction that is still open: what it wrote within the hour is
    neither found nor removed, and reads back after the commit. */
module Sweeping {
  import opened Mappings
  import opened Envelope
  import opened Originals
  import opened Deliveries

  lemma SweptInv(cr: Crypto, w: World, found: seq<Bytes>)
    requires Inv(cr, w)
    ensures Inv(cr, Swept(w, found))
  {}

  lemma SweptKeeps(cr: Crypto, w: World, found: seq<Bytes>, k: Bytes, data: Bytes, since: int)
    requires InFlight(cr, w, k, data, since) && k !in found
    ensures InFlight(cr, Swept(w, found), k, data, since)
  {}

  /** What was written less than an hour ago is not found, whatever the table says. */
  lemma YoungNotFound(w: World, rows: Rows, listing: seq<Bytes>, now: int, k: Bytes)
    requires k in w.objects && now < w.objects[k].modified + 3600
    ensures k !in Orphans(w.objects, rows, listing, now)
  {
    OrphansAre(w.objects, rows, listing, now);
  }

  /** A write in flight is never touched. A transaction writes an original and delivers more; less
      than an hour after that write a sweep lists the objects against the committed keys; more
      deliveries; the sweep removes what it found; more deliveries; then the commit. The original
      reads back. */
  lemma InFlightSurvives(cr: Crypto, cfg: Config, w: World, x: Delivery, more: seq<Delivery>, w1: World,
                         listing: seq<Bytes>, now: int, late: seq<Delivery>, w2: World, last: seq<Delivery>, w3: World)
    requires Ideal(cr) && Inv(cr, w) && |x.g.nonce| == NONCE_LEN && x.g.up && !x.fails
    requires Unforged(cr, w, Address(cr, x.data), x.data) && Fit(more) && Fit(late) && Fit(last)
    requires PutOriginal(cr, cfg, w, x.owner, Address(cr, x.data), x.data, x.g).0 == Wrote && now < x.g.now + 3600
    requires Delivered(cr, cfg, Ingest(cr, cfg, w, x).1, more) == Some(w1)
    requires Delivered(cr, cfg, w1, late) == Some(w2)
    requires Delivered(cr, cfg, Swept(w2, Orphans(w1.objects, w1.committed, listing, now)), last) == Some(w3)
    ensures var k, w' := Address(cr, x.data), Committed(w3);
            && ReadBack(cr, w'.objects, w'.committed, k) == Some(x.data)
            && k !in Orphans(w1.objects, w1.committed, listing, now)
  {
    var k, found := Address(cr, x.data), Orphans(w1.objects, w1.committed, listing, now);
    Launched(cr, cfg, w, x);
    DeliveredKeeps(cr, cfg, Ingest(cr, cfg, w, x).1, more, w1, k, x.data, x.g.now);
    YoungNotFound(w1, w1.committed, listing, now, k);
    DeliveredKeeps(cr, cfg, w1, late, w2, k, x.data, x.g.now);
    SweptInv(cr, w2, found);
    SweptKeeps(cr, w2, found, k, x.data, x.g.now);
    DeliveredKeeps(cr, cfg, Swept(w2, found), last, w3, k, x.data, x.g.now);
  }

  /** An hour later it is: the same listing, once the hour is over and the row not committed, has
      the object. */
  lemma OldIsFound(cr: Crypto, cfg: Config, w: World, x: Delivery, now: int)
    requires Ideal(cr) && Inv(cr, w) && |x.g.nonce| == NONCE_LEN && x.g.up && !x.fails
    requires Unforged(cr, w, Address(cr, x.data), x.data) && Address(cr, x.data) !in w.committed
    requires PutOriginal(cr, cfg, w, x.owner, Address(cr, x.data), x.data, x.g).0 == Wrote
    ensures var k, w' := Address(cr, x.data), Ingest(cr, cfg, w, x).1;
            k in Orphans(w'.objects, w'.committed, [k], now) <==> now >= x.g.now + 3600
  {
    var k, w' := Address(cr, x.data), Ingest(cr, cfg, w, x).1;
    Launched(cr, cfg, w, x);
    PutTouches(cr, cfg, w, x.owner, k, x.data, x.g);
    WrittenSealed(cr, cfg, w, x.owner, k, x.data, x.g);
    HeaderThere(cr, w', k);
    OrphansAre(w'.objects, w'.committed, [k], now);
    assert k in [k];
  }

  lemma HeaderThere(cr: Crypto, w: World, k: Bytes)
    requires Ideal(cr) && Inv(cr, w) && k in w.objects && IsSealed(w.objects[k].data)
    ensures HeaderKeyId(w.objects[k].data).Some?
  {
    var m :| SealedFor(cr, k, m, w.objects[k].data);
    var p :| SealedAs(cr, m, k, p, w.objects[k].data);
    SealOpens(cr, m, k, p, w.objects[k].data);
  }
}
