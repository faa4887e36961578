/** Original documents: sealed objects in a store that never rolls back, under keys
    in a table that does, with one cache of opened keys that lives as long as the
    process. */
module Originals {
  import opened Mappings
  import opened Envelope

  // ----- the cache of opened keys -----

  datatype DataKey = DataKey(id: Bytes, material: Bytes)
  datatype Entry = Entry(objectKey: Bytes, key: DataKey, expiry: int)
  type Cache = seq<Entry>

  function Drop(cache: Cache, k: Bytes): (r: Cache)
    ensures forall x :: x in r <==> x in cache && x.objectKey != k
    ensures |r| <= |cache|
  {
    if cache == [] then []
    else (if cache[0].objectKey == k then [] else [cache[0]]) + Drop(cache[1..], k)
  }

  function Find(cache: Cache, k: Bytes): (r: Option<Entry>)
    ensures r.Some? ==> r.value in cache && r.value.objectKey == k
  {
    if cache == [] then None else if cache[0].objectKey == k then Some(cache[0]) else Find(cache[1..], k)
  }

  /** A live entry moves to the fresh end; an expired one goes. */
  function CacheGet(cache: Cache, k: Bytes, clock: int): (Option<DataKey>, Cache) {
    match Find(cache, k)
    case None => (None, cache)
    case Some(x) => if x.expiry <= clock then (None, Drop(cache, k)) else (Some(x.key), Drop(cache, k) + [x])
  }

  /** The last `size` entries. */
  function Newest(cache: Cache, size: nat): (r: Cache)
    ensures |r| <= size && forall x :: x in r ==> x in cache
  {
    if |cache| <= size then cache else cache[|cache| - size..]
  }

  lemma NewestTail(cache: Cache, size: nat)
    requires |cache| > size
    ensures Newest(cache[1..], size) == Newest(cache, size)
  {}

  function CachePut(cache: Cache, k: Bytes, key: DataKey, expiry: int, size: nat): Cache {
    Newest(Drop(cache, k) + [Entry(k, key, expiry)], size)
  }

  // ----- the key table -----

  datatype KeyRow = KeyRow(owner: nat, keyId: Bytes, kek: string, wrapped: Bytes, sealedAt: Option<int>)
  type Rows = map<Bytes, KeyRow>

  datatype Object = Object(data: Bytes, modified: int)

  /** The object store, the key table as this transaction sees it and as it was last
      committed, and the cache. */
  datatype World = World(objects: map<Bytes, Object>, rows: Rows, committed: Rows, cache: Cache)

  /** What one call draws from outside: key material, a nonce, whether the key service
      answers, the key-encryption key of the domain, and the clocks. */
  datatype Draw = Draw(material: Bytes, nonce: Bytes, up: bool, kek: string, clock: int, now: int)

  datatype Config = Config(size: nat, ttl: int)

  // ----- reading -----

  function Opens(cr: Crypto, row: KeyRow, k: Bytes, data: Bytes): Option<Bytes> {
    match cr.unwrap(row.kek, row.wrapped)
    case None => None
    case Some(m) => OpenSealed(cr, m, row.keyId, k, data)
  }

  /** What a reader with a working key service and a cold cache gets for `k`. */
  function ReadBack(cr: Crypto, objects: map<Bytes, Object>, rows: Rows, k: Bytes): Option<Bytes> {
    if k !in objects then None
    else if !IsSealed(objects[k].data) then
      if k in rows && rows[k].sealedAt.Some? then None else Some(objects[k].data)
    else if k !in rows then None
    else Opens(cr, rows[k], k, objects[k].data)
  }

  /** `DocumentKeys.unwrap`. */
  function Unwrap(cr: Crypto, cfg: Config, rows: Rows, cache: Cache, k: Bytes, g: Draw): (Option<DataKey>, Cache) {
    var (hit, c) := CacheGet(cache, k, g.clock);
    if hit.Some? then (hit, c)
    else if k !in rows || !g.up then (None, c)
    else match cr.unwrap(rows[k].kek, rows[k].wrapped)
      case None => (None, c)
      case Some(m) =>
        var key := DataKey(rows[k].keyId, m);
        (Some(key), CachePut(c, k, key, g.clock + cfg.ttl, cfg.size))
  }

  /** `get_original`. */
  function Get(cr: Crypto, cfg: Config, w: World, k: Bytes, g: Draw): (Option<Bytes>, World) {
    if k !in w.objects then (None, w)
    else if !IsSealed(w.objects[k].data) then (ReadBack(cr, w.objects, w.rows, k), w)
    else
      var (key, c) := Unwrap(cr, cfg, w.rows, w.cache, k, g);
      (if key.None? then None else OpenSealed(cr, key.value.material, key.value.id, k, w.objects[k].data),
       w.(cache := c))
  }

  // ----- the five rules -----

  datatype Rule = Same | Reseal | Mint | Keep | Refuse | Malformed

  function RuleFor(row: Option<KeyRow>, stored: Option<Bytes>): Rule {
    if stored.Some? && !IsSealed(stored.value) then
      if row.None? || row.value.sealedAt.None? then Keep else Refuse
    else if row.None? then Mint
    else if stored.None? then Reseal
    else match HeaderKeyId(stored.value)
      case None => Malformed
      case Some(id) => if id == row.value.keyId then Same else Reseal
  }

  datatype Put = Wrote | Unchanged | Legacy | Downgrade | BadHeader | KeyUnavailable

  function RowAt(rows: Rows, k: Bytes): Option<KeyRow> { if k in rows then Some(rows[k]) else None }

  function DataAt(objects: map<Bytes, Object>, k: Bytes): Option<Bytes> {
    if k in objects then Some(objects[k].data) else None
  }

  /** Sealed and written under `row`, which now says so. */
  function Written(cr: Crypto, w: World, row: KeyRow, key: DataKey, k: Bytes, data: Bytes, g: Draw): World {
    w.(objects := w.objects[k := Object(Seal(cr, key.material, key.id, k, g.nonce, data), g.now)],
       rows := w.rows[k := row.(sealedAt := Some(g.now))])
  }

  function PutNew(cr: Crypto, cfg: Config, w: World, owner: nat, k: Bytes, data: Bytes, g: Draw): (Put, World) {
    if !g.up then (KeyUnavailable, w)
    else
      var key := DataKey(cr.keyId(g.material), g.material);
      var row := KeyRow(owner, key.id, g.kek, cr.wrap(g.kek, g.material), None);
      var c := CachePut(w.cache, k, key, g.clock + cfg.ttl, cfg.size);
      (Wrote, Written(cr, w.(cache := c), row, key, k, data, g))
  }

  function PutAgain(cr: Crypto, cfg: Config, w: World, k: Bytes, data: Bytes, g: Draw): (Put, World)
    requires k in w.rows
  {
    var (key, c) := Unwrap(cr, cfg, w.rows, w.cache, k, g);
    if key.None? then (KeyUnavailable, w.(cache := c))
    else (Wrote, Written(cr, w.(cache := c), w.rows[k], key.value, k, data, g))
  }

  /** `put_original`. */
  function PutOriginal(cr: Crypto, cfg: Config, w: World, owner: nat, k: Bytes, data: Bytes, g: Draw): (Put, World) {
    match RuleFor(RowAt(w.rows, k), DataAt(w.objects, k))
    case Same => (Unchanged, w.(rows := w.rows[k := w.rows[k].(owner := owner)]))
    case Reseal => PutAgain(cr, cfg, w, k, data, g)
    case Mint => PutNew(cr, cfg, w, owner, k, data, g)
    case Keep => (Legacy, w)
    case Refuse => (Downgrade, w)
    case Malformed => (BadHeader, w)
  }

  // ----- what every step keeps -----

  function Material(cr: Crypto, row: KeyRow): Option<Bytes> { cr.unwrap(row.kek, row.wrapped) }

  ghost predicate RowsSound(cr: Crypto, rows: Rows) {
    forall k :: k in rows ==> Material(cr, rows[k]).Some? && cr.keyId(Material(cr, rows[k]).value) == rows[k].keyId
  }

  /** The transaction's rows extend the committed ones; a key row is never re-keyed. */
  ghost predicate Grown(committed: Rows, rows: Rows) {
    forall k :: k in committed ==> k in rows && rows[k].keyId == committed[k].keyId
                                   && rows[k].kek == committed[k].kek && rows[k].wrapped == committed[k].wrapped
  }

  /** A cached key is the key of its row, if there is one. */
  ghost predicate Coherent(cr: Crypto, rows: Rows, cache: Cache) {
    forall x :: x in cache ==>
      && x.key.id == cr.keyId(x.key.material)
      && (x.objectKey in rows ==> Material(cr, rows[x.objectKey]) == Some(x.key.material))
  }

  /** `data` is sealed for `k`, over a text with that address. */
  ghost predicate SealedFor(cr: Crypto, k: Bytes, m: Bytes, data: Bytes) {
    exists p :: SealedAs(cr, m, k, p, data) && Address(cr, p) == k
  }

  ghost predicate ObjectSound(cr: Crypto, k: Bytes, data: Bytes) {
    if IsSealed(data) then exists m :: SealedFor(cr, k, m, data) else Address(cr, data) == k
  }

  /** An object whose header names its row's key is sealed under that key: twelve
      characters of a digest do not collide between the keys of one object. */
  ghost predicate HeaderTrue(cr: Crypto, rows: Rows, k: Bytes, data: Bytes) {
    (k in rows && IsSealed(data) && HeaderKeyId(data) == Some(rows[k].keyId) && Material(cr, rows[k]).Some?) ==>
      SealedFor(cr, k, Material(cr, rows[k]).value, data)
  }

  ghost predicate ObjectsSound(cr: Crypto, objects: map<Bytes, Object>, rows: Rows) {
    forall k :: k in objects ==> ObjectSound(cr, k, objects[k].data) && HeaderTrue(cr, rows, k, objects[k].data)
  }

  ghost predicate Inv(cr: Crypto, w: World) {
    && RowsSound(cr, w.rows) && Grown(w.committed, w.rows) && Coherent(cr, w.rows, w.cache)
    && ObjectsSound(cr, w.objects, w.rows)
  }

  // ----- reading is sound -----

  /** A sealed object that opens yields a text with its address. */
  lemma OpenedAddress(cr: Crypto, m: Bytes, id: Bytes, k: Bytes, data: Bytes)
    requires Ideal(cr) && IsSealed(data) && ObjectSound(cr, k, data) && OpenSealed(cr, m, id, k, data).Some?
    ensures Address(cr, OpenSealed(cr, m, id, k, data).value) == k
  {
    var m' :| SealedFor(cr, k, m', data);
    var p :| SealedAs(cr, m', k, p, data) && Address(cr, p) == k;
    var nonce: Bytes :| |nonce| == NONCE_LEN && data == Seal(cr, m', cr.keyId(m'), k, nonce, p);
    SealLayout(cr, m', cr.keyId(m'), k, nonce, p);
  }

  lemma SealedReads(cr: Crypto, row: KeyRow, m: Bytes, k: Bytes, data: Bytes)
    requires Ideal(cr) && Material(cr, row) == Some(m) && cr.keyId(m) == row.keyId && SealedFor(cr, k, m, data)
    ensures IsSealed(data) && HeaderKeyId(data) == Some(row.keyId)
    ensures Opens(cr, row, k, data).Some? && Address(cr, Opens(cr, row, k, data).value) == k
  {
    var p :| SealedAs(cr, m, k, p, data) && Address(cr, p) == k;
    SealOpens(cr, m, k, p, data);
  }

  /** What `get_original` returns has the address it was asked for, whatever the cache
      holds. */
  lemma GetAddress(cr: Crypto, cfg: Config, w: World, k: Bytes, g: Draw)
    requires Ideal(cr) && Inv(cr, w) && Get(cr, cfg, w, k, g).0.Some?
    ensures Address(cr, Get(cr, cfg, w, k, g).0.value) == k
  {
    if IsSealed(w.objects[k].data) {
      var (key, _) := Unwrap(cr, cfg, w.rows, w.cache, k, g);
      OpenedAddress(cr, key.value.material, key.value.id, k, w.objects[k].data);
    }
  }

  /** Of a key with a row the cache hands out nothing else; without a row, what is cached
      and has not expired is handed out all the same. */
  lemma UnwrapSound(cr: Crypto, cfg: Config, rows: Rows, cache: Cache, k: Bytes, g: Draw)
    requires RowsSound(cr, rows) && Coherent(cr, rows, cache)
    ensures var (key, c) := Unwrap(cr, cfg, rows, cache, k, g);
            && Coherent(cr, rows, c)
            && (k in rows && key.Some? ==> key.value == DataKey(rows[k].keyId, Material(cr, rows[k]).value))
            && (k in rows && g.up ==> key.Some?)
            && (k !in rows ==> key == CacheGet(cache, k, g.clock).0)
  {}

  /** A live cached key opens a sealed object that has no row. */
  predicate Phantom(cr: Crypto, w: World, k: Bytes, clock: int) {
    && k in w.objects && IsSealed(w.objects[k].data) && k !in w.rows
    && var key := CacheGet(w.cache, k, clock).0;
       key.Some? && OpenSealed(cr, key.value.material, key.value.id, k, w.objects[k].data).Some?
  }

  /** With the key service up, a reader gets what the table and the store hold, exactly
      unless the cache still has the key of an object without a row. */
  lemma GetIsReadBack(cr: Crypto, cfg: Config, w: World, k: Bytes, g: Draw)
    requires Ideal(cr) && Inv(cr, w) && g.up
    ensures Get(cr, cfg, w, k, g).0 == ReadBack(cr, w.objects, w.rows, k) <==> !Phantom(cr, w, k, g.clock)
  {
    UnwrapSound(cr, cfg, w.rows, w.cache, k, g);
  }

  // ----- writing -----

  lemma WrittenReads(cr: Crypto, w: World, row: KeyRow, key: DataKey, k: Bytes, data: Bytes, g: Draw)
    requires Ideal(cr) && Material(cr, row) == Some(key.material) && key.id == cr.keyId(key.material) == row.keyId
    requires |g.nonce| == NONCE_LEN && Address(cr, data) == k
    ensures var w' := Written(cr, w, row, key, k, data, g);
            && SealedFor(cr, k, key.material, w'.objects[k].data)
            && ReadBack(cr, w'.objects, w'.rows, k) == Some(data)
  {
    var sealed := Seal(cr, key.material, key.id, k, g.nonce, data);
    assert SealedAs(cr, key.material, k, data, sealed);
    SealOpens(cr, key.material, k, data, sealed);
  }

  lemma WrittenRows(cr: Crypto, w: World, row: KeyRow, key: DataKey, k: Bytes, data: Bytes, g: Draw)
    requires Inv(cr, w) && Material(cr, row) == Some(key.material) && cr.keyId(key.material) == row.keyId
    requires k in w.rows ==> row == w.rows[k]
    requires k !in w.rows ==> forall x :: x in w.cache && x.objectKey == k ==> x.key == key
    ensures var w' := Written(cr, w, row, key, k, data, g);
            RowsSound(cr, w'.rows) && Grown(w'.committed, w'.rows) && Coherent(cr, w'.rows, w'.cache)
  {}

  lemma WrittenObjects(cr: Crypto, w: World, row: KeyRow, key: DataKey, k: Bytes, data: Bytes, g: Draw)
    requires Ideal(cr) && ObjectsSound(cr, w.objects, w.rows) && Material(cr, row) == Some(key.material)
    requires key.id == cr.keyId(key.material) == row.keyId && |g.nonce| == NONCE_LEN && Address(cr, data) == k
    ensures var w' := Written(cr, w, row, key, k, data, g); ObjectsSound(cr, w'.objects, w'.rows)
  {
    WrittenReads(cr, w, row, key, k, data, g);
    var w' := Written(cr, w, row, key, k, data, g);
    SealedReads(cr, row, key.material, k, w'.objects[k].data);
    forall k' | k' in w'.objects
      ensures ObjectSound(cr, k', w'.objects[k'].data) && HeaderTrue(cr, w'.rows, k', w'.objects[k'].data)
    {
      if k' != k { assert k' in w.objects && w'.objects[k'] == w.objects[k']; }
    }
  }

  lemma WrittenKeepsInv(cr: Crypto, w: World, row: KeyRow, key: DataKey, k: Bytes, data: Bytes, g: Draw)
    requires Ideal(cr) && Inv(cr, w) && Material(cr, row) == Some(key.material)
    requires key.id == cr.keyId(key.material) == row.keyId && |g.nonce| == NONCE_LEN && Address(cr, data) == k
    requires k in w.rows ==> row == w.rows[k]
    requires k !in w.rows ==> forall x :: x in w.cache && x.objectKey == k ==> x.key == key
    ensures Inv(cr, Written(cr, w, row, key, k, data, g))
  {
    WrittenRows(cr, w, row, key, k, data, g);
    WrittenObjects(cr, w, row, key, k, data, g);
  }

  lemma FreshCache(cr: Crypto, cache: Cache, rows: Rows, k: Bytes, key: DataKey, expiry: int, size: nat)
    requires Coherent(cr, rows, cache) && k !in rows && key.id == cr.keyId(key.material)
    ensures var c := CachePut(cache, k, key, expiry, size);
            Coherent(cr, rows, c) && forall x :: x in c && x.objectKey == k ==> x.key == key
  {}

  lemma AgainKeepsInv(cr: Crypto, cfg: Config, w: World, k: Bytes, data: Bytes, g: Draw)
    requires Ideal(cr) && Inv(cr, w) && Address(cr, data) == k && |g.nonce| == NONCE_LEN && k in w.rows
    ensures Inv(cr, PutAgain(cr, cfg, w, k, data, g).1)
  {
    UnwrapSound(cr, cfg, w.rows, w.cache, k, g);
    var (key, c) := Unwrap(cr, cfg, w.rows, w.cache, k, g);
    if key.Some? { WrittenKeepsInv(cr, w.(cache := c), w.rows[k], key.value, k, data, g); }
  }

  lemma NewKeepsInv(cr: Crypto, cfg: Config, w: World, owner: nat, k: Bytes, data: Bytes, g: Draw)
    requires Ideal(cr) && Inv(cr, w) && Address(cr, data) == k && |g.nonce| == NONCE_LEN && k !in w.rows
    ensures Inv(cr, PutNew(cr, cfg, w, owner, k, data, g).1)
  {
    if g.up {
      var key := DataKey(cr.keyId(g.material), g.material);
      var row := KeyRow(owner, key.id, g.kek, cr.wrap(g.kek, g.material), None);
      FreshCache(cr, w.cache, w.rows, k, key, g.clock + cfg.ttl, cfg.size);
      var c := CachePut(w.cache, k, key, g.clock + cfg.ttl, cfg.size);
      WrittenKeepsInv(cr, w.(cache := c), row, key, k, data, g);
    }
  }

  lemma OwnerKeepsInv(cr: Crypto, w: World, owner: nat, k: Bytes)
    requires Inv(cr, w) && k in w.rows
    ensures Inv(cr, w.(rows := w.rows[k := w.rows[k].(owner := owner)]))
  {}

  /** Every call keeps the table sound, the cache coherent and the objects sealed for
      their own keys. */
  lemma PutKeepsInv(cr: Crypto, cfg: Config, w: World, owner: nat, k: Bytes, data: Bytes, g: Draw)
    requires Ideal(cr) && Inv(cr, w) && Address(cr, data) == k && |g.nonce| == NONCE_LEN
    ensures Inv(cr, PutOriginal(cr, cfg, w, owner, k, data, g).1)
  {
    match RuleFor(RowAt(w.rows, k), DataAt(w.objects, k))
    case Same => OwnerKeepsInv(cr, w, owner, k);
    case Reseal => AgainKeepsInv(cr, cfg, w, k, data, g);
    case Mint => NewKeepsInv(cr, cfg, w, owner, k, data, g);
    case _ =>
  }

  /** What is written over was not readable, neither to this transaction nor to
      anyone else. */
  lemma WroteOverNothing(cr: Crypto, cfg: Config, w: World, owner: nat, k: Bytes, data: Bytes, g: Draw)
    requires Inv(cr, w)
    requires PutOriginal(cr, cfg, w, owner, k, data, g).0 == Wrote
    ensures ReadBack(cr, w.objects, w.rows, k) == None && ReadBack(cr, w.objects, w.committed, k) == None
  {}

  /** Whichever rule ran, every other object is untouched, and `k` only if it was
      written. */
  lemma PutTouches(cr: Crypto, cfg: Config, w: World, owner: nat, k: Bytes, data: Bytes, g: Draw)
    ensures var (r, w') := PutOriginal(cr, cfg, w, owner, k, data, g);
            && w'.committed == w.committed
            && (forall k' :: k' != k ==> (k' in w'.objects <==> k' in w.objects) && (k' in w.rows <==> k' in w'.rows))
            && (forall k' :: k' != k && k' in w.objects ==> w'.objects[k'] == w.objects[k'])
            && (forall k' :: k' != k && k' in w.rows ==> w'.rows[k'] == w.rows[k'])
            && (r != Wrote ==> w'.objects == w.objects)
  {}

  lemma PutKeepsOwn(cr: Crypto, cfg: Config, w: World, owner: nat, k: Bytes, data: Bytes, g: Draw, k': Bytes)
    requires Inv(cr, w) && ReadBack(cr, w.objects, w.rows, k').Some?
    ensures var w' := PutOriginal(cr, cfg, w, owner, k, data, g).1;
            ReadBack(cr, w'.objects, w'.rows, k') == ReadBack(cr, w.objects, w.rows, k')
  {
    if k' != k {
      PutTouches(cr, cfg, w, owner, k, data, g);
    } else if PutOriginal(cr, cfg, w, owner, k, data, g).0 == Wrote {
      WroteOverNothing(cr, cfg, w, owner, k, data, g);
    }
  }

  lemma PutKeepsOthers(cr: Crypto, cfg: Config, w: World, owner: nat, k: Bytes, data: Bytes, g: Draw, k': Bytes)
    requires Inv(cr, w) && ReadBack(cr, w.objects, w.committed, k').Some?
    ensures var w' := PutOriginal(cr, cfg, w, owner, k, data, g).1;
            ReadBack(cr, w'.objects, w.committed, k') == ReadBack(cr, w.objects, w.committed, k')
  {
    PutTouches(cr, cfg, w, owner, k, data, g);
    if k' == k && PutOriginal(cr, cfg, w, owner, k, data, g).0 == Wrote {
      WroteOverNothing(cr, cfg, w, owner, k, data, g);
    }
  }

  /** An original that can be read keeps reading the same, to this transaction and to
      everyone else. */
  lemma PutKeepsReadable(cr: Crypto, cfg: Config, w: World, owner: nat, k: Bytes, data: Bytes, g: Draw, k': Bytes)
    requires Inv(cr, w)
    ensures var w' := PutOriginal(cr, cfg, w, owner, k, data, g).1;
            && (ReadBack(cr, w.objects, w.rows, k').Some? ==>
                  ReadBack(cr, w'.objects, w'.rows, k') == ReadBack(cr, w.objects, w.rows, k'))
            && (ReadBack(cr, w.objects, w.committed, k').Some? ==>
                  ReadBack(cr, w'.objects, w.committed, k') == ReadBack(cr, w.objects, w.committed, k'))
  {
    if ReadBack(cr, w.objects, w.rows, k').Some? { PutKeepsOwn(cr, cfg, w, owner, k, data, g, k'); }
    if ReadBack(cr, w.objects, w.committed, k').Some? { PutKeepsOthers(cr, cfg, w, owner, k, data, g, k'); }
  }

  /** What reads back under `k` so far, with the address of the bytes, are the bytes. */
  ghost predicate Unforged(cr: Crypto, w: World, k: Bytes, data: Bytes) {
    var r := ReadBack(cr, w.objects, w.rows, k);
    r.Some? && Address(cr, r.value) == Address(cr, data) ==> r.value == data
  }

  lemma AgainReads(cr: Crypto, cfg: Config, w: World, k: Bytes, data: Bytes, g: Draw)
    requires Ideal(cr) && Inv(cr, w) && Address(cr, data) == k && |g.nonce| == NONCE_LEN && k in w.rows && g.up
    ensures var (r, w') := PutAgain(cr, cfg, w, k, data, g);
            r == Wrote && ReadBack(cr, w'.objects, w'.rows, k) == Some(data)
  {
    UnwrapSound(cr, cfg, w.rows, w.cache, k, g);
    var (key, c) := Unwrap(cr, cfg, w.rows, w.cache, k, g);
    WrittenReads(cr, w.(cache := c), w.rows[k], key.value, k, data, g);
  }

  lemma NewReads(cr: Crypto, cfg: Config, w: World, owner: nat, k: Bytes, data: Bytes, g: Draw)
    requires Ideal(cr) && Address(cr, data) == k && |g.nonce| == NONCE_LEN && g.up
    ensures var (r, w') := PutNew(cr, cfg, w, owner, k, data, g);
            r == Wrote && ReadBack(cr, w'.objects, w'.rows, k) == Some(data)
  {
    var key := DataKey(cr.keyId(g.material), g.material);
    var row := KeyRow(owner, key.id, g.kek, cr.wrap(g.kek, g.material), None);
    var c := CachePut(w.cache, k, key, g.clock + cfg.ttl, cfg.size);
    WrittenReads(cr, w.(cache := c), row, key, k, data, g);
  }

  lemma SameReads(cr: Crypto, w: World, owner: nat, k: Bytes, data: Bytes)
    requires Ideal(cr) && Inv(cr, w) && Address(cr, data) == k && Unforged(cr, w, k, data)
    requires RuleFor(RowAt(w.rows, k), DataAt(w.objects, k)) == Same
    ensures ReadBack(cr, w.objects, w.rows[k := w.rows[k].(owner := owner)], k) == Some(data)
  {
    SealedReads(cr, w.rows[k], Material(cr, w.rows[k]).value, k, w.objects[k].data);
  }

  lemma NeverMalformed(cr: Crypto, w: World, k: Bytes)
    requires Ideal(cr) && Inv(cr, w)
    ensures RuleFor(RowAt(w.rows, k), DataAt(w.objects, k)) != Malformed
  {
    if k in w.objects && IsSealed(w.objects[k].data) {
      var m :| SealedFor(cr, k, m, w.objects[k].data);
      var p :| SealedAs(cr, m, k, p, w.objects[k].data);
      SealOpens(cr, m, k, p, w.objects[k].data);
    }
  }

  /** The row says sealed, the object says otherwise. */
  predicate Downgraded(w: World, k: Bytes) {
    k in w.objects && !IsSealed(w.objects[k].data) && k in w.rows && w.rows[k].sealedAt.Some?
  }

  /** From every reachable state one put makes the bytes readable, exactly unless the
      object was downgraded; with the key service up nothing else can fail. */
  lemma PutMakesReadable(cr: Crypto, cfg: Config, w: World, owner: nat, k: Bytes, data: Bytes, g: Draw)
    requires Ideal(cr) && Inv(cr, w) && Address(cr, data) == k && |g.nonce| == NONCE_LEN && g.up
    requires Unforged(cr, w, k, data)
    ensures var (r, w') := PutOriginal(cr, cfg, w, owner, k, data, g);
            && (r == Downgrade <==> Downgraded(w, k)) && (r == Downgrade || r in {Wrote, Unchanged, Legacy})
            && ReadBack(cr, w'.objects, w'.rows, k) == if Downgraded(w, k) then None else Some(data)
  {
    NeverMalformed(cr, w, k);
    match RuleFor(RowAt(w.rows, k), DataAt(w.objects, k))
    case Same => SameReads(cr, w, owner, k, data);
    case Reseal => AgainReads(cr, cfg, w, k, data, g);
    case Mint => NewReads(cr, cfg, w, owner, k, data, g);
    case _ =>
  }

  // ----- transactions -----

  function RolledBack(w: World): World { w.(rows := w.committed) }
  function Committed(w: World): World { w.(committed := w.rows) }
  function Deleted(w: World, k: Bytes): World { w.(objects := w.objects - {k}) }

  lemma EndKeepsInv(cr: Crypto, w: World, k: Bytes)
    requires Inv(cr, w)
    ensures Inv(cr, RolledBack(w)) && Inv(cr, Committed(w)) && Inv(cr, Deleted(w, k))
  {}

  /** One delivery: its bytes, what it draws, and whether something behind the write
      fails. */
  datatype Delivery = Delivery(owner: nat, data: Bytes, g: Draw, fails: bool)

  /** `ingest`: the write, then the rest; a failure takes back what this call wrote. */
  function Ingest(cr: Crypto, cfg: Config, w: World, x: Delivery): (bool, World) {
    var k := Address(cr, x.data);
    var (r, w') := PutOriginal(cr, cfg, w, x.owner, k, x.data, x.g);
    if r in {Downgrade, BadHeader, KeyUnavailable} then (false, w')
    else if x.fails then (false, if r == Wrote then Deleted(w', k) else w')
    else (true, w')
  }

  /** A transaction: deliveries up to the first that raises, then commit or rollback. */
  function Transaction(cr: Crypto, cfg: Config, w: World, xs: seq<Delivery>, commit: bool): World
    decreases |xs|
  {
    if xs == [] then (if commit then Committed(w) else RolledBack(w))
    else
      var (ok, w') := Ingest(cr, cfg, w, xs[0]);
      if ok then Transaction(cr, cfg, w', xs[1..], commit) else RolledBack(w')
  }

  ghost predicate Fit(xs: seq<Delivery>) { forall k :: 0 <= k < |xs| ==> |xs[k].g.nonce| == NONCE_LEN }

  lemma IngestInv(cr: Crypto, cfg: Config, w: World, x: Delivery)
    requires Ideal(cr) && Inv(cr, w) && |x.g.nonce| == NONCE_LEN
    ensures Inv(cr, Ingest(cr, cfg, w, x).1) && Ingest(cr, cfg, w, x).1.committed == w.committed
  {
    var a := Address(cr, x.data);
    PutKeepsInv(cr, cfg, w, x.owner, a, x.data, x.g);
    PutTouches(cr, cfg, w, x.owner, a, x.data, x.g);
    EndKeepsInv(cr, PutOriginal(cr, cfg, w, x.owner, a, x.data, x.g).1, a);
  }

  /** The clean-up deletes only what this call wrote over nothing readable. */
  lemma IngestReadable(cr: Crypto, cfg: Config, w: World, x: Delivery, k: Bytes)
    requires Inv(cr, w) && ReadBack(cr, w.objects, w.committed, k).Some?
    ensures ReadBack(cr, Ingest(cr, cfg, w, x).1.objects, w.committed, k) == ReadBack(cr, w.objects, w.committed, k)
  {
    var a := Address(cr, x.data);
    var (r, w') := PutOriginal(cr, cfg, w, x.owner, a, x.data, x.g);
    PutKeepsReadable(cr, cfg, w, x.owner, a, x.data, x.g, k);
    if r == Wrote { WroteOverNothing(cr, cfg, w, x.owner, a, x.data, x.g); }
  }

  /** Commit publishes at least what could be read. */
  lemma CommitShows(cr: Crypto, w: World, k: Bytes)
    requires Inv(cr, w) && ReadBack(cr, w.objects, w.committed, k).Some?
    requires k in w.rows && k in w.objects && !IsSealed(w.objects[k].data) ==> w.rows[k].sealedAt.None?
    ensures ReadBack(cr, w.objects, w.rows, k) == ReadBack(cr, w.objects, w.committed, k)
  {}

  /** An unsealed object that readers still see is not marked sealed by an open
      transaction. */
  ghost predicate Honest(w: World) {
    forall k :: k in w.objects && !IsSealed(w.objects[k].data) && k in w.rows && w.rows[k].sealedAt.Some? ==>
      k in w.committed && w.committed[k].sealedAt.Some?
  }

  lemma IngestHonest(cr: Crypto, cfg: Config, w: World, x: Delivery)
    requires Ideal(cr) && Inv(cr, w) && |x.g.nonce| == NONCE_LEN && Honest(w)
    ensures Honest(Ingest(cr, cfg, w, x).1)
  {
    var a := Address(cr, x.data);
    PutTouches(cr, cfg, w, x.owner, a, x.data, x.g);
    WrittenSealed(cr, cfg, w, x.owner, a, x.data, x.g);
  }

  lemma WrittenSealed(cr: Crypto, cfg: Config, w: World, owner: nat, k: Bytes, data: Bytes, g: Draw)
    ensures var (r, w') := PutOriginal(cr, cfg, w, owner, k, data, g);
            && (r == Wrote ==> k in w'.objects && IsSealed(w'.objects[k].data))
            && (r != Wrote && k in w'.rows ==> k in w.rows && w'.rows[k].sealedAt == w.rows[k].sealedAt)
  {}

  /** A transaction never takes a readable original away: whichever rules ran, whether
      it committed, rolled back or failed half-way, the same bytes are read after. */
  lemma {:induction false} TransactionKeepsReadable(cr: Crypto, cfg: Config, w: World, xs: seq<Delivery>,
                                                    commit: bool, k: Bytes)
    requires Ideal(cr) && Inv(cr, w) && Honest(w) && Fit(xs)
    ensures var w' := Transaction(cr, cfg, w, xs, commit);
            && Inv(cr, w') && w'.rows == w'.committed
            && (ReadBack(cr, w.objects, w.committed, k).Some? ==>
                  ReadBack(cr, w'.objects, w'.committed, k) == ReadBack(cr, w.objects, w.committed, k))
    decreases |xs|
  {
    if xs == [] {
      EndKeepsInv(cr, w, k);
      if commit && ReadBack(cr, w.objects, w.committed, k).Some? { CommitShows(cr, w, k); }
    } else {
      var (ok, w') := Ingest(cr, cfg, w, xs[0]);
      IngestInv(cr, cfg, w, xs[0]);
      if ReadBack(cr, w.objects, w.committed, k).Some? { IngestReadable(cr, cfg, w, xs[0], k); }
      IngestHonest(cr, cfg, w, xs[0]);
      if ok {
        TransactionKeepsReadable(cr, cfg, w', xs[1..], commit, k);
      } else {
        EndKeepsInv(cr, w', k);
      }
    }
  }

  const EMPTY: World := World(map[], map[], map[], [])

  lemma EmptySound(cr: Crypto)
    ensures Inv(cr, EMPTY) && EMPTY.rows == EMPTY.committed && Honest(EMPTY)
  {}

  lemma FirstDelivery(cr: Crypto, cfg: Config, x: Delivery)
    requires x.g.up && !x.fails && cfg.size > 0
    ensures var k, key := Address(cr, x.data), DataKey(cr.keyId(x.g.material), x.g.material);
            var (ok, w) := Ingest(cr, cfg, EMPTY, x);
            && ok && w.objects == map[k := Object(Seal(cr, key.material, key.id, k, x.g.nonce, x.data), x.g.now)]
            && w.committed == map[] && w.cache == [Entry(k, key, x.g.clock + cfg.ttl)]
  {
    var k, key := Address(cr, x.data), DataKey(cr.keyId(x.g.material), x.g.material);
    assert Drop([], k) + [Entry(k, key, x.g.clock + cfg.ttl)] == [Entry(k, key, x.g.clock + cfg.ttl)];
  }

  lemma OneDelivery(cr: Crypto, cfg: Config, w: World, x: Delivery)
    requires Ingest(cr, cfg, w, x).0
    ensures Transaction(cr, cfg, w, [x], false) == RolledBack(Ingest(cr, cfg, w, x).1)
  {
    assert [x][1..] == [];
  }

  /** A first delivery that is rolled back leaves a sealed object, no row, and its key in
      the cache. */
  lemma RolledBackDelivery(cr: Crypto, cfg: Config, x: Delivery)
    requires Ideal(cr) && |x.g.nonce| == NONCE_LEN && x.g.up && !x.fails && cfg.size > 0
    ensures var k, key := Address(cr, x.data), DataKey(cr.keyId(x.g.material), x.g.material);
            var w := Transaction(cr, cfg, EMPTY, [x], false);
            && w.objects == map[k := Object(Seal(cr, key.material, key.id, k, x.g.nonce, x.data), x.g.now)]
            && w.rows == w.committed == map[] && w.cache == [Entry(k, key, x.g.clock + cfg.ttl)] && Inv(cr, w)
  {
    EmptySound(cr);
    FirstDelivery(cr, cfg, x);
    OneDelivery(cr, cfg, EMPTY, x);
    TransactionKeepsReadable(cr, cfg, EMPTY, [x], false, Address(cr, x.data));
  }

  /** So the original of a rolled-back transaction can be read until the cached key
      expires, though no table knows it. */
  lemma PhantomRead(cr: Crypto, cfg: Config, x: Delivery, g: Draw)
    requires Ideal(cr) && |x.g.nonce| == NONCE_LEN && x.g.up && !x.fails && cfg.size > 0
    ensures var k, w := Address(cr, x.data), Transaction(cr, cfg, EMPTY, [x], false);
            && Get(cr, cfg, w, k, g).0 == (if g.clock < x.g.clock + cfg.ttl then Some(x.data) else None)
            && ReadBack(cr, w.objects, w.rows, k).None? && ReadBack(cr, w.objects, w.committed, k).None?
  {
    RolledBackDelivery(cr, cfg, x);
    var k, w := Address(cr, x.data), Transaction(cr, cfg, EMPTY, [x], false);
    assert SealedAs(cr, x.g.material, k, x.data, w.objects[k].data);
    SealOpens(cr, x.g.material, k, x.data, w.objects[k].data);
  }

  /** Any run of transactions. */
  datatype Tx = Tx(xs: seq<Delivery>, commit: bool)

  function Runs(cr: Crypto, cfg: Config, w: World, txs: seq<Tx>): World
    decreases |txs|
  {
    if txs == [] then w else Runs(cr, cfg, Transaction(cr, cfg, w, txs[0].xs, txs[0].commit), txs[1..])
  }

  lemma {:induction false} RunsKeepReadable(cr: Crypto, cfg: Config, w: World, txs: seq<Tx>, k: Bytes)
    requires Ideal(cr) && Inv(cr, w) && w.rows == w.committed && forall i :: 0 <= i < |txs| ==> Fit(txs[i].xs)
    ensures var w' := Runs(cr, cfg, w, txs);
            && Inv(cr, w')
            && (ReadBack(cr, w.objects, w.committed, k).Some? ==>
                  ReadBack(cr, w'.objects, w'.committed, k) == ReadBack(cr, w.objects, w.committed, k))
    decreases |txs|
  {
    if txs != [] {
      TransactionKeepsReadable(cr, cfg, w, txs[0].xs, txs[0].commit, k);
      RunsKeepReadable(cr, cfg, Transaction(cr, cfg, w, txs[0].xs, txs[0].commit), txs[1..], k);
    }
  }

  // ----- the orphan sweep -----

  const MIN_AGE := 3600

  /** Sealed, older than an hour, and under no key row that names its key. */
  predicate Orphan(objects: map<Bytes, Object>, rows: Rows, k: Bytes, now: int) {
    && k in objects && OBJECT_PREFIX <= k && now - objects[k].modified >= MIN_AGE
    && HeaderKeyId(objects[k].data).Some?
    && !(k in rows && Some(rows[k].keyId) == HeaderKeyId(objects[k].data))
  }

  function Orphans(objects: map<Bytes, Object>, rows: Rows, listing: seq<Bytes>, now: int): seq<Bytes> {
    if listing == [] then []
    else (if Orphan(objects, rows, listing[0], now) then [listing[0]] else [])
         + Orphans(objects, rows, listing[1..], now)
  }

  lemma {:induction false} OrphansAre(objects: map<Bytes, Object>, rows: Rows, listing: seq<Bytes>, now: int)
    ensures forall k :: k in Orphans(objects, rows, listing, now) <==> k in listing && Orphan(objects, rows, k, now)
  {
    if listing != [] { OrphansAre(objects, rows, listing[1..], now); }
  }

  /** Among old sealed objects, an orphan is exactly one that no row opens. */
  lemma OrphanIsUnreadable(cr: Crypto, w: World, k: Bytes, now: int)
    requires Ideal(cr) && Inv(cr, w) && k in w.objects && OBJECT_PREFIX <= k && IsSealed(w.objects[k].data)
    requires now - w.objects[k].modified >= MIN_AGE
    ensures Orphan(w.objects, w.rows, k, now) <==> ReadBack(cr, w.objects, w.rows, k).None?
  {
    NeverMalformed(cr, w, k);
    var m :| SealedFor(cr, k, m, w.objects[k].data);
    var p :| SealedAs(cr, m, k, p, w.objects[k].data);
    SealOpens(cr, m, k, p, w.objects[k].data);
    if k in w.rows && HeaderKeyId(w.objects[k].data) == Some(w.rows[k].keyId) {
      SealedReads(cr, w.rows[k], Material(cr, w.rows[k]).value, k, w.objects[k].data);
    }
  }

  /** What was found and is still there, gone. */
  function Swept(w: World, found: seq<Bytes>): World {
    w.(objects := map k | k in w.objects && k !in found :: w.objects[k])
  }

  /** What the sweep could look at again before it removes an object: whether by now a row
      names the key of its header. */
  predicate InUse(w: World, k: Bytes) {
    && k in w.objects
    && if IsSealed(w.objects[k].data) then k in w.rows && HeaderKeyId(w.objects[k].data) == Some(w.rows[k].keyId)
       else !(k in w.rows && w.rows[k].sealedAt.Some?)
  }

  lemma InUseIsReadable(cr: Crypto, w: World, k: Bytes)
    requires Ideal(cr) && Inv(cr, w)
    ensures InUse(w, k) <==> ReadBack(cr, w.objects, w.rows, k).Some?
  {
    if k in w.objects && IsSealed(w.objects[k].data) {
      OrphanIsUnreadable(cr, w.(objects := w.objects[k := w.objects[k].(modified := 0)]), k, MIN_AGE);
    }
  }

  /** A sweep of what was found earlier loses a readable original exactly when one of the
      listed objects is in use by then. */
  lemma SweepLoses(cr: Crypto, w: World, found: seq<Bytes>)
    requires Ideal(cr) && Inv(cr, w)
    ensures (exists k :: ReadBack(cr, w.objects, w.rows, k).Some?
                         && ReadBack(cr, Swept(w, found).objects, w.rows, k).None?)
            <==> (exists k :: k in found && InUse(w, k))
  {
    forall k ensures InUse(w, k) <==> ReadBack(cr, w.objects, w.rows, k).Some? { InUseIsReadable(cr, w, k); }
    forall k | k !in found
      ensures ReadBack(cr, Swept(w, found).objects, w.rows, k) == ReadBack(cr, w.objects, w.rows, k) {}
    if exists k :: k in found && InUse(w, k) {
      var k :| k in found && InUse(w, k);
      assert ReadBack(cr, Swept(w, found).objects, w.rows, k).None?;
    }
  }

  /** None of the transactions delivers these bytes. */
  ghost predicate Spares(cr: Crypto, txs: seq<Tx>, k: Bytes) {
    forall i, j :: 0 <= i < |txs| && 0 <= j < |txs[i].xs| ==> Address(cr, txs[i].xs[j].data) != k
  }

  ghost predicate SameAt(w: World, w': World, k: Bytes) {
    DataAt(w.objects, k) == DataAt(w'.objects, k) && RowAt(w.rows, k) == RowAt(w'.rows, k)
  }

  lemma {:induction false} TransactionSpares(cr: Crypto, cfg: Config, w: World, xs: seq<Delivery>, commit: bool,
                                             k: Bytes)
    requires forall j :: 0 <= j < |xs| ==> Address(cr, xs[j].data) != k
    requires RowAt(w.rows, k) == RowAt(w.committed, k)
    ensures SameAt(w, Transaction(cr, cfg, w, xs, commit), k)
    decreases |xs|
  {
    if xs != [] {
      var x := xs[0];
      PutTouches(cr, cfg, w, x.owner, Address(cr, x.data), x.data, x.g);
      var (ok, w') := Ingest(cr, cfg, w, x);
      if ok { TransactionSpares(cr, cfg, w', xs[1..], commit, k); }
    }
  }

  lemma {:induction false} RunsSpare(cr: Crypto, cfg: Config, w: World, txs: seq<Tx>, k: Bytes)
    requires Ideal(cr) && Inv(cr, w) && Spares(cr, txs, k) && w.rows == w.committed
    requires forall i :: 0 <= i < |txs| ==> Fit(txs[i].xs)
    ensures SameAt(w, Runs(cr, cfg, w, txs), k)
    decreases |txs|
  {
    if txs != [] {
      TransactionSpares(cr, cfg, w, txs[0].xs, txs[0].commit, k);
      TransactionKeepsReadable(cr, cfg, w, txs[0].xs, txs[0].commit, k);
      RunsSpare(cr, cfg, Transaction(cr, cfg, w, txs[0].xs, txs[0].commit), txs[1..], k);
    }
  }

  /** A listing, any run of transactions, the removal: a readable original is lost
      exactly when a listed object is in use by then, and only if one of the
      transactions delivered its bytes. */
  lemma SweepAfterRuns(cr: Crypto, cfg: Config, w: World, txs: seq<Tx>, listing: seq<Bytes>, now: int)
    requires Ideal(cr) && Inv(cr, w) && w.rows == w.committed && forall i :: 0 <= i < |txs| ==> Fit(txs[i].xs)
    ensures var found, w' := Orphans(w.objects, w.rows, listing, now), Runs(cr, cfg, w, txs);
            && ((exists k :: ReadBack(cr, w'.objects, w'.rows, k).Some?
                             && ReadBack(cr, Swept(w', found).objects, w'.rows, k).None?)
                <==> (exists k :: k in found && InUse(w', k)))
            && forall k :: k in found && InUse(w', k) ==> !Spares(cr, txs, k)
  {
    var found, w' := Orphans(w.objects, w.rows, listing, now), Runs(cr, cfg, w, txs);
    OrphansAre(w.objects, w.rows, listing, now);
    RunsKeepReadable(cr, cfg, w, txs, []);
    SweepLoses(cr, w', found);
    forall k | k in found && InUse(w', k) ensures !Spares(cr, txs, k) {
      if Spares(cr, txs, k) {
        RunsSpare(cr, cfg, w, txs, k);
        OrphanIsUnreadable(cr, w, k, now);
        InUseIsReadable(cr, w', k);
      }
    }
  }

  /** When nothing happens between listing and removal, the sweep takes only what no
      row opens. */
  lemma SweepIsSafe(cr: Crypto, w: World, listing: seq<Bytes>, now: int, k: Bytes)
    requires Ideal(cr) && Inv(cr, w)
    ensures var w' := Swept(w, Orphans(w.objects, w.rows, listing, now));
            ReadBack(cr, w'.objects, w.rows, k) == ReadBack(cr, w.objects, w.rows, k)
  {
    OrphansAre(w.objects, w.rows, listing, now);
    if k in Orphans(w.objects, w.rows, listing, now) { OrphanIsUnreadable(cr, w, k, now); }
  }

  /** But listing and removal are two steps: an orphan that is delivered again in
      between is written, committed, and then removed with the only readable copy. */
  lemma SweepRaces(cr: Crypto, cfg: Config, w: World, x: Delivery, now: int)
    requires Ideal(cr) && Inv(cr, w) && w.rows == w.committed && |x.g.nonce| == NONCE_LEN && x.g.up && !x.fails
    requires var k := Address(cr, x.data); k !in w.rows && Orphan(w.objects, w.rows, k, now)
    ensures var k := Address(cr, x.data);
            var w' := Transaction(cr, cfg, w, [x], true);
            && ReadBack(cr, w'.objects, w'.committed, k) == Some(x.data)
            && ReadBack(cr, Swept(w', Orphans(w.objects, w.rows, [k], now)).objects, w'.committed, k).None?
  {
    var k := Address(cr, x.data);
    assert [x][1..] == [] && [k][1..] == [];
    NewReads(cr, cfg, w, x.owner, k, x.data, x.g);
    OrphansAre(w.objects, w.rows, [k], now);
    assert k in [k];
  }

  /** This happens: a delivery is rolled back, its object is listed an hour later, the
      bytes are delivered again and committed, and the sweep removes them. */
  lemma SweepRaceHappens(cr: Crypto, cfg: Config, x: Delivery, y: Delivery, now: int)
    requires Ideal(cr) && |x.g.nonce| == NONCE_LEN && x.g.up && !x.fails && cfg.size > 0 && now >= x.g.now + MIN_AGE
    requires y.data == x.data && |y.g.nonce| == NONCE_LEN && y.g.up && !y.fails
    ensures var k := Address(cr, x.data);
            var w1 := Transaction(cr, cfg, EMPTY, [x], false);
            var found, w2 := Orphans(w1.objects, w1.rows, [k], now), Transaction(cr, cfg, w1, [y], true);
            && ReadBack(cr, w2.objects, w2.committed, k) == Some(x.data)
            && ReadBack(cr, Swept(w2, found).objects, w2.committed, k).None?
  {
    var k, w1 := Address(cr, x.data), Transaction(cr, cfg, EMPTY, [x], false);
    RolledBackDelivery(cr, cfg, x);
    assert SealedAs(cr, x.g.material, k, x.data, w1.objects[k].data);
    SealOpens(cr, x.g.material, k, x.data, w1.objects[k].data);
    SweepRaces(cr, cfg, w1, y, now);
  }

  // ----- the stores -----

  class DocumentKeys {
    const cr: Crypto
    const cfg: Config
    var cache: Cache

    constructor (cr: Crypto, cfg: Config)
      ensures this.cr == cr && this.cfg == cfg && cache == []
    {
      this.cr, this.cfg, cache := cr, cfg, [];
    }

    method Lookup(k: Bytes, clock: int) returns (r: Option<DataKey>)
      modifies this
      ensures (r, cache) == CacheGet(old(cache), k, clock)
    {
      var hit := Find(cache, k);
      if hit.None? { return None; }
      cache := Drop(cache, k);
      if hit.value.expiry <= clock { return None; }
      cache := cache + [hit.value];
      r := Some(hit.value.key);
    }

    method Store(k: Bytes, key: DataKey, clock: int)
      modifies this
      ensures cache == CachePut(old(cache), k, key, clock + cfg.ttl, cfg.size)
    {
      cache := Drop(cache, k) + [Entry(k, key, clock + cfg.ttl)];
      ghost var all := cache;
      while |cache| > cfg.size
        invariant Newest(cache, cfg.size) == Newest(all, cfg.size)
      {
        NewestTail(cache, cfg.size);
        cache := cache[1..];
      }
    }

    /** A fresh key with its row; `None` when the key service refuses. */
    method Mint(owner: nat, k: Bytes, g: Draw) returns (r: Option<(DataKey, KeyRow)>)
      modifies this
      ensures r == if !g.up then None
                   else Some((DataKey(cr.keyId(g.material), g.material),
                              KeyRow(owner, cr.keyId(g.material), g.kek, cr.wrap(g.kek, g.material), None)))
      ensures cache == if !g.up then old(cache)
                       else CachePut(old(cache), k, DataKey(cr.keyId(g.material), g.material),
                                     g.clock + cfg.ttl, cfg.size)
    {
      if !g.up { return None; }
      var minted := DataKey(cr.keyId(g.material), g.material);
      var row := KeyRow(owner, minted.id, g.kek, cr.wrap(g.kek, minted.material), None);
      Store(k, minted, g.clock);
      r := Some((minted, row));
    }

    method UnwrapKey(rows: Rows, k: Bytes, g: Draw) returns (r: Option<DataKey>)
      modifies this
      ensures (r, cache) == Unwrap(cr, cfg, rows, old(cache), k, g)
    {
      r := Lookup(k, g.clock);
      if r.Some? || k !in rows || !g.up { return; }
      var material := cr.unwrap(rows[k].kek, rows[k].wrapped);
      if material.None? { return None; }
      r := Some(DataKey(rows[k].keyId, material.value));
      Store(k, r.value, g.clock);
    }
  }

  class OriginalsStore {
    const cr: Crypto
    const cfg: Config
    const keys: DocumentKeys
    var objects: map<Bytes, Object>
    var rows: Rows
    var committed: Rows

    ghost predicate Valid()
      reads this, keys
    {
      keys.cr == cr && keys.cfg == cfg
    }

    function Now(): World
      reads this, keys
    {
      World(objects, rows, committed, keys.cache)
    }

    constructor (cr: Crypto, cfg: Config)
      ensures Valid() && fresh(keys) && Now() == World(map[], map[], map[], [])
    {
      this.cr, this.cfg := cr, cfg;
      keys := new DocumentKeys(cr, cfg);
      objects, rows, committed := map[], map[], map[];
    }

    method SealAndWrite(row: KeyRow, key: DataKey, k: Bytes, data: Bytes, g: Draw)
      modifies this
      ensures Now() == Written(cr, old(Now()), row, key, k, data, g)
    {
      objects := objects[k := Object(Seal(cr, key.material, key.id, k, g.nonce, data), g.now)];
      rows := rows[k := row.(sealedAt := Some(g.now))];
    }

    /** Sealed under the key of its row. */
    method WriteAgain(k: Bytes, data: Bytes, g: Draw) returns (r: Put)
      requires Valid() && k in rows
      modifies this, keys
      ensures Valid() && (r, Now()) == PutAgain(cr, cfg, old(Now()), k, data, g)
    {
      var key := keys.UnwrapKey(rows, k, g);
      if key.None? { return KeyUnavailable; }
      SealAndWrite(rows[k], key.value, k, data, g);
      r := Wrote;
    }

    /** Sealed under a key of its own, minted for it. */
    method WriteNew(owner: nat, k: Bytes, data: Bytes, g: Draw) returns (r: Put)
      requires Valid()
      modifies this, keys
      ensures Valid() && (r, Now()) == PutNew(cr, cfg, old(Now()), owner, k, data, g)
    {
      var minted := keys.Mint(owner, k, g);
      if minted.None? { return KeyUnavailable; }
      rows := rows[k := minted.value.1];
      SealAndWrite(minted.value.1, minted.value.0, k, data, g);
      assert rows == old(rows)[k := minted.value.1.(sealedAt := Some(g.now))];
      r := Wrote;
    }

    /** The five rules, in the order they are tried. */
    method Write(owner: nat, k: Bytes, data: Bytes, g: Draw) returns (r: Put)
      requires Valid()
      modifies this, keys
      ensures Valid() && (r, Now()) == PutOriginal(cr, cfg, old(Now()), owner, k, data, g)
    {
      var row, stored := RowAt(rows, k), DataAt(objects, k);
      var storedSealed := stored.Some? && IsSealed(stored.value);
      if row.Some? && storedSealed {
        var id := HeaderKeyId(stored.value);
        if id.None? { return BadHeader; }
        if id.value == row.value.keyId {
          rows := rows[k := row.value.(owner := owner)];
          return Unchanged;
        }
      }
      if row.Some? && (stored.None? || storedSealed) {
        r := WriteAgain(k, data, g);
        return;
      }
      if row.None? && (stored.None? || storedSealed) {
        r := WriteNew(owner, k, data, g);
        return;
      }
      if row.None? || row.value.sealedAt.None? { return Legacy; }
      r := Downgrade;
    }

    method Read(k: Bytes, g: Draw) returns (r: Option<Bytes>)
      requires Valid()
      modifies this, keys
      ensures Valid() && (r, Now()) == Get(cr, cfg, old(Now()), k, g)
    {
      if k !in objects { return None; }
      var stored := objects[k].data;
      if !IsSealed(stored) {
        if k in rows && rows[k].sealedAt.Some? { return None; }
        return Some(stored);
      }
      var key := keys.UnwrapKey(rows, k, g);
      if key.None? { return None; }
      r := OpenSealed(cr, key.value.material, key.value.id, k, stored);
    }

    /** One delivery; `false` when it raised. */
    method Deliver(x: Delivery) returns (ok: bool)
      requires Valid()
      modifies this, keys
      ensures Valid() && (ok, Now()) == Ingest(cr, cfg, old(Now()), x)
    {
      var k := Address(cr, x.data);
      var r := Write(x.owner, k, x.data, x.g);
      if r == Downgrade || r == BadHeader || r == KeyUnavailable { return false; }
      if x.fails {
        if r == Wrote { objects := objects - {k}; }
        return false;
      }
      ok := true;
    }

    /** A transaction on one session. */
    method Transact(xs: seq<Delivery>, commit: bool)
      requires Valid()
      modifies this, keys
      ensures Valid() && Now() == Transaction(cr, cfg, old(Now()), xs, commit)
    {
      var todo := xs;
      while todo != []
        invariant Valid() && Transaction(cr, cfg, Now(), todo, commit) == Transaction(cr, cfg, old(Now()), xs, commit)
        decreases |todo|
      {
        var ok := Deliver(todo[0]);
        if !ok {
          rows := committed;
          return;
        }
        todo := todo[1..];
      }
      if commit { committed := rows; } else { rows := committed; }
    }

    method FindOrphans(listing: seq<Bytes>, now: int) returns (found: seq<Bytes>)
      ensures found == Orphans(objects, rows, listing, now)
      ensures forall k :: k in found <==>
                && k in listing && k in objects && OBJECT_PREFIX <= k && HeaderKeyId(objects[k].data).Some?
                && now - objects[k].modified >= 3600
                && (k in rows ==> rows[k].keyId != HeaderKeyId(objects[k].data).value)
    {
      OrphansAre(objects, rows, listing, now);
      found := [];
      var todo := listing;
      while todo != []
        invariant found + Orphans(objects, rows, todo, now) == Orphans(objects, rows, listing, now)
      {
        if Orphan(objects, rows, todo[0], now) { found := found + [todo[0]]; }
        todo := todo[1..];
      }
    }

    /** Removes what an earlier listing found, and reports what was still there. */
    method Sweep(found: seq<Bytes>) returns (removed: seq<Bytes>)
      modifies this
      ensures Now() == Swept(old(Now()), found)
      ensures rows == old(rows) && committed == old(committed)
      ensures forall k :: k in objects <==> k in old(objects) && k !in found
      ensures forall k :: k in objects ==> objects[k] == old(objects)[k]
      ensures forall k :: k in removed <==> k in found && k in old(objects)
    {
      ghost var was := objects;
      removed := [];
      for i := 0 to |found|
        invariant objects == (map k | k in was && k !in found[..i] :: was[k])
        invariant forall k :: k in removed <==> k in found[..i] && k in was
        invariant rows == old(rows) && committed == old(committed)
      {
        assert forall k :: k in found[..i + 1] <==> k in found[..i] || k == found[i];
        if found[i] in objects {
          objects := objects - {found[i]};
          removed := removed + [found[i]];
        }
      }
      assert found[..|found|] == found;
    }
  }
}
