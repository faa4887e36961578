/** The sealed-object format for originals: a header that names the key, and an
    authenticated ciphertext bound to the object key and the key id. */
module Envelope {
  import opened Mappings

  newtype byte = x: int | 0 <= x < 256
  type Bytes = seq<byte>

  /** The primitives, as functions: authenticated encryption with its nonce and
      associated data, wrapping under a named key-encryption key, the id of a key and
      the digest of a text. */
  datatype Crypto = Crypto(enc: (Bytes, Bytes, Bytes, Bytes) -> Bytes,
                           dec: (Bytes, Bytes, Bytes, Bytes) -> Option<Bytes>,
                           wrap: (string, Bytes) -> Bytes, unwrap: (string, Bytes) -> Option<Bytes>,
                           keyId: Bytes -> Bytes, digest: Bytes -> Bytes)

  const KEY_ID_LEN := 12
  const NONCE_LEN := 12
  const MAGIC: Bytes := [87, 87, 69, 78, 67]                                              // WWENC
  const VERSION: byte := 1
  const HEADER_LEN := 30
  const AAD_PREFIX: Bytes := [119, 111, 114, 100, 115, 119, 111, 114, 116, 104, 45,
                              111, 114, 105, 103, 105, 110, 97, 108, 47, 49]              // wordsworth-original/1
  const OBJECT_PREFIX: Bytes := [100, 111, 99, 117, 109, 101, 110, 116, 115, 47]          // documents/

  /** Decryption undoes encryption, under no other key or associated data; unwrapping
      undoes wrapping; a key id has twelve characters. */
  ghost predicate Ideal(cr: Crypto) {
    && (forall m, n, a, p :: cr.dec(m, n, a, cr.enc(m, n, a, p)) == Some(p))
    && (forall m, m', n, a, a', p :: cr.dec(m, n, a, cr.enc(m', n, a', p)).Some? ==> m == m' && a == a')
    && (forall k, m :: cr.unwrap(k, cr.wrap(k, m)) == Some(m))
    && (forall m :: |cr.keyId(m)| == KEY_ID_LEN)
  }

  function Address(cr: Crypto, data: Bytes): Bytes { OBJECT_PREFIX + cr.digest(data) }

  function Aad(objectKey: Bytes, id: Bytes): Bytes { AAD_PREFIX + objectKey + id }

  predicate IsSealed(data: Bytes) { MAGIC <= data }

  function Seal(cr: Crypto, material: Bytes, id: Bytes, objectKey: Bytes, nonce: Bytes, plain: Bytes): Bytes {
    MAGIC + [VERSION] + id + nonce + cr.enc(material, nonce, Aad(objectKey, id), plain)
  }

  /** The key id a sealed header names; `None` when there is no header of this
      version. */
  function HeaderKeyId(data: Bytes): Option<Bytes> {
    if |data| < HEADER_LEN || !IsSealed(data) || data[5] != VERSION then None else Some(data[6..18])
  }

  /** The plaintext, or `None` on a changed key id, object key or ciphertext. */
  function OpenSealed(cr: Crypto, material: Bytes, id: Bytes, objectKey: Bytes, data: Bytes): Option<Bytes> {
    if HeaderKeyId(data) != Some(id) then None
    else cr.dec(material, data[18..30], Aad(objectKey, id), data[30..])
  }

  /** Bytes that `Seal` produced. */
  ghost predicate SealedAs(cr: Crypto, material: Bytes, objectKey: Bytes, plain: Bytes, data: Bytes) {
    exists nonce: Bytes ::
      |nonce| == NONCE_LEN && data == Seal(cr, material, cr.keyId(material), objectKey, nonce, plain)
  }

  lemma SealLayout(cr: Crypto, material: Bytes, id: Bytes, objectKey: Bytes, nonce: Bytes, plain: Bytes)
    requires |id| == KEY_ID_LEN && |nonce| == NONCE_LEN
    ensures var d := Seal(cr, material, id, objectKey, nonce, plain);
            && |d| >= HEADER_LEN && IsSealed(d) && d[5] == VERSION && d[6..18] == id && d[18..30] == nonce
            && d[30..] == cr.enc(material, nonce, Aad(objectKey, id), plain)
  {}

  /** A key id is read from thirty bytes or more that begin with WWENC and the version one, and from
      nothing else. */
  lemma HeaderExactly(data: Bytes)
    ensures HeaderKeyId(data).Some? <==> |data| >= 30 && data[..6] == [87, 87, 69, 78, 67, 1]
    ensures HeaderKeyId(data).Some? ==> HeaderKeyId(data) == Some(data[6..18])
  {
    if |data| >= 30 {
      assert IsSealed(data) <==> data[..5] == MAGIC;
      assert data[..6] == data[..5] + [data[5]];
    }
  }

  /** Sealing and opening are inverse. */
  lemma SealOpens(cr: Crypto, material: Bytes, objectKey: Bytes, plain: Bytes, data: Bytes)
    requires Ideal(cr) && SealedAs(cr, material, objectKey, plain, data)
    ensures IsSealed(data) && HeaderKeyId(data) == Some(cr.keyId(material))
    ensures OpenSealed(cr, material, cr.keyId(material), objectKey, data) == Some(plain)
  {
    var id := cr.keyId(material);
    var nonce: Bytes :| |nonce| == NONCE_LEN && data == Seal(cr, material, id, objectKey, nonce, plain);
    SealLayout(cr, material, id, objectKey, nonce, plain);
  }

  /** The associated data tells object keys and key ids apart. */
  lemma AadInjective(k: Bytes, id: Bytes, k': Bytes, id': Bytes)
    requires |id| == |id'| && Aad(k, id) == Aad(k', id')
    ensures k == k' && id == id'
  {
    var a := Aad(k, id);
    var m := |AAD_PREFIX|;
    assert a[m..][..|k|] == k && a[m..][|k|..] == id;
    assert a[m..][..|k'|] == k' && a[m..][|k'|..] == id';
  }

  /** A sealed object that was copied to another key does not open there. */
  lemma SealBinds(cr: Crypto, material: Bytes, objectKey: Bytes, plain: Bytes, data: Bytes, elsewhere: Bytes)
    requires Ideal(cr) && SealedAs(cr, material, objectKey, plain, data)
    ensures OpenSealed(cr, material, cr.keyId(material), elsewhere, data).Some? <==> elsewhere == objectKey
  {
    SealOpens(cr, material, objectKey, plain, data);
    var id := cr.keyId(material);
    var nonce: Bytes :| |nonce| == NONCE_LEN && data == Seal(cr, material, id, objectKey, nonce, plain);
    SealLayout(cr, material, id, objectKey, nonce, plain);
    if OpenSealed(cr, material, id, elsewhere, data).Some? {
      AadInjective(elsewhere, id, objectKey, id);
    }
  }
}
