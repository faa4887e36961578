/** Data keys, the cipher they drive, and the separated store from pseudonym to
    ciphertext. The cipher is ideal: what one key sealed, only that key opens. */
module Mappings {
  datatype Option<T> = None | Some(value: T)

  datatype Key = Key(id: string, material: string)

  /** AES-GCM output with its nonce: opaque except to the key that made it. */
  datatype Cipher = Cipher(material: string, nonce: nat, plain: string)

  function Encrypt(material: string, nonce: nat, plain: string): Cipher { Cipher(material, nonce, plain) }

  function Decrypt(material: string, c: Cipher): Option<string> {
    if c.material == material then Some(c.plain) else None
  }

  datatype Mapping = Mapping(cipher: Cipher, keyId: string)

  /** The value `p` stands for, when its key resolves and opens it. */
  function Opened(d: map<string, Mapping>, keys: map<string, Key>, p: string): Option<string> {
    if p in d && d[p].keyId in keys then Decrypt(keys[d[p].keyId].material, d[p].cipher) else None
  }

  /** `put` keeps the row that is there. */
  function PutFirst(d: map<string, Mapping>, p: string, m: Mapping): map<string, Mapping> {
    if p in d then d else d[p := m]
  }

  /** Every stored mapping opens under the key its row names. */
  ghost predicate AllOpen(d: map<string, Mapping>, keys: map<string, Key>) {
    forall p :: p in d ==> d[p].keyId in keys && keys[d[p].keyId].material == d[p].cipher.material
  }

  /** One row under `oldId`, sealed again under `newKey`. */
  function MovedRow(m: Mapping, oldId: string, newKey: Key, nonce: nat): Mapping {
    if m.keyId == oldId then Mapping(Encrypt(newKey.material, nonce, m.cipher.plain), newKey.id) else m
  }

  /** What `reencrypt` makes of the store: the rows under the old key, on the new. */
  function Moved(d: map<string, Mapping>, oldKey: Key, newKey: Key, nonce: string -> nat): map<string, Mapping> {
    map p | p in d :: MovedRow(d[p], oldKey.id, newKey, nonce(p))
  }

  /** Rotation moves ciphertext, never a value. */
  lemma MovedOpensTheSame(d: map<string, Mapping>, keys: map<string, Key>, oldKey: Key, newKey: Key,
                          nonce: string -> nat)
    requires AllOpen(d, keys)
    requires oldKey.id in keys && keys[oldKey.id] == oldKey && newKey.id in keys && keys[newKey.id] == newKey
    ensures AllOpen(Moved(d, oldKey, newKey, nonce), keys)
    ensures Moved(d, oldKey, newKey, nonce).Keys == d.Keys
    ensures forall p :: Opened(Moved(d, oldKey, newKey, nonce), keys, p) == Opened(d, keys, p)
  {}

  class InMemoryMappingStore {
    var d: map<string, Mapping>

    constructor ()
      ensures d == map[]
    {
      d := map[];
    }

    method Put(p: string, m: Mapping)
      modifies this
      ensures d == PutFirst(old(d), p, m)
    {
      if p !in d { d := d[p := m]; }
    }

    method Get(p: string) returns (r: Option<Mapping>)
      ensures r == if p in d then Some(d[p]) else None
    {
      r := if p in d then Some(d[p]) else None;
    }

    /** Moves every row under `oldId` onto `newId` and counts them; fails when a
        key does not resolve or a row does not open. */
    method Reencrypt(oldId: string, newId: string, keys: map<string, Key>, nonce: string -> nat)
      returns (r: Option<nat>)
      requires forall k :: k in keys ==> keys[k].id == k
      modifies this
      ensures r.Some? <==>
              && oldId in keys && newId in keys
              && forall p :: p in old(d) && old(d)[p].keyId == oldId ==>
                   old(d)[p].cipher.material == keys[oldId].material
      ensures r.Some? ==> d == Moved(old(d), keys[oldId], keys[newId], nonce)
      ensures r.Some? ==> forall p :: p in old(d) ==>
                p in d && d[p].cipher.plain == old(d)[p].cipher.plain
                && (old(d)[p].keyId == oldId ==> d[p].keyId == newId && d[p].cipher.material == keys[newId].material)
                && (old(d)[p].keyId != oldId ==> d[p] == old(d)[p])
      ensures r.Some? ==> r.value == |set p | p in old(d) && old(d)[p].keyId == oldId|
    {
      if oldId !in keys || newId !in keys { return None; }
      ghost var was, moved: set<string> := d, {};
      var todo, n, newKey := d.Keys, 0, keys[newId];
      while todo != {}
        invariant todo <= was.Keys == d.Keys
        invariant forall p :: p in moved <==> p in was && p !in todo && was[p].keyId == oldId
        invariant n == |moved| && forall p :: p in moved ==> was[p].cipher.material == keys[oldId].material
        invariant forall p :: p in was ==>
                    d[p] == if p in todo then was[p] else MovedRow(was[p], oldId, newKey, nonce(p))
        decreases todo
      {
        var p :| p in todo;
        var m := d[p];
        if m.keyId == oldId {
          var plain := Decrypt(keys[oldId].material, m.cipher);
          if plain.None? { return None; }
          d := d[p := Mapping(Encrypt(newKey.material, nonce(p), plain.value), newId)];
          n := n + 1;
          moved := moved + {p};
        }
        todo := todo - {p};
      }
      assert moved == set p | p in was && was[p].keyId == oldId;
      r := Some(n);
    }
  }
}
