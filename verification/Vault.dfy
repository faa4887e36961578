/** Data keys in a shared vault: workers that take a scope's current key, rotate it
    and move the mappings, their steps interleaved in any order. Each vault operation
    is one transaction; everything between two operations is not. */
module Vault {
  import opened Mappings

  // ----- scopes -----

  const DEFAULT_DOMAIN: string := "_global"

  /** The key scope of a type within a domain; `None` when a part is empty or holds
      the separator. */
  function ScopeFor(domain: string, ty: string): Option<string> {
    if '/' in domain || '/' in ty || domain == "" || ty == "" then None
    else if domain == DEFAULT_DOMAIN then Some(ty)
    else Some(domain + "/" + ty)
  }

  lemma FirstSlash(a: string, b: string, a': string, b': string)
    requires '/' !in a && '/' !in a' && a + "/" + b == a' + "/" + b'
    ensures a == a' && b == b'
  {
    var s := a + "/" + b;
    assert s[|a|] == '/' && s[|a'|] == '/';
    assert forall k :: 0 <= k < |a| ==> s[k] == a[k] && a[k] in a;
    assert forall k :: 0 <= k < |a'| ==> s[k] == a'[k] && a'[k] in a';
    assert a == s[..|a|] && b == s[|a| + 1..];
  }

  lemma HasSlash(a: string, b: string)
    ensures '/' in a + "/" + b
  {
    assert (a + "/" + b)[|a|] == '/';
  }

  /** No two pairs share a scope. */
  lemma ScopesApart(d: string, t: string, d': string, t': string)
    requires ScopeFor(d, t).Some? && ScopeFor(d, t) == ScopeFor(d', t')
    ensures d == d' && t == t'
  {
    HasSlash(d, t);
    HasSlash(d', t');
    if d != DEFAULT_DOMAIN && d' != DEFAULT_DOMAIN { FirstSlash(d, t, d', t'); }
  }

  // ----- the vault -----

  datatype Status = Active | Retired
  datatype Entry = Entry(scope: string, wrapped: string, status: Status)
  type Vault = map<string, Entry>

  /** The key-encryption service and the id of a key. */
  datatype Transit = Transit(wrap: string -> string, unwrap: string -> Option<string>, keyId: string -> string)

  ghost predicate Ideal(t: Transit) { forall m :: t.unwrap(t.wrap(m)) == Some(m) }

  predicate IsActive(v: Vault, scope: string, id: string) { id in v && v[id].scope == scope && v[id].status == Active }

  ghost predicate HasActive(v: Vault, scope: string) { exists id :: IsActive(v, scope, id) }

  /** `active_for` may return any active row of the scope. */
  ghost predicate ReadsActive(v: Vault, scope: string, r: Option<string>) {
    match r case None => !HasActive(v, scope) case Some(id) => IsActive(v, scope, id)
  }

  function Insert(v: Vault, id: string, e: Entry): Vault { if id in v then v else v[id := e] }

  function Retire(v: Vault, id: string): Vault { if id in v then v[id := v[id].(status := Retired)] else v }

  /** The key an id stands for. */
  function Resolve(t: Transit, v: Vault, id: string): Option<Key> {
    if id !in v then None
    else match t.unwrap(v[id].wrapped) case None => None case Some(m) => Some(Key(id, m))
  }

  // ----- workers -----

  /** Where a worker is: `Took` is about to read the scope's active key, `Put` to
      insert a fresh one, `Adopt` to read the winner after the insert was refused,
      `Retiring` to retire the key it read. `then` says what the key is for. */
  datatype Goal = Use | Rotating | Migrate(was: Key)
  datatype Worker =
    | Idle
    | Take(scope: string, goal: Goal)           // current_key: read
    | Begin(scope: string, goal: Goal)          // rotate: read
    | Retiring(scope: string, prev: string, goal: Goal)
    | Insertion(scope: string, goal: Goal)      // mint: put
    | Adopt(scope: string, goal: Goal)          // put refused: read the winner
    | Reencrypting(was: Key, next: Key)
    | Holding(key: Key)                         // handed out
    | Raised

  datatype World = World(v: Vault, d: map<string, Mapping>, workers: map<nat, Worker>, handed: set<Key>)

  /** `goal` of a current-key call inside `rotate_keys` is `Rotating`: its key is the
      old one. */
  function Received(w: World, i: nat, scope: string, goal: Goal, key: Key): World {
    var next :=
      match goal
      case Use => Holding(key)
      case Rotating => Begin(scope, Migrate(key))
      case Migrate(was) => Reencrypting(was, key);
    w.(workers := w.workers[i := next], handed := w.handed + {key})
  }

  function Moves(w: World, i: nat, next: Worker): World { w.(workers := w.workers[i := next]) }

  /** After reading the active key of a rotation. */
  function Begun(scope: string, goal: Goal, r: Option<string>): Worker {
    match r case None => Insertion(scope, goal) case Some(id) => Retiring(scope, id, goal)
  }

  /** The active key is handed out; without one the worker goes on as `none`. */
  ghost predicate Takes(t: Transit, w: World, w': World, i: nat, scope: string, goal: Goal, none: Worker) {
    exists r :: ReadsActive(w.v, scope, r)
        && (if r.None? then w' == Moves(w, i, none) else Hands(t, w, w', i, scope, goal, r.value))
  }

  /** One step of worker `i`. */
  ghost predicate Step(t: Transit, w: World, w': World, i: nat, material: string, nonce: string -> nat) {
    i in w.workers &&
    match w.workers[i]
    case Take(scope, goal) => Takes(t, w, w', i, scope, goal, Insertion(scope, goal))
    case Begin(scope, goal) =>
      exists r :: ReadsActive(w.v, scope, r) && w' == Moves(w, i, Begun(scope, goal, r))
    case Retiring(scope, prev, goal) =>
      w' == Moves(w.(v := Retire(w.v, prev)), i, Insertion(scope, goal))
    case Insertion(scope, goal) =>
      if HasActive(w.v, scope) && t.keyId(material) !in w.v then w' == Moves(w, i, Adopt(scope, goal))
      else
        var key := Key(t.keyId(material), material);
        w' == Received(w.(v := Insert(w.v, key.id, Entry(scope, t.wrap(material), Active))), i, scope, goal, key)
    case Adopt(scope, goal) => Takes(t, w, w', i, scope, goal, Raised)
    case Reencrypting(was, next) =>
      if CanMove(t, w, was.id, next.id) then
        w' == Moves(w.(d := Moved(w.d, Resolve(t, w.v, was.id).value, Resolve(t, w.v, next.id).value, nonce)), i,
            Holding(next))
      else w' == Moves(w, i, Raised)
    case _ => w' == w
  }

  /** Both keys resolve and every row under the old one opens. */
  predicate CanMove(t: Transit, w: World, was: string, next: string) {
    && Resolve(t, w.v, was).Some? && Resolve(t, w.v, next).Some?
    && forall p :: p in w.d && w.d[p].keyId == was ==> w.d[p].cipher.material == Resolve(t, w.v, was).value.material
  }

  ghost predicate Hands(t: Transit, w: World, w': World, i: nat, scope: string, goal: Goal, id: string) {
    match Resolve(t, w.v, id)
    case None => w' == Moves(w, i, Raised)
    case Some(key) => w' == Received(w, i, scope, goal, key)
  }

  /** A new call by worker `i`, or a mapping put under a key that was handed out. */
  datatype Event =
    | Call(i: nat, job: Worker)
    | Work(i: nat, material: string, nonce: string -> nat)
    | Store(p: string, key: Key, value: string, n: nat)

  ghost predicate Happens(t: Transit, w: World, w': World, e: Event) {
    match e
    case Call(i, job) =>
      && ((job.Take? && job.goal in {Use, Rotating}) || (job.Begin? && job.goal == Use))
      && w' == Moves(w, i, job)
    case Work(i, material, nonce) =>
      t.keyId(material) !in w.v && Step(t, w, w', i, material, nonce)
    case Store(p, key, value, n) =>
      key in w.handed && w' == w.(d := PutFirst(w.d, p, Mapping(Encrypt(key.material, n, value), key.id)))
  }

  // ----- what every step keeps -----

  /** No scope has two active keys. */
  ghost predicate OneActive(v: Vault) {
    forall scope, a, b :: IsActive(v, scope, a) && IsActive(v, scope, b) ==> a == b
  }

  ghost predicate Sound(t: Transit, v: Vault) {
    forall id :: id in v ==> t.unwrap(v[id].wrapped).Some?
  }

  /** Every key handed out, or remembered by a worker, is still resolvable. */
  ghost predicate Known(t: Transit, v: Vault, key: Key) { Resolve(t, v, key.id) == Some(key) }

  ghost predicate Remembered(t: Transit, v: Vault, j: Worker) {
    match j
    case Take(_, goal) => GoalKnown(t, v, goal)
    case Begin(_, goal) => GoalKnown(t, v, goal)
    case Retiring(_, _, goal) => GoalKnown(t, v, goal)
    case Insertion(_, goal) => GoalKnown(t, v, goal)
    case Adopt(_, goal) => GoalKnown(t, v, goal)
    case Reencrypting(was, next) => Known(t, v, was) && Known(t, v, next)
    case Holding(key) => Known(t, v, key)
    case _ => true
  }

  ghost predicate GoalKnown(t: Transit, v: Vault, goal: Goal) { goal.Migrate? ==> Known(t, v, goal.was) }

  /** Every mapping opens under the key its row names. */
  ghost predicate AllResolve(t: Transit, v: Vault, d: map<string, Mapping>) {
    forall p :: p in d ==> Known(t, v, Key(d[p].keyId, d[p].cipher.material))
  }

  ghost predicate Inv(t: Transit, w: World) {
    && OneActive(w.v) && Sound(t, w.v) && AllResolve(t, w.v, w.d)
    && (forall key :: key in w.handed ==> Known(t, w.v, key))
    && (forall i :: i in w.workers ==> Remembered(t, w.v, w.workers[i]))
  }

  /** The vault only gains rows and retires them: no id changes its key. */
  ghost predicate Grows(v: Vault, v': Vault) {
    forall id :: id in v ==> id in v' && v'[id].wrapped == v[id].wrapped && v'[id].scope == v[id].scope
  }

  lemma RetireGrows(v: Vault, id: string)
    ensures Grows(v, Retire(v, id)) && (OneActive(v) ==> OneActive(Retire(v, id)))
  {
    if OneActive(v) {
      forall scope, a, b | IsActive(Retire(v, id), scope, a) && IsActive(Retire(v, id), scope, b) ensures a == b {
        assert IsActive(v, scope, a) && IsActive(v, scope, b);
      }
    }
  }

  lemma InsertGrows(t: Transit, v: Vault, id: string, scope: string, m: string)
    requires Ideal(t) && OneActive(v) && Sound(t, v) && id !in v && !HasActive(v, scope)
    ensures var v' := Insert(v, id, Entry(scope, t.wrap(m), Active));
            Grows(v, v') && OneActive(v') && Sound(t, v') && Known(t, v', Key(id, m))
  {
    var v' := Insert(v, id, Entry(scope, t.wrap(m), Active));
    forall s, a, b | IsActive(v', s, a) && IsActive(v', s, b) ensures a == b {
      if a != id { assert IsActive(v, s, a); }
      if b != id { assert IsActive(v, s, b); }
    }
  }

  lemma KnownStays(t: Transit, v: Vault, v': Vault, d: map<string, Mapping>, workers: map<nat, Worker>,
                   handed: set<Key>)
    requires Grows(v, v') && AllResolve(t, v, d)
    requires forall key :: key in handed ==> Known(t, v, key)
    requires forall i :: i in workers ==> Remembered(t, v, workers[i])
    ensures AllResolve(t, v', d)
    ensures forall key :: key in handed ==> Known(t, v', key)
    ensures forall i :: i in workers ==> Remembered(t, v', workers[i])
  {
    forall key | Known(t, v, key) ensures Known(t, v', key) {}
  }

  lemma HandsKeeps(t: Transit, w: World, w': World, i: nat, scope: string, goal: Goal, id: string)
    requires Inv(t, w) && i in w.workers && GoalKnown(t, w.v, goal) && Hands(t, w, w', i, scope, goal, id)
    ensures Inv(t, w') && w'.v == w.v && w'.d == w.d && w.handed <= w'.handed
  {
    if Resolve(t, w.v, id).Some? { assert Known(t, w.v, Resolve(t, w.v, id).value); }
  }

  /** Re-encryption never fails, and moves ciphertext only. */
  lemma MigrationKeeps(t: Transit, w: World, was: Key, next: Key, nonce: string -> nat)
    requires Inv(t, w) && Known(t, w.v, was) && Known(t, w.v, next)
    ensures CanMove(t, w, was.id, next.id)
    ensures var d' := Moved(w.d, was, next, nonce);
            AllResolve(t, w.v, d') && SameValues(t, w.v, w.d, w.v, d')
  {}

  /** The value of a mapping, under the keys of the vault. */
  function Value(t: Transit, v: Vault, d: map<string, Mapping>, p: string): Option<string> {
    if p !in d then None
    else match Resolve(t, v, d[p].keyId) case None => None case Some(k) => Decrypt(k.material, d[p].cipher)
  }

  ghost predicate SameValues(t: Transit, v: Vault, d: map<string, Mapping>, v': Vault, d': map<string, Mapping>) {
    forall p :: p in d ==> Value(t, v, d, p).Some? && Value(t, v', d', p) == Value(t, v, d, p)
  }

  /** What every event keeps. */
  ghost predicate Safe(t: Transit, w: World, w': World) {
    Inv(t, w') && Grows(w.v, w'.v) && w.handed <= w'.handed && SameValues(t, w.v, w.d, w'.v, w'.d)
  }

  lemma InsertionKeeps(t: Transit, w: World, w': World, i: nat, scope: string, goal: Goal, m: string)
    requires Ideal(t) && Inv(t, w) && i in w.workers && GoalKnown(t, w.v, goal)
    requires t.keyId(m) !in w.v && !HasActive(w.v, scope)
    requires w' == Received(w.(v := Insert(w.v, t.keyId(m), Entry(scope, t.wrap(m), Active))), i, scope, goal,
                            Key(t.keyId(m), m))
    ensures Safe(t, w, w')
  {
    InsertGrows(t, w.v, t.keyId(m), scope, m);
    KnownStays(t, w.v, w'.v, w.d, w.workers, w.handed);
  }

  lemma RetireKeeps(t: Transit, w: World, w': World, i: nat, scope: string, goal: Goal, prev: string)
    requires Inv(t, w) && i in w.workers && GoalKnown(t, w.v, goal)
    requires w' == Moves(w.(v := Retire(w.v, prev)), i, Insertion(scope, goal))
    ensures Safe(t, w, w')
  {
    RetireGrows(w.v, prev);
    KnownStays(t, w.v, w'.v, w.d, w.workers, w.handed);
  }

  lemma HandsSafe(t: Transit, w: World, w': World, i: nat, scope: string, goal: Goal, id: string)
    requires Inv(t, w) && i in w.workers && GoalKnown(t, w.v, goal) && Hands(t, w, w', i, scope, goal, id)
    ensures Safe(t, w, w')
  {
    HandsKeeps(t, w, w', i, scope, goal, id);
  }

  lemma MovesSafe(t: Transit, w: World, w': World, i: nat, next: Worker)
    requires Inv(t, w) && Remembered(t, w.v, next) && w' == Moves(w, i, next)
    ensures Safe(t, w, w')
  {}

  lemma ReencryptSafe(t: Transit, w: World, w': World, i: nat, was: Key, next: Key, nonce: string -> nat)
    requires Inv(t, w) && Known(t, w.v, was) && Known(t, w.v, next)
    requires w' == Moves(w.(d := Moved(w.d, was, next, nonce)), i, Holding(next))
    ensures Safe(t, w, w')
  {
    MigrationKeeps(t, w, was, next, nonce);
  }

  /** One step of one worker. */
  lemma StepSafe(t: Transit, w: World, w': World, i: nat, material: string, nonce: string -> nat)
    requires Ideal(t) && Inv(t, w) && t.keyId(material) !in w.v && Step(t, w, w', i, material, nonce)
    ensures Safe(t, w, w')
  {
    assert Remembered(t, w.v, w.workers[i]);
    match w.workers[i]
    case Take(scope, goal) => TakeSafe(t, w, w', i, scope, goal, Insertion(scope, goal));
    case Begin(scope, goal) =>
      var r :| ReadsActive(w.v, scope, r) && w' == Moves(w, i, Begun(scope, goal, r));
      MovesSafe(t, w, w', i, Begun(scope, goal, r));
    case Retiring(scope, prev, goal) => RetireKeeps(t, w, w', i, scope, goal, prev);
    case Insertion(scope, goal) =>
      if HasActive(w.v, scope) {
        MovesSafe(t, w, w', i, Adopt(scope, goal));
      } else {
        InsertionKeeps(t, w, w', i, scope, goal, material);
      }
    case Adopt(scope, goal) => TakeSafe(t, w, w', i, scope, goal, Raised);
    case Reencrypting(was, next) =>
      MigrationKeeps(t, w, was, next, nonce);
      ReencryptSafe(t, w, w', i, was, next, nonce);
    case _ =>
      SafeSelf(t, w);
  }

  lemma SafeSelf(t: Transit, w: World)
    requires Inv(t, w)
    ensures Safe(t, w, w)
  {}

  /** A read of the active key, and what is done when there is none. */
  lemma TakeSafe(t: Transit, w: World, w': World, i: nat, scope: string, goal: Goal, none: Worker)
    requires Inv(t, w) && i in w.workers && GoalKnown(t, w.v, goal) && Remembered(t, w.v, none)
    requires Takes(t, w, w', i, scope, goal, none)
    ensures Safe(t, w, w')
  {
    var r :| ReadsActive(w.v, scope, r)
        && (if r.None? then w' == Moves(w, i, none) else Hands(t, w, w', i, scope, goal, r.value));
    if r.None? { MovesSafe(t, w, w', i, none); } else { HandsSafe(t, w, w', i, scope, goal, r.value); }
  }

  lemma StoreSafe(t: Transit, w: World, w': World, p: string, key: Key, value: string, n: nat)
    requires Inv(t, w) && key in w.handed
    requires w' == w.(d := PutFirst(w.d, p, Mapping(Encrypt(key.material, n, value), key.id)))
    ensures Safe(t, w, w')
  {
    assert Known(t, w.v, key);
    assert Key(key.id, key.material) == key;
  }

  lemma EventSafe(t: Transit, w: World, w': World, e: Event)
    requires Ideal(t) && Inv(t, w) && Happens(t, w, w', e)
    ensures Safe(t, w, w')
  {
    match e
    case Call(i, job) => MovesSafe(t, w, w', i, job);
    case Work(i, material, nonce) => StepSafe(t, w, w', i, material, nonce);
    case Store(p, key, value, n) => StoreSafe(t, w, w', p, key, value, n);
  }

  // ----- any interleaving -----

  /** A run: any number of workers, their steps in any order. */
  ghost predicate Run(t: Transit, ws: seq<World>, es: seq<Event>) {
    |ws| == |es| + 1 && forall k :: 0 <= k < |es| ==> Happens(t, ws[k], ws[k + 1], es[k])
  }

  lemma SafeTrans(t: Transit, a: World, b: World, c: World)
    requires Safe(t, a, b) && Safe(t, b, c)
    ensures Safe(t, a, c)
  {
    forall p | p in a.d ensures Value(t, a.v, a.d, p).Some? && Value(t, c.v, c.d, p) == Value(t, a.v, a.d, p) {
      assert Value(t, b.v, b.d, p) == Value(t, a.v, a.d, p);
      assert p in b.d;
    }
  }

  /** Over every interleaving: each scope has at most one active key, every key ever
      handed out still resolves to the same material, and every mapping still opens
      to its original value. */
  lemma {:induction false} RunSafe(t: Transit, ws: seq<World>, es: seq<Event>)
    requires Ideal(t) && Run(t, ws, es) && Inv(t, ws[0])
    ensures Safe(t, ws[0], ws[|es|])
    decreases |es|
  {
    if es == [] {
      SafeSelf(t, ws[0]);
    } else {
      assert Happens(t, ws[0], ws[1], es[0]);
      EventSafe(t, ws[0], ws[1], es[0]);
      forall k | 0 <= k < |es[1..]| ensures Happens(t, ws[1..][k], ws[1..][k + 1], es[1..][k]) {
        assert Happens(t, ws[k + 1], ws[k + 2], es[k + 1]);
      }
      RunSafe(t, ws[1..], es[1..]);
      SafeTrans(t, ws[0], ws[1], ws[|es|]);
    }
  }

  /** What `RunSafe` means for a key handed out early and a value stored early. */
  lemma RunKeepsPromises(t: Transit, ws: seq<World>, es: seq<Event>, key: Key, p: string, scope: string, a: string,
                         b: string)
    requires Ideal(t) && Run(t, ws, es) && Inv(t, ws[0])
    ensures var w' := ws[|es|];
            && (key in ws[0].handed ==> Resolve(t, w'.v, key.id) == Some(key))
            && (p in ws[0].d ==> Value(t, w'.v, w'.d, p) == Value(t, ws[0].v, ws[0].d, p) != None)
            && (IsActive(w'.v, scope, a) && IsActive(w'.v, scope, b) ==> a == b)
  {
    RunSafe(t, ws, es);
    var w' := ws[|es|];
    if key in ws[0].handed {
      assert key in w'.handed;
      assert Known(t, w'.v, key);
    }
  }

  // ----- the provider -----

  class KeyVault {
    var v: Vault

    constructor ()
      ensures v == map[]
    {
      v := map[];
    }

    /** `false` when another active key of the scope is there. */
    method Put(id: string, scope: string, wrapped: string) returns (ok: bool)
      modifies this
      ensures ok <==> id in old(v) || !HasActive(old(v), scope)
      ensures v == if ok then Insert(old(v), id, Entry(scope, wrapped, Active)) else old(v)
    {
      if id in v { return true; }
      var other := ActiveFor(scope);
      if other.Some? { return false; }
      v := v[id := Entry(scope, wrapped, Active)];
      ok := true;
    }

    method ActiveFor(scope: string) returns (r: Option<string>)
      ensures ReadsActive(v, scope, r)
    {
      var todo := v.Keys;
      while todo != {}
        invariant todo <= v.Keys && forall id :: IsActive(v, scope, id) ==> id in todo
        decreases todo
      {
        var id :| id in todo;
        if v[id].scope == scope && v[id].status == Active { return Some(id); }
        todo := todo - {id};
      }
      r := None;
    }

    method SetRetired(id: string) returns (ok: bool)
      modifies this
      ensures ok <==> id in old(v)
      ensures v == Retire(old(v), id)
    {
      if id !in v { return false; }
      v := v[id := v[id].(status := Retired)];
      ok := true;
    }
  }

  class DurableKeyProvider {
    const vault: KeyVault
    const t: Transit
    const ttl: int
    var cache: map<string, (string, int)>

    constructor (vault: KeyVault, t: Transit, ttl: int)
      ensures this.vault == vault && this.t == t && cache == map[]
    {
      this.vault, this.t, this.ttl, cache := vault, t, ttl, map[];
    }

    /** The vault is sound, and a cached key is the key of its row. */
    ghost predicate Valid()
      reads this, vault
    {
      && OneActive(vault.v) && Sound(t, vault.v)
      && forall id :: id in cache && id in vault.v ==> t.unwrap(vault.v[id].wrapped) == Some(cache[id].0)
    }

    method Material(id: string, now: int) returns (m: Option<string>)
      requires Valid() && id in vault.v
      modifies this
      ensures Valid() && m == t.unwrap(vault.v[id].wrapped)
      ensures cache == if (id in old(cache) && now < old(cache)[id].1) || m.None? then old(cache)
                       else old(cache)[id := (m.value, now + ttl)]
    {
      if id in cache && cache[id].1 > now { return Some(cache[id].0); }
      m := t.unwrap(vault.v[id].wrapped);
      if m.Some? { cache := cache[id := (m.value, now + ttl)]; }
    }

    /** The key of an id, whatever its status; `None` for an unknown one. */
    method KeyOf(id: string, now: int) returns (r: Option<Key>)
      requires Valid()
      modifies this
      ensures Valid() && r == Resolve(t, vault.v, id)
    {
      if id !in vault.v { return None; }
      var m := Material(id, now);
      r := if m.Some? then Some(Key(id, m.value)) else None;
    }

    /** A fresh key, or the winner of a concurrent mint. */
    method MintOrAdopt(scope: string, material: string, now: int) returns (r: Option<Key>)
      requires Valid() && Ideal(t) && t.keyId(material) !in vault.v
      modifies this, vault
      ensures Valid()
      ensures if HasActive(old(vault.v), scope) then vault.v == old(vault.v)
              else vault.v == Insert(old(vault.v), t.keyId(material), Entry(scope, t.wrap(material), Active))
      ensures r.Some? && Known(t, vault.v, r.value) && IsActive(vault.v, scope, r.value.id)
      ensures !HasActive(old(vault.v), scope) ==> r.value == Key(t.keyId(material), material)
    {
      var id := t.keyId(material);
      ghost var was := vault.v;
      if !HasActive(was, scope) { InsertGrows(t, was, id, scope, material); }
      var ok := vault.Put(id, scope, t.wrap(material));
      if ok {
        cache := cache[id := (material, now + ttl)];
        return Some(Key(id, material));
      }
      var winner := vault.ActiveFor(scope);
      if winner.None? { return None; }
      r := KeyOf(winner.value, now);
    }

    /** The scope's active key; the first use of a scope makes one. */
    method CurrentKey(scope: string, material: string, now: int) returns (r: Option<Key>)
      requires Valid() && Ideal(t) && t.keyId(material) !in vault.v
      modifies this, vault
      ensures Valid()
      ensures if HasActive(old(vault.v), scope) then vault.v == old(vault.v)
              else vault.v == Insert(old(vault.v), t.keyId(material), Entry(scope, t.wrap(material), Active))
      ensures r.Some? && Known(t, vault.v, r.value) && IsActive(vault.v, scope, r.value.id)
    {
      var active := vault.ActiveFor(scope);
      if active.Some? {
        r := KeyOf(active.value, now);
        return;
      }
      r := MintOrAdopt(scope, material, now);
    }

    /** Retires the active key, then makes a new one: every id stays resolvable. */
    method Rotate(scope: string, material: string, now: int) returns (r: Option<Key>)
      requires Valid() && Ideal(t) && t.keyId(material) !in vault.v
      modifies this, vault
      ensures Valid() && Grows(old(vault.v), vault.v)
      ensures r == Some(Key(t.keyId(material), material)) && Known(t, vault.v, r.value)
      ensures forall id :: IsActive(vault.v, scope, id) <==> id == t.keyId(material)
    {
      var prev := vault.ActiveFor(scope);
      if prev.Some? {
        RetireGrows(vault.v, prev.value);
        var _ := vault.SetRetired(prev.value);
      }
      NoneLeft(old(vault.v), vault.v, scope, prev);
      InsertGrows(t, vault.v, t.keyId(material), scope, material);
      r := MintOrAdopt(scope, material, now);
      assert IsActive(vault.v, scope, t.keyId(material));
    }

    /** `rotate_keys`, by a worker that is alone: exactly the mappings under the scope's
        key move to the new one, and every mapping opens to what it opened to before. */
    method RotateKeys(store: InMemoryMappingStore, scope: string, first: string, second: string,
                      nonce: string -> nat, now: int)
      returns (r: Option<(Key, nat)>, prev: Key)
      requires Valid() && Ideal(t) && AllResolve(t, vault.v, store.d)
      requires t.keyId(first) !in vault.v && t.keyId(second) !in vault.v && t.keyId(first) != t.keyId(second)
      modifies this, vault, store
      ensures Valid() && Grows(old(vault.v), vault.v)
      ensures r.Some? && IsActive(vault.v, scope, r.value.0.id) && AllResolve(t, vault.v, store.d)
      ensures SameValues(t, old(vault.v), old(store.d), vault.v, store.d)
      ensures if HasActive(old(vault.v), scope) then IsActive(old(vault.v), scope, prev.id)
              else prev.id == t.keyId(first)
      ensures store.d == Moved(old(store.d), prev, r.value.0, nonce)
      ensures r.value.1 == |set p | p in old(store.d) && old(store.d)[p].keyId == prev.id|
      ensures forall p :: p in store.d ==> store.d[p].keyId != prev.id
    {
      var was := CurrentKey(scope, first, now);
      prev := was.value;
      FirstIsActive(old(vault.v), vault.v, scope, prev.id, t.keyId(first), Entry(scope, t.wrap(first), Active));
      ghost var v1 := vault.v;
      var next := Rotate(scope, second, now);
      KnownAfter(t, old(vault.v), vault.v, store.d);
      var a := KeyOf(was.value.id, now);
      var b := KeyOf(next.value.id, now);
      var keys := map[was.value.id := was.value, next.value.id := next.value];
      var moved := store.Reencrypt(was.value.id, next.value.id, keys, nonce);
      MovedValues(t, vault.v, old(store.d), was.value, next.value, nonce);
      NoneUnder(old(store.d), was.value, next.value, nonce);
      ValuesTrans(t, old(vault.v), old(store.d), vault.v, store.d);
      r := Some((next.value, moved.value));
    }
  }

  lemma FirstIsActive(v: Vault, v': Vault, scope: string, id: string, made: string, entry: Entry)
    requires IsActive(v', scope, id) && v' == if HasActive(v, scope) then v else Insert(v, made, entry)
    ensures if HasActive(v, scope) then IsActive(v, scope, id) else id == made
  {
    if !HasActive(v, scope) { assert !IsActive(v, scope, id); }
  }

  lemma NoneUnder(d: map<string, Mapping>, prev: Key, next: Key, nonce: string -> nat)
    requires prev.id != next.id
    ensures var d' := Moved(d, prev, next, nonce); forall p :: p in d' ==> d'[p].keyId != prev.id
  {}

  lemma NoneLeft(v: Vault, v': Vault, scope: string, prev: Option<string>)
    requires OneActive(v) && ReadsActive(v, scope, prev)
    requires v' == if prev.Some? then Retire(v, prev.value) else v
    ensures !HasActive(v', scope)
  {
    forall id | IsActive(v', scope, id) ensures false {
      assert IsActive(v, scope, id);
    }
  }

  lemma KnownAfter(t: Transit, v: Vault, v': Vault, d: map<string, Mapping>)
    requires Grows(v, v') && AllResolve(t, v, d)
    ensures AllResolve(t, v', d) && SameValues(t, v, d, v', d)
  {
    forall p | p in d ensures Known(t, v', Key(d[p].keyId, d[p].cipher.material)) {
      assert Known(t, v, Key(d[p].keyId, d[p].cipher.material));
    }
  }

  lemma MovedValues(t: Transit, v: Vault, d: map<string, Mapping>, was: Key, next: Key, nonce: string -> nat)
    requires AllResolve(t, v, d) && Known(t, v, was) && Known(t, v, next)
    ensures forall p :: p in d && d[p].keyId == was.id ==> d[p].cipher.material == was.material
    ensures AllResolve(t, v, Moved(d, was, next, nonce)) && SameValues(t, v, d, v, Moved(d, was, next, nonce))
  {}

  lemma ValuesTrans(t: Transit, v: Vault, d: map<string, Mapping>, v': Vault, d': map<string, Mapping>)
    requires SameValues(t, v, d, v', d) && SameValues(t, v', d, v', d')
    ensures SameValues(t, v, d, v', d')
  {}
}
