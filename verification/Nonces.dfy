/**
 Replay protection: a nonce store (LRU cache over a database with a periodic
 cleanup).
 */
module Nonces {
  import opened Lru

  const NONCE_EXPIRATION_SECONDS := 300
  const TIMESTAMP_TOLERANCE_SECONDS := 300
  const NONCE_CACHE_SIZE := 100000

  /** Nonces with the time each expires, cached and stored. */
  datatype Store = Store(cache: Cache<string, int>, db: map<string, int>)

  const EMPTY_STORE := Store(Empty(NONCE_CACHE_SIZE), map[])

  // ----- Operations on values -----

  function Unexpired(m: map<string, int>, now: int): map<string, int> {
    map n | n in m && m[n] > now :: m[n]
  }

  /** Look a nonce up, dropping expired entries and caching a database hit. */
  function Lookup(s: Store, nonce: string, now: int): (Store, bool) {
    if nonce in s.cache.order && nonce in s.cache.items && s.cache.items[nonce] > now then
      (s.(cache := Touch(s.cache, nonce)), true)
    else
      var cache := if nonce in s.cache.order then Pop(Touch(s.cache, nonce), nonce) else s.cache;
      if nonce !in s.db then (s.(cache := cache), false)
      else if s.db[nonce] > now then (s.(cache := Put(cache, nonce, s.db[nonce])), true)
      else (Store(cache, s.db - {nonce}), false)
  }

  function Record(s: Store, nonce: string, now: int): Store {
    var expiry := now + NONCE_EXPIRATION_SECONDS;
    Store(Put(s.cache, nonce, expiry), s.db[nonce := expiry])
  }

  function Cleanup(s: Store, now: int): Store {
    s.(db := Unexpired(s.db, now))
  }

  // ----- The stateful store -----

  class NonceStore {
    var cache: Cache<string, int>
    var db: map<string, int>

    ghost predicate Valid()
      reads this
    {
      Lru.Valid(cache)
    }

    constructor ()
      ensures State() == EMPTY_STORE && Valid() && cache.capacity == 100_000
    {
      cache := Empty(NONCE_CACHE_SIZE);
      db := map[];
    }

    ghost function State(): Store
      reads this
    {
      Store(cache, db)
    }

    method IsNonceUsed(nonce: string, now: int) returns (used: bool)
      requires Valid()
      modifies this
      ensures Valid()
      ensures (State(), used) == Lookup(old(State()), nonce, now)
    {
      if nonce in cache.order && nonce in cache.items {
        TouchSpec(cache, nonce);
        cache := Touch(cache, nonce);
        if cache.items[nonce] > now {
          return true;
        }
        PopSpec(cache, nonce);
        cache := Pop(cache, nonce);
      }
      if nonce !in db {
        return false;
      }
      var expiry := db[nonce];
      if expiry > now {
        PutSpec(cache, nonce, expiry);
        cache := Put(cache, nonce, expiry);
        return true;
      }
      db := db - {nonce};
      return false;
    }

    method RecordNonce(nonce: string, now: int)
      requires Valid()
      modifies this
      ensures Valid()
      ensures State() == Record(old(State()), nonce, now)
    {
      var expiry := now + NONCE_EXPIRATION_SECONDS;
      db := db[nonce := expiry];
      PutSpec(cache, nonce, expiry);
      cache := Put(cache, nonce, expiry);
    }

    /** Walks the stored nonces in any order, deleting and counting the expired ones. */
    method CleanupExpiredNonces(now: int) returns (deleted: nat)
      modifies this`db
      ensures State() == Cleanup(old(State()), now)
      ensures deleted == |old(db)| - |db|
    {
      var pending := db.Keys;
      deleted := 0;
      while pending != {}
        invariant pending <= old(db).Keys
        invariant db.Keys == set n | n in old(db) && (n in pending || old(db)[n] > now)
        invariant forall n :: n in db ==> db[n] == old(db)[n]
        invariant deleted + |db| == |old(db)|
        decreases pending
      {
        var nonce :| nonce in pending;
        pending := pending - {nonce};
        if db[nonce] <= now {
          ghost var before := db;
          db := db - {nonce};
          assert before.Keys == db.Keys + {nonce};
          deleted := deleted + 1;
        }
      }
      assert db == Unexpired(old(db), now);
    }
  }

  // ----- Refinement: the store behaves like one plain map of expiry times -----

  /** Every entry agrees with the plain map, and the database holds all that is unexpired. */
  ghost predicate Refines(s: Store, plain: map<string, int>, now: int) {
    && Lru.Valid(s.cache)
    && (forall n :: n in s.cache.items ==> n in plain && s.cache.items[n] == plain[n])
    && (forall n :: n in s.db ==> n in plain && s.db[n] == plain[n])
    && (forall n :: n in plain && plain[n] > now ==> n in s.db)
  }

  /** A lookup answers from the plain map and leaves it represented. */
  lemma LookupRefines(s: Store, plain: map<string, int>, nonce: string, now: int)
    requires Refines(s, plain, now)
    ensures Refines(Lookup(s, nonce, now).0, plain, now)
    ensures Lookup(s, nonce, now).1 <==> nonce in plain && plain[nonce] > now
  {
    var cache := s.cache;
    if nonce in cache.order {
      TouchSpec(cache, nonce);
      PopSpec(Touch(cache, nonce), nonce);
      cache := Pop(Touch(cache, nonce), nonce);
    }
    if nonce in s.db {
      PutSpec(cache, nonce, s.db[nonce]);
    }
  }

  lemma RecordRefines(s: Store, plain: map<string, int>, nonce: string, now: int)
    requires Refines(s, plain, now)
    ensures Refines(Record(s, nonce, now), plain[nonce := now + 300], now)
  {
    PutSpec(s.cache, nonce, now + NONCE_EXPIRATION_SECONDS);
  }

  // ----- Runs of the store -----

  datatype Op =
    | LookupOp(nonce: string, now: int)
    | RecordOp(nonce: string, now: int)
    | CleanupOp(now: int)

  ghost predicate Ordered(ops: seq<Op>) {
    forall i, j :: 0 <= i < j < |ops| ==> ops[i].now <= ops[j].now
  }

  function Apply(s: Store, op: Op): Store {
    match op
    case LookupOp(nonce, now) => Lookup(s, nonce, now).0
    case RecordOp(nonce, now) => Record(s, nonce, now)
    case CleanupOp(now) => Cleanup(s, now)
  }

  function After(ops: seq<Op>): Store {
    if ops == [] then EMPTY_STORE else Apply(After(ops[..|ops| - 1]), ops[|ops| - 1])
  }

  /** The reference: only records matter, each overwriting the expiry time. */
  function Plain(ops: seq<Op>): map<string, int> {
    if ops == [] then map[]
    else
      var last := ops[|ops| - 1];
      var before := Plain(ops[..|ops| - 1]);
      if last.RecordOp? then before[last.nonce := last.now + 300] else before
  }

  lemma {:induction false} RunRefines(ops: seq<Op>, now: int)
    requires Ordered(ops) && forall i :: 0 <= i < |ops| ==> ops[i].now <= now
    ensures Refines(After(ops), Plain(ops), now)
  {
    if ops == [] {
    } else {
      var n := |ops| - 1;
      var last := ops[n];
      RunRefines(ops[..n], last.now);
      match last
      case LookupOp(nonce, t) => LookupRefines(After(ops[..n]), Plain(ops[..n]), nonce, t);
      case RecordOp(nonce, t) => RecordRefines(After(ops[..n]), Plain(ops[..n]), nonce, t);
      case CleanupOp(t) =>
    }
  }

  /** In every ordered run a lookup answers as the plain map does. */
  lemma LookupAgreesWithPlainMap(ops: seq<Op>, nonce: string, now: int)
    requires Ordered(ops) && forall i :: 0 <= i < |ops| ==> ops[i].now <= now
    ensures Lookup(After(ops), nonce, now).1 <==> nonce in Plain(ops) && Plain(ops)[nonce] > now
  {
    RunRefines(ops, now);
    LookupRefines(After(ops), Plain(ops), nonce, now);
  }

  /** The last record of the nonce is operation `i`. */
  ghost predicate LastRecord(ops: seq<Op>, i: nat, nonce: string) {
    && i < |ops| && ops[i].RecordOp? && ops[i].nonce == nonce
    && forall j :: i < j < |ops| && ops[j].RecordOp? ==> ops[j].nonce != nonce
  }

  lemma {:induction false} PlainByLastRecord(ops: seq<Op>, i: nat, nonce: string)
    requires LastRecord(ops, i, nonce)
    ensures nonce in Plain(ops) && Plain(ops)[nonce] == ops[i].now + 300
    decreases |ops|
  {
    if i < |ops| - 1 {
      PlainByLastRecord(ops[..|ops| - 1], i, nonce);
    }
  }

  lemma {:induction false} PlainWithoutRecord(ops: seq<Op>, nonce: string)
    requires forall j :: 0 <= j < |ops| && ops[j].RecordOp? ==> ops[j].nonce != nonce
    ensures nonce !in Plain(ops)
    decreases |ops|
  {
    if ops != [] {
      PlainWithoutRecord(ops[..|ops| - 1], nonce);
    }
  }

  /** A nonce is used for exactly 300 seconds after its last record; one never recorded is not used. */
  lemma UsedForFiveMinutes(ops: seq<Op>, nonce: string, now: int)
    requires Ordered(ops) && forall i :: 0 <= i < |ops| ==> ops[i].now <= now
    ensures forall i: nat :: LastRecord(ops, i, nonce) ==>
                               (Lookup(After(ops), nonce, now).1 <==> now - ops[i].now < 300)
    ensures (forall j :: 0 <= j < |ops| && ops[j].RecordOp? ==> ops[j].nonce != nonce) ==>
              !Lookup(After(ops), nonce, now).1
  {
    LookupAgreesWithPlainMap(ops, nonce, now);
    forall i: nat | LastRecord(ops, i, nonce)
      ensures Lookup(After(ops), nonce, now).1 <==> now - ops[i].now < 300
    {
      PlainByLastRecord(ops, i, nonce);
    }
    if forall j :: 0 <= j < |ops| && ops[j].RecordOp? ==> ops[j].nonce != nonce {
      PlainWithoutRecord(ops, nonce);
    }
  }

  /** A lookup leaves a used nonce at the front of the cache and no trace of an unused one. */
  lemma LookupLeaves(s: Store, nonce: string, now: int)
    requires Lru.Valid(s.cache)
    ensures var (s', used) := Lookup(s, nonce, now);
            if used then s'.cache.order != [] && s'.cache.order[0] == nonce && s'.db == s.db
            else nonce !in s'.cache.order && nonce !in s'.db
  {
    if nonce in s.cache.order {
      TouchSpec(s.cache, nonce);
      PopSpec(Touch(s.cache, nonce), nonce);
      WithoutSpec(Touch(s.cache, nonce).order, nonce);
      assert Pop(Touch(s.cache, nonce), nonce).order == Without(Touch(s.cache, nonce).order, nonce);
    }
  }

  /** What a cleanup leaves stored: of the nonces on record, those recorded less than 300 seconds ago. */
  lemma CleanupLeavesFresh(ops: seq<Op>, i: nat, nonce: string, now: int)
    requires Ordered(ops) && (forall j :: 0 <= j < |ops| ==> ops[j].now <= now) && LastRecord(ops, i, nonce)
    ensures nonce in Cleanup(After(ops), now).db <==> now - ops[i].now < 300
  {
    RunRefines(ops, now);
    PlainByLastRecord(ops, i, nonce);
  }
}
