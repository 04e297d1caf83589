/** The cache of derived keys: TTL and LRU eviction over an expensive derivation. */
module KeyCache {
  import opened Wrappers
  import opened Lru

  const CACHE_MAX_ENTRIES := 1000
  const CACHE_TTL_SECONDS := 300

  datatype Keys = Keys(encryptionKey: string, macKey: string)

  /** Key derivation and the digest that names cache entries. */
  datatype Derivation = Derivation(
    encryption: (string, string) -> string,
    mac: (string, string) -> string,
    digest: string -> string)

  datatype Entry = Entry(keys: Keys, insertedAt: int)

  datatype Stats = Stats(hits: nat, misses: nat, evictions: nat)

  datatype State = State(cache: Cache<string, Entry>, stats: Stats)

  const NEW_CACHE := State(Empty(CACHE_MAX_ENTRIES), Stats(0, 0, 0))

  function CacheKey(d: Derivation, apiKey: string, salt: string): string {
    (d.digest)(apiKey + salt)
  }

  function Derived(d: Derivation, apiKey: string, salt: string): Keys {
    Keys((d.encryption)(apiKey, salt), (d.mac)(apiKey, salt))
  }

  /** The entry is younger than the time to live. */
  predicate Alive(e: Entry, now: int) {
    now - e.insertedAt < CACHE_TTL_SECONDS
  }

  /** The cache after dropping an expired entry, if there was one. */
  function Expire(s: State, ck: string): State {
    if ck in s.cache.order then
      State(Pop(Touch(s.cache, ck), ck), s.stats.(evictions := s.stats.evictions + 1))
    else s
  }

  /** Derive, store and count one miss. */
  function Insert(s: State, ck: string, e: Entry): State {
    State(Put(s.cache, ck, e),
          Stats(s.stats.hits, s.stats.misses + 1,
                s.stats.evictions + if Evicted(s.cache, ck).Some? then 1 else 0))
  }

  function Get(d: Derivation, s: State, apiKey: string, salt: string, now: int): (State, Keys) {
    var ck := CacheKey(d, apiKey, salt);
    if ck in s.cache.order && ck in s.cache.items && Alive(s.cache.items[ck], now) then
      (State(Touch(s.cache, ck), s.stats.(hits := s.stats.hits + 1)), s.cache.items[ck].keys)
    else
      var keys := Derived(d, apiKey, salt);
      (Insert(Expire(s, ck), ck, Entry(keys, now)), keys)
  }

  // ----- The stateful cache -----

  class SharedCache {
    const d: Derivation
    var cache: Cache<string, Entry>
    var stats: Stats

    ghost predicate Valid()
      reads this
    {
      Lru.Valid(cache)
    }

    ghost function Current(): State
      reads this
    {
      State(cache, stats)
    }

    constructor (d: Derivation)
      ensures Current() == NEW_CACHE && Valid() && this.d == d && cache.capacity == 1000
    {
      this.d := d;
      cache := Empty(CACHE_MAX_ENTRIES);
      stats := Stats(0, 0, 0);
    }

    /** The first half of a lookup: a hit, or an expired entry dropped. */
    method TryCached(ck: string, now: int) returns (hit: Option<Keys>)
      requires Valid()
      modifies this
      ensures Valid()
      ensures hit.Some? <==> ck in old(cache.items) && Alive(old(cache.items)[ck], now)
      ensures hit.Some? ==>
                && hit.value == old(cache.items)[ck].keys
                && Current() == State(Touch(old(cache), ck), old(stats).(hits := old(stats).hits + 1))
      ensures hit.None? ==> Current() == Expire(old(Current()), ck)
    {
      if ck !in cache.items {
        return None;
      }
      assert ck in cache.order;
      var e := cache.items[ck];
      TouchSpec(cache, ck);
      cache := Touch(cache, ck);
      if Alive(e, now) {
        stats := stats.(hits := stats.hits + 1);
        return Some(e.keys);
      }
      PopSpec(cache, ck);
      cache := Pop(cache, ck);
      stats := stats.(evictions := stats.evictions + 1);
      return None;
    }

    /** The second half: store freshly derived keys. */
    method Remember(ck: string, e: Entry)
      requires Valid()
      modifies this
      ensures Valid() && Current() == Insert(old(Current()), ck, e)
    {
      stats := stats.(misses := stats.misses + 1);
      if Evicted(cache, ck).Some? {
        stats := stats.(evictions := stats.evictions + 1);
      }
      PutSpec(cache, ck, e);
      cache := Put(cache, ck, e);
    }

    method GetKeys(apiKey: string, salt: string, now: int) returns (keys: Keys)
      requires Valid()
      modifies this
      ensures Valid()
      ensures (Current(), keys) == Get(d, old(Current()), apiKey, salt, now)
    {
      var ck := CacheKey(d, apiKey, salt);
      var hit := TryCached(ck, now);
      if hit.Some? {
        return hit.value;
      }
      keys := Keys((d.encryption)(apiKey, salt), (d.mac)(apiKey, salt));
      Remember(ck, Entry(keys, now));
    }

    method Clear()
      modifies this
      ensures Current() == NEW_CACHE && Valid()
    {
      cache := Empty(CACHE_MAX_ENTRIES);
      stats := Stats(0, 0, 0);
    }
  }

  // ----- Runs -----

  datatype Event =
    | Lookup(apiKey: string, salt: string, now: int)
    | ClearAll

  function After(d: Derivation, events: seq<Event>): State {
    if events == [] then NEW_CACHE
    else
      var s := After(d, events[..|events| - 1]);
      match events[|events| - 1]
      case Lookup(apiKey, salt, now) => Get(d, s, apiKey, salt, now).0
      case ClearAll => NEW_CACHE
  }

  function Answer(d: Derivation, events: seq<Event>, i: nat): Keys
    requires i < |events| && events[i].Lookup?
  {
    Get(d, After(d, events[..i]), events[i].apiKey, events[i].salt, events[i].now).1
  }

  /** Lookups since the last clear. */
  function Lookups(events: seq<Event>): nat {
    if events == [] || events[|events| - 1].ClearAll? then 0 else 1 + Lookups(events[..|events| - 1])
  }

  ghost predicate Accounted(s: State, lookups: nat) {
    && Lru.Valid(s.cache) && s.cache.capacity == CACHE_MAX_ENTRIES
    && s.stats.misses == |s.cache.order| + s.stats.evictions
    && s.stats.hits + s.stats.misses == lookups
  }

  lemma ExpireAccounts(s: State, ck: string)
    requires Lru.Valid(s.cache)
    ensures Lru.Valid(Expire(s, ck).cache) && ck !in Expire(s, ck).cache.order
    ensures |Expire(s, ck).cache.order| + Expire(s, ck).stats.evictions == |s.cache.order| + s.stats.evictions
  {
    if ck in s.cache.order {
      TouchSpec(s.cache, ck);
      PopSpec(Touch(s.cache, ck), ck);
      WithoutSpec(Touch(s.cache, ck).order, ck);
    }
  }

  lemma GetAccounts(d: Derivation, s: State, apiKey: string, salt: string, now: int, lookups: nat)
    requires Accounted(s, lookups)
    ensures Accounted(Get(d, s, apiKey, salt, now).0, lookups + 1)
  {
    var ck := CacheKey(d, apiKey, salt);
    if ck in s.cache.order && Alive(s.cache.items[ck], now) {
      TouchSpec(s.cache, ck);
    } else {
      ExpireAccounts(s, ck);
      PutSpec(Expire(s, ck).cache, ck, Entry(Derived(d, apiKey, salt), now));
    }
  }

  /** Since the last clear: misses = size + evictions, hits + misses = lookups, size bounded. */
  lemma {:induction false} StatisticsAddUp(d: Derivation, events: seq<Event>)
    ensures Accounted(After(d, events), Lookups(events))
    ensures |After(d, events).cache.items| <= 1000
  {
    if events == [] {
    } else {
      var n := |events| - 1;
      StatisticsAddUp(d, events[..n]);
      if events[n].Lookup? {
        GetAccounts(d, After(d, events[..n]), events[n].apiKey, events[n].salt, events[n].now, Lookups(events[..n]));
      }
    }
    SizeIsOrder(After(d, events).cache.order, After(d, events).cache.items.Keys);
  }

  lemma {:induction false} SizeIsOrder(order: seq<string>, keys: set<string>)
    requires Distinct(order) && forall k :: k in order <==> k in keys
    ensures |keys| == |order|
  {
    if order == [] {
      assert keys == {};
    } else {
      var n := |order| - 1;
      assert order == order[..n] + [order[n]];
      assert order[n] !in order[..n];
      SizeIsOrder(order[..n], keys - {order[n]});
    }
  }

  /** Keys derived at `now` answer a repeated lookup for the next 300 seconds and no longer. */
  lemma DerivedKeysServeFiveMinutes(d: Derivation, events: seq<Event>, apiKey: string, salt: string, now: int,
                                    later: int)
    requires var s := After(d, events);
             Get(d, s, apiKey, salt, now).0.stats.misses == s.stats.misses + 1
    ensures var s1 := Get(d, After(d, events), apiKey, salt, now).0;
            Get(d, s1, apiKey, salt, later).0.stats ==
            if later - now < 300 then Stats(s1.stats.hits + 1, s1.stats.misses, s1.stats.evictions)
            else Stats(s1.stats.hits, s1.stats.misses + 1, s1.stats.evictions + 1)
  {
    StatisticsAddUp(d, events);
    MissStores(d, After(d, events), apiKey, salt, now);
    RepeatedLookup(d, Get(d, After(d, events), apiKey, salt, now).0, apiKey, salt, later);
  }

  lemma MissStores(d: Derivation, s: State, apiKey: string, salt: string, now: int)
    requires Lru.Valid(s.cache)
    requires Get(d, s, apiKey, salt, now).0.stats.misses == s.stats.misses + 1
    ensures var s1, ck := Get(d, s, apiKey, salt, now).0, CacheKey(d, apiKey, salt);
            Lru.Valid(s1.cache) && ck in s1.cache.items && s1.cache.items[ck].insertedAt == now
  {
    var ck := CacheKey(d, apiKey, salt);
    ExpireAccounts(s, ck);
    PutSpec(Expire(s, ck).cache, ck, Entry(Derived(d, apiKey, salt), now));
  }

  lemma RepeatedLookup(d: Derivation, s: State, apiKey: string, salt: string, now: int)
    requires Lru.Valid(s.cache) && CacheKey(d, apiKey, salt) in s.cache.items
    ensures var age := now - s.cache.items[CacheKey(d, apiKey, salt)].insertedAt;
            Get(d, s, apiKey, salt, now).0.stats ==
            if age < 300 then Stats(s.stats.hits + 1, s.stats.misses, s.stats.evictions)
            else Stats(s.stats.hits, s.stats.misses + 1, s.stats.evictions + 1)
  {
    var ck := CacheKey(d, apiKey, salt);
    TouchSpec(s.cache, ck);
    PopSpec(Touch(s.cache, ck), ck);
    assert Evicted(Pop(Touch(s.cache, ck), ck), ck).None?;
  }

  /** A lookup moves its entry to the front; a new entry pushes the last one of a full cache out. */
  lemma LookupMovesToFront(d: Derivation, s: State, apiKey: string, salt: string, now: int)
    requires Lru.Valid(s.cache) && s.cache.capacity == 1000
    ensures var ck, before := CacheKey(d, apiKey, salt), s.cache.order;
            Get(d, s, apiKey, salt, now).0.cache.order ==
            [ck] + if ck in before then Without(before, ck) else if |before| < 1000 then before else before[..999]
  {
    var ck := CacheKey(d, apiKey, salt);
    if ck in s.cache.order {
      DroppedAfterTouch(s.cache, ck);
      PutInFront(Pop(Touch(s.cache, ck), ck), ck, Entry(Derived(d, apiKey, salt), now));
    } else {
      PutInFront(s.cache, ck, Entry(Derived(d, apiKey, salt), now));
    }
  }

  lemma PutInFront(c: Cache<string, Entry>, ck: string, e: Entry)
    requires ck !in c.order
    ensures Put(c, ck, e).order == [ck] + if |c.order| < c.capacity || c.order == [] then c.order
                                          else c.order[..|c.order| - 1]
  {
  }

  lemma DroppedAfterTouch(c: Cache<string, Entry>, ck: string)
    requires Lru.Valid(c) && ck in c.order
    ensures Pop(Touch(c, ck), ck).order == Without(c.order, ck)
    ensures ck !in Without(c.order, ck) && |Without(c.order, ck)| < c.capacity
  {
    WithoutSpec(c.order, ck);
    var touched := Touch(c, ck).order;
    assert touched[0] == ck && IndexOf(touched, ck) == 0;
    assert touched[..0] + touched[1..] == Without(c.order, ck);
  }

  // ----- Transparency -----

  ghost function Uses(events: seq<Event>): set<(string, string)> {
    set i | 0 <= i < |events| && events[i].Lookup? :: (events[i].apiKey, events[i].salt)
  }

  /** No two uses share a cache entry. */
  ghost predicate NoClash(d: Derivation, uses: set<(string, string)>) {
    forall u, v :: u in uses && v in uses && CacheKey(d, u.0, u.1) == CacheKey(d, v.0, v.1) ==> u == v
  }

  /** API keys of one length and a collision-free digest of key and salt rule clashes out. */
  lemma FixedLengthKeysDoNotClash(d: Derivation, uses: set<(string, string)>, length: nat)
    requires forall u :: u in uses ==> |u.0| == length
    requires forall u, v :: u in uses && v in uses && (d.digest)(u.0 + u.1) == (d.digest)(v.0 + v.1) ==>
                              u.0 + u.1 == v.0 + v.1
    ensures NoClash(d, uses)
  {
    forall u, v | u in uses && v in uses && CacheKey(d, u.0, u.1) == CacheKey(d, v.0, v.1)
      ensures u == v
    {
      assert u.0 == (u.0 + u.1)[..length] == v.0;
      assert u.1 == (u.0 + u.1)[length..] == v.1;
    }
  }

  /** Every cached entry was derived for one of the uses. */
  ghost predicate Honest(d: Derivation, s: State, uses: set<(string, string)>) {
    && Lru.Valid(s.cache)
    && forall ck :: ck in s.cache.items ==>
                      exists u :: u in uses && CacheKey(d, u.0, u.1) == ck &&
                                  s.cache.items[ck].keys == Derived(d, u.0, u.1)
  }

  lemma GetIsHonest(d: Derivation, s: State, apiKey: string, salt: string, now: int, uses: set<(string, string)>)
    requires Honest(d, s, uses) && (apiKey, salt) in uses
    ensures Honest(d, Get(d, s, apiKey, salt, now).0, uses)
  {
    var ck := CacheKey(d, apiKey, salt);
    if ck in s.cache.order && Alive(s.cache.items[ck], now) {
      TouchSpec(s.cache, ck);
    } else {
      ExpireAccounts(s, ck);
      var e := Entry(Derived(d, apiKey, salt), now);
      var s1 := Expire(s, ck);
      PutSpec(s1.cache, ck, e);
      assert (apiKey, salt).0 == apiKey && (apiKey, salt).1 == salt;
    }
  }

  lemma {:induction false} RunIsHonest(d: Derivation, events: seq<Event>, uses: set<(string, string)>)
    requires Uses(events) <= uses
    ensures Honest(d, After(d, events), uses)
  {
    if events == [] {
    } else {
      var n := |events| - 1;
      assert Uses(events[..n]) <= Uses(events);
      RunIsHonest(d, events[..n], uses);
      if events[n].Lookup? {
        assert (events[n].apiKey, events[n].salt) in Uses(events);
        GetIsHonest(d, After(d, events[..n]), events[n].apiKey, events[n].salt, events[n].now, uses);
      }
    }
  }

  /** Under hits, expiry, eviction and clearing alike, every answer is the direct derivation. */
  lemma CacheIsTransparent(d: Derivation, events: seq<Event>, i: nat)
    requires i < |events| && events[i].Lookup? && NoClash(d, Uses(events))
    ensures Answer(d, events, i).encryptionKey == (d.encryption)(events[i].apiKey, events[i].salt)
    ensures Answer(d, events, i).macKey == (d.mac)(events[i].apiKey, events[i].salt)
  {
    var u := (events[i].apiKey, events[i].salt);
    assert u in Uses(events);
    assert Uses(events[..i]) <= Uses(events);
    RunIsHonest(d, events[..i], Uses(events));
  }
}
