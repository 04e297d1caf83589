/**
 The HTTP rate limiter: request counters, violation records, bans and IP bans in
 one store, and the check that escalates penalties with every violation.
 */
module RateLimits {
  import opened Wrappers
  import C = RequestCounts
  import Lru

  const WRITE_LIMIT := 10
  const READ_LIMIT := 100
  const COOLDOWN_SECONDS := 30
  const WRITE_BLOCK_5MIN := 300
  const WRITE_BLOCK_1HR := 3600
  const IP_BAN_SECONDS := 86400
  const ONE_YEAR := 86400 * 365

  datatype BanLevel =
    | NoBan
    | Warning
    | WriteBlock5Min
    | WriteBlock1Hr
    | PermanentWriteBan
    | CompleteBlacklist
  {
    /** None stands for a ban without an end. */
    function Duration(): Option<nat> {
      match this
      case NoBan => None
      case Warning => Some(COOLDOWN_SECONDS)
      case WriteBlock5Min => Some(WRITE_BLOCK_5MIN)
      case WriteBlock1Hr => Some(WRITE_BLOCK_1HR)
      case PermanentWriteBan => None
      case CompleteBlacklist => None
    }

    predicate BlocksWrites() {
      this != NoBan && this != Warning
    }

    predicate BlocksReads() {
      this == CompleteBlacklist
    }

    predicate Blocks(write: bool) {
      if write then BlocksWrites() else BlocksReads()
    }
  }

  datatype ViolationRecord = ViolationRecord(count: nat, last: int, timestamps: seq<int>)

  datatype BanRecord = BanRecord(level: BanLevel, expiresAt: Option<int>, createdAt: int)

  datatype Store = Store(
    counters: C.Counters,
    violations: map<string, ViolationRecord>,
    bans: map<string, BanRecord>,
    ipBans: map<string, int>)

  datatype Verdict =
    | Allowed(limit: nat, remaining: nat, resetAt: int)
    | Warned(cooldown: nat, warnings: nat, warnedLimit: nat, warnedRemaining: nat)
    | Blocked(level: BanLevel, retryAfter: nat, violationCount: nat)

  datatype Request = Request(key: string, ipHash: string, write: bool, now: int)

  const EMPTY_RECORD := ViolationRecord(0, 0, [])

  const EMPTY_STORE := Store(C.Counters(Lru.Empty(C.CACHE_SIZE), map[]), map[], map[], map[])

  // ----- Store operations on values -----

  function Expiry(level: BanLevel, now: int): Option<int> {
    match level.Duration()
    case None => None
    case Some(seconds) => Some(now + seconds)
  }

  predicate Expired(ban: BanRecord, now: int) {
    ban.expiresAt.Some? && now >= ban.expiresAt.value
  }

  function Violations(s: Store, key: string): ViolationRecord {
    if key in s.violations then s.violations[key] else EMPTY_RECORD
  }

  /** The record after one more violation; it remembers the last five times. */
  function WithViolation(r: ViolationRecord, now: int): ViolationRecord {
    var times := r.timestamps + [now];
    ViolationRecord(r.count + 1, now, if |times| > 5 then times[1..] else times)
  }

  function AfterViolation(s: Store, key: string, now: int): Store {
    s.(violations := s.violations[key := WithViolation(Violations(s, key), now)])
  }

  function AfterBan(s: Store, key: string, level: BanLevel, now: int): Store {
    s.(bans := s.bans[key := BanRecord(level, Expiry(level, now), now)])
  }

  /** Reading a ban drops it when it has expired. */
  function DropExpiredBan(s: Store, key: string, now: int): Store {
    if key in s.bans && Expired(s.bans[key], now) then s.(bans := s.bans - {key}) else s
  }

  function ActiveBan(s: Store, key: string, now: int): Option<BanRecord> {
    if key in s.bans && !Expired(s.bans[key], now) then Some(s.bans[key]) else None
  }

  function AfterIpBan(s: Store, ipHash: string, now: int): Store {
    s.(ipBans := s.ipBans[ipHash := now + IP_BAN_SECONDS])
  }

  predicate IpBanned(s: Store, ipHash: string, now: int) {
    ipHash in s.ipBans && now < s.ipBans[ipHash]
  }

  function DropExpiredIpBan(s: Store, ipHash: string, now: int): Store {
    if ipHash in s.ipBans && now >= s.ipBans[ipHash] then s.(ipBans := s.ipBans - {ipHash}) else s
  }

  // ----- The check -----

  function Limit(write: bool): nat {
    if write then WRITE_LIMIT else READ_LIMIT
  }

  function RetryAfter(ban: BanRecord, now: int): nat {
    match ban.expiresAt
    case None => ONE_YEAR
    case Some(expiry) => if expiry > now then expiry - now else 0
  }

  /** The bypass, IP-ban and key-ban tests: a verdict, or None to go on to counting. */
  function Gate(s: Store, bypass: set<string>, r: Request): (Store, Option<Verdict>) {
    if r.key in bypass then
      (s, Some(Allowed(9999, 9999, r.now + 60)))
    else
      var s1 := DropExpiredIpBan(s, r.ipHash, r.now);
      if IpBanned(s, r.ipHash, r.now) then
        (s1, Some(Blocked(CompleteBlacklist, 86400, 5)))
      else
        var s2 := DropExpiredBan(s1, r.key, r.now);
        match ActiveBan(s1, r.key, r.now)
        case Some(ban) =>
          if ban.level.Blocks(r.write) then
            (s2, Some(Blocked(ban.level, RetryAfter(ban, r.now), Violations(s2, r.key).count)))
          else
            (s2, None)
        case None => (s2, None)
  }

  function LevelFor(count: nat): BanLevel {
    match count
    case 0 => NoBan
    case 1 => NoBan
    case 2 => WriteBlock5Min
    case 3 => WriteBlock1Hr
    case 4 => PermanentWriteBan
    case _ => CompleteBlacklist
  }

  /** Record the violation and apply the penalty for the new count. */
  function Punish(s: Store, r: Request): (Store, Verdict) {
    var s1 := AfterViolation(s, r.key, r.now);
    var count := Violations(s1, r.key).count;
    if count == 1 then
      (s1, Warned(COOLDOWN_SECONDS, 1, Limit(r.write), 0))
    else
      var level := LevelFor(count);
      var s2 := AfterBan(s1, r.key, level, r.now);
      var s3 := if level == CompleteBlacklist then AfterIpBan(s2, r.ipHash, r.now) else s2;
      var retry := match level.Duration() case None => ONE_YEAR case Some(d) => d;
      (s3, Blocked(level, retry, count))
  }

  /** Count the request; punish it when it exceeds the limit. */
  function Charge(s: Store, r: Request): (Store, Verdict) {
    var (counters, n) := C.Increment(s.counters, r.key, r.now);
    var s1 := s.(counters := counters);
    var limit := Limit(r.write);
    if n > limit then Punish(s1, r)
    else (s1, Allowed(limit, limit - n, r.now + C.WINDOW_SECONDS))
  }

  function Check(s: Store, bypass: set<string>, r: Request): (Store, Verdict) {
    var (s1, stop) := Gate(s, bypass, r);
    match stop
    case Some(v) => (s1, v)
    case None => Charge(s1, r)
  }

  // ----- The stateful store and limiter -----

  class RateLimitStore {
    var cache: Lru.Cache<C.WindowKey, nat>
    var counts: map<C.WindowKey, nat>
    var violations: map<string, ViolationRecord>
    var bans: map<string, BanRecord>
    var ipBans: map<string, int>

    constructor ()
      ensures State() == EMPTY_STORE && cache.capacity == 10_000
    {
      cache := Lru.Empty(C.CACHE_SIZE);
      counts := map[];
      violations := map[];
      bans := map[];
      ipBans := map[];
    }

    ghost function State(): Store
      reads this
    {
      Store(C.Counters(cache, counts), violations, bans, ipBans)
    }

    method IncrementRequestCount(key: string, now: int) returns (count: nat)
      modifies this`cache, this`counts
      ensures (C.Counters(cache, counts), count) == old(C.Increment(C.Counters(cache, counts), key, now))
    {
      var wk := C.WindowKey(key, C.WindowStart(now));
      if wk in cache.order && wk in cache.items {
        count := cache.items[wk] + 1;
        cache := Lru.Touch(cache, wk).(items := cache.items[wk := count]);
        return;
      }
      count := 1 + if wk in counts then counts[wk] else 0;
      counts := counts[wk := count];
      cache := Lru.Put(cache, wk, count);
    }

    method RecordViolation(key: string, now: int) returns (record: ViolationRecord)
      modifies this`violations
      ensures State() == AfterViolation(old(State()), key, now)
      ensures record == Violations(State(), key)
    {
      record := if key in violations then violations[key] else EMPTY_RECORD;
      var times := record.timestamps + [now];
      if |times| > 5 {
        times := times[1..];
      }
      record := ViolationRecord(record.count + 1, now, times);
      violations := violations[key := record];
    }

    method GetViolations(key: string) returns (record: ViolationRecord)
      ensures record == Violations(State(), key)
    {
      record := if key in violations then violations[key] else EMPTY_RECORD;
    }

    method ApplyBan(key: string, level: BanLevel, now: int)
      modifies this`bans
      ensures State() == AfterBan(old(State()), key, level, now)
    {
      bans := bans[key := BanRecord(level, Expiry(level, now), now)];
    }

    method GetBanStatus(key: string, now: int) returns (status: Option<BanRecord>)
      modifies this`bans
      ensures State() == DropExpiredBan(old(State()), key, now)
      ensures status == ActiveBan(old(State()), key, now)
    {
      if key !in bans {
        return None;
      }
      var record := bans[key];
      if Expired(record, now) {
        bans := bans - {key};
        return None;
      }
      return Some(record);
    }

    method BanIp(ipHash: string, now: int)
      modifies this`ipBans
      ensures State() == AfterIpBan(old(State()), ipHash, now)
    {
      ipBans := ipBans[ipHash := now + IP_BAN_SECONDS];
    }

    method IsIpBanned(ipHash: string, now: int) returns (banned: bool)
      modifies this`ipBans
      ensures State() == DropExpiredIpBan(old(State()), ipHash, now)
      ensures banned == IpBanned(old(State()), ipHash, now)
    {
      if ipHash !in ipBans {
        return false;
      }
      if now >= ipBans[ipHash] {
        ipBans := ipBans - {ipHash};
        return false;
      }
      return true;
    }
  }

  class RateLimiter {
    const store: RateLimitStore
    const bypassKeys: set<string>

    constructor (store: RateLimitStore, bypassKeys: set<string>)
      ensures this.store == store && this.bypassKeys == bypassKeys
    {
      this.store := store;
      this.bypassKeys := bypassKeys;
    }

    method CheckLimit(r: Request) returns (v: Verdict)
      modifies store
      ensures (store.State(), v) == Check(old(store.State()), bypassKeys, r)
    {
      if r.key in bypassKeys {
        return Allowed(9999, 9999, r.now + 60);
      }
      var banned := store.IsIpBanned(r.ipHash, r.now);
      if banned {
        return Blocked(CompleteBlacklist, 86400, 5);
      }
      var status := store.GetBanStatus(r.key, r.now);
      if status.Some? && status.value.level.Blocks(r.write) {
        var record := store.GetViolations(r.key);
        return Blocked(status.value.level, RetryAfter(status.value, r.now), record.count);
      }
      var limit := Limit(r.write);
      var count := store.IncrementRequestCount(r.key, r.now);
      if count <= limit {
        return Allowed(limit, limit - count, r.now + C.WINDOW_SECONDS);
      }
      v := Penalize(r);
    }

    method Penalize(r: Request) returns (v: Verdict)
      modifies store
      ensures (store.State(), v) == Punish(old(store.State()), r)
    {
      var record := store.RecordViolation(r.key, r.now);
      if record.count == 1 {
        return Warned(COOLDOWN_SECONDS, 1, Limit(r.write), 0);
      }
      var level := LevelFor(record.count);
      store.ApplyBan(r.key, level, r.now);
      if level == CompleteBlacklist {
        store.BanIp(r.ipHash, r.now);
      }
      var duration := level.Duration();
      return Blocked(level, if duration.Some? then duration.value else ONE_YEAR, record.count);
    }
  }
}
