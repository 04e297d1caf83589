/**
 Run-level results about the rate limiter: the lifetime of a key's penalties and
 the number of requests a window admits.
 */
module PenaltyLadder {
  import opened Wrappers
  import opened RateLimits
  import C = RequestCounts

  ghost predicate Ordered(reqs: seq<Request>) {
    forall i, j :: 0 <= i < j < |reqs| ==> reqs[i].now <= reqs[j].now
  }

  function After(bypass: set<string>, reqs: seq<Request>): Store {
    if reqs == [] then EMPTY_STORE
    else Check(After(bypass, reqs[..|reqs| - 1]), bypass, reqs[|reqs| - 1]).0
  }

  function VerdictAt(bypass: set<string>, reqs: seq<Request>, i: nat): Verdict
    requires i < |reqs|
  {
    Check(After(bypass, reqs[..i]), bypass, reqs[i]).1
  }

  function Count(s: Store, key: string): nat {
    Violations(s, key).count
  }

  /** What holds of one key's violation record and ban after every run. */
  ghost predicate OnLadder(s: Store, key: string, now: int) {
    && Count(s, key) <= 5
    && (key in s.bans ==>
          var ban := s.bans[key];
          && 2 <= Count(s, key)
          && ban.level == LevelFor(Count(s, key))
          && ban.createdAt <= now
          && ban.expiresAt == Expiry(ban.level, ban.createdAt))
    && (Count(s, key) >= 4 ==> key in s.bans)
  }

  lemma GateKeepsLadder(s: Store, bypass: set<string>, r: Request, key: string, now: int)
    requires OnLadder(s, key, now) && now <= r.now
    ensures OnLadder(Gate(s, bypass, r).0, key, r.now)
    ensures Count(Gate(s, bypass, r).0, key) == Count(s, key)
    ensures Gate(s, bypass, r).0.counters == s.counters
    ensures Gate(s, bypass, r).1.None? && key == r.key ==>
              Count(s, key) <= 4 && (r.write ==> Count(s, key) <= 3)
  {
  }

  lemma PunishKeepsLadder(s: Store, r: Request, key: string)
    requires OnLadder(s, key, r.now)
    requires key == r.key ==> Count(s, key) <= 4
    ensures OnLadder(Punish(s, r).0, key, r.now)
    ensures Count(Punish(s, r).0, key) == Count(s, key) + if key == r.key then 1 else 0
    ensures Punish(s, r).1.Warned? <==> Count(s, r.key) == 0
  {
  }

  lemma CheckKeepsLadder(s: Store, bypass: set<string>, r: Request, key: string, now: int)
    requires OnLadder(s, key, now) && now <= r.now
    ensures OnLadder(Check(s, bypass, r).0, key, r.now)
    ensures Count(s, key) <= Count(Check(s, bypass, r).0, key)
    ensures r.key == key && Check(s, bypass, r).1.Warned? <==>
            r.key == key && Count(s, key) == 0 && Count(Check(s, bypass, r).0, key) == 1
  {
    GateKeepsLadder(s, bypass, r, key, now);
    var (s1, stop) := Gate(s, bypass, r);
    if stop.None? {
      var (counters, n) := C.Increment(s1.counters, r.key, r.now);
      PunishKeepsLadder(s1.(counters := counters), r, key);
    }
  }

  /** One request adds at most one violation, and none to another key. */
  lemma CheckCountStep(s: Store, bypass: set<string>, r: Request, key: string)
    requires OnLadder(s, key, r.now)
    ensures Count(Check(s, bypass, r).0, key) <= Count(s, key) + if r.key == key then 1 else 0
  {
    GateKeepsLadder(s, bypass, r, key, r.now);
  }

  lemma {:induction false} RunOnLadder(bypass: set<string>, reqs: seq<Request>, key: string, now: int)
    requires Ordered(reqs) && forall i :: 0 <= i < |reqs| ==> reqs[i].now <= now
    ensures OnLadder(After(bypass, reqs), key, now)
  {
    if reqs == [] {
    } else {
      var n := |reqs| - 1;
      RunOnLadder(bypass, reqs[..n], key, reqs[n].now);
      CheckKeepsLadder(After(bypass, reqs[..n]), bypass, reqs[n], key, reqs[n].now);
    }
  }

  lemma OrderedPrefix(reqs: seq<Request>, i: nat)
    requires Ordered(reqs) && i < |reqs|
    ensures Ordered(reqs[..i]) && forall j :: 0 <= j < i ==> reqs[..i][j].now <= reqs[i].now
  {
  }

  lemma OnLadderBefore(bypass: set<string>, reqs: seq<Request>, i: nat, key: string)
    requires Ordered(reqs) && i < |reqs|
    ensures OnLadder(After(bypass, reqs[..i]), key, reqs[i].now)
  {
    OrderedPrefix(reqs, i);
    RunOnLadder(bypass, reqs[..i], key, reqs[i].now);
  }

  lemma AfterStep(bypass: set<string>, reqs: seq<Request>, i: nat)
    requires i < |reqs|
    ensures After(bypass, reqs[..i + 1]) == Check(After(bypass, reqs[..i]), bypass, reqs[i]).0
  {
    assert reqs[..i + 1][..i] == reqs[..i];
  }

  // ----- Violations and warnings -----

  /** How many Warned verdicts the key received. */
  function Warnings(bypass: set<string>, reqs: seq<Request>, key: string): nat {
    if reqs == [] then 0
    else
      var n := |reqs| - 1;
      Warnings(bypass, reqs[..n], key) +
      if reqs[n].key == key && VerdictAt(bypass, reqs, n).Warned? then 1 else 0
  }

  lemma WarnStep(s: Store, bypass: set<string>, r: Request, key: string, warnings: nat)
    requires OnLadder(s, key, r.now) && warnings == if Count(s, key) == 0 then 0 else 1
    ensures warnings + (if r.key == key && Check(s, bypass, r).1.Warned? then 1 else 0) ==
            if Count(Check(s, bypass, r).0, key) == 0 then 0 else 1
  {
    CheckKeepsLadder(s, bypass, r, key, r.now);
    CheckCountStep(s, bypass, r, key);
  }

  /** A key is warned exactly once, with its first violation. */
  lemma {:induction false} WarnedOnce(bypass: set<string>, reqs: seq<Request>, key: string)
    requires Ordered(reqs)
    ensures Warnings(bypass, reqs, key) == if Count(After(bypass, reqs), key) == 0 then 0 else 1
  {
    if reqs == [] {
    } else {
      var n := |reqs| - 1;
      WarnedOnce(bypass, reqs[..n], key);
      OnLadderBefore(bypass, reqs, n, key);
      WarnStep(After(bypass, reqs[..n]), bypass, reqs[n], key, Warnings(bypass, reqs[..n], key));
    }
  }

  /** A violation count never decreases. */
  lemma {:induction false} CountMonotone(bypass: set<string>, reqs: seq<Request>, i: nat, j: nat, key: string)
    requires Ordered(reqs) && i <= j <= |reqs|
    ensures Count(After(bypass, reqs[..i]), key) <= Count(After(bypass, reqs[..j]), key)
    decreases j
  {
    if i < j {
      CountMonotone(bypass, reqs, i, j - 1, key);
      OnLadderBefore(bypass, reqs, j - 1, key);
      CheckKeepsLadder(After(bypass, reqs[..j - 1]), bypass, reqs[j - 1], key, reqs[j - 1].now);
      AfterStep(bypass, reqs, j - 1);
    }
  }

  // ----- Bans that never end -----

  lemma BlockedFromLadder(s: Store, bypass: set<string>, r: Request, now: int)
    requires OnLadder(s, r.key, now) && now <= r.now && r.key !in bypass
    ensures Count(s, r.key) >= 5 || (Count(s, r.key) >= 4 && r.write) ==> Check(s, bypass, r).1.Blocked?
  {
    GateKeepsLadder(s, bypass, r, r.key, now);
  }

  /** From the fourth violation on every write is blocked; from the fifth, every request. */
  lemma BlockedForGood(bypass: set<string>, reqs: seq<Request>, i: nat, j: nat)
    requires Ordered(reqs) && i <= j < |reqs| && reqs[j].key !in bypass
    ensures Count(After(bypass, reqs[..i]), reqs[j].key) >= 4 && reqs[j].write ==>
              VerdictAt(bypass, reqs, j).Blocked?
    ensures Count(After(bypass, reqs[..i]), reqs[j].key) >= 5 ==> VerdictAt(bypass, reqs, j).Blocked?
  {
    CountMonotone(bypass, reqs, i, j, reqs[j].key);
    OnLadderBefore(bypass, reqs, j, reqs[j].key);
    BlockedFromLadder(After(bypass, reqs[..j]), bypass, reqs[j], reqs[j].now);
  }

  // ----- Timed bans -----

  /** The key's writes are banned at every time up to and including `t`. */
  ghost predicate WriteBannedThrough(s: Store, key: string, t: int) {
    && key in s.bans
    && s.bans[key].level.BlocksWrites()
    && !Expired(s.bans[key], t)
  }

  lemma GateKeepsWriteBan(s: Store, bypass: set<string>, r: Request, key: string, t: int)
    requires r.now <= t && WriteBannedThrough(s, key, t)
    ensures WriteBannedThrough(Gate(s, bypass, r).0, key, t)
    ensures r.key == key && r.write && key !in bypass ==>
              Gate(s, bypass, r).1.Some? && Gate(s, bypass, r).1.value.Blocked?
  {
  }

  /** The only ban that follows one with a write block has no end. */
  lemma ChargeKeepsWriteBan(s: Store, r: Request, key: string, t: int)
    requires OnLadder(s, key, r.now) && WriteBannedThrough(s, key, t) && r.now <= t
    ensures WriteBannedThrough(Charge(s, r).0, key, t)
  {
  }

  lemma WriteBanStep(s: Store, bypass: set<string>, r: Request, key: string, now: int, t: int)
    requires OnLadder(s, key, now) && now <= r.now <= t && WriteBannedThrough(s, key, t)
    ensures WriteBannedThrough(Check(s, bypass, r).0, key, t)
    ensures r.key == key && r.write && key !in bypass ==> Check(s, bypass, r).1.Blocked?
  {
    GateKeepsLadder(s, bypass, r, key, now);
    GateKeepsWriteBan(s, bypass, r, key, t);
    if Gate(s, bypass, r).1.None? {
      ChargeKeepsWriteBan(Gate(s, bypass, r).0, r, key, t);
    }
  }

  lemma {:induction false} WriteBanPersists(
    bypass: set<string>, reqs: seq<Request>, i: nat, j: nat, key: string, t: int)
    requires Ordered(reqs) && i <= j <= |reqs|
    requires j > 0 ==> reqs[j - 1].now <= t
    requires WriteBannedThrough(After(bypass, reqs[..i]), key, t)
    ensures WriteBannedThrough(After(bypass, reqs[..j]), key, t)
    decreases j
  {
    if i < j {
      assert j >= 2 ==> reqs[j - 2].now <= reqs[j - 1].now;
      WriteBanPersists(bypass, reqs, i, j - 1, key, t);
      OnLadderBefore(bypass, reqs, j - 1, key);
      WriteBanStep(After(bypass, reqs[..j - 1]), bypass, reqs[j - 1], key, reqs[j - 1].now, t);
      AfterStep(bypass, reqs, j - 1);
    }
  }

  /** A write ban, once applied, blocks every write of the key until its expiry time. */
  lemma WriteBanLasts(bypass: set<string>, reqs: seq<Request>, i: nat, j: nat)
    requires Ordered(reqs) && i <= j < |reqs|
    requires reqs[j].write && reqs[j].key !in bypass
    requires WriteBannedThrough(After(bypass, reqs[..i]), reqs[j].key, reqs[j].now)
    ensures VerdictAt(bypass, reqs, j).Blocked?
  {
    var key := reqs[j].key;
    WriteBanPersists(bypass, reqs, i, j, key, reqs[j].now);
    OnLadderBefore(bypass, reqs, j, key);
    WriteBanStep(After(bypass, reqs[..j]), bypass, reqs[j], key, reqs[j].now, reqs[j].now);
  }

  // ----- Admission -----

  /** The requests of the run that reach the counter. */
  function Calls(bypass: set<string>, reqs: seq<Request>): seq<C.Call> {
    if reqs == [] then []
    else
      var n := |reqs| - 1;
      var r := reqs[n];
      Calls(bypass, reqs[..n]) +
      if Gate(After(bypass, reqs[..n]), bypass, r).1.None? then [C.Call(r.key, r.now)] else []
  }

  lemma GateKeepsCounters(s: Store, bypass: set<string>, r: Request)
    ensures Gate(s, bypass, r).0.counters == s.counters
  {
  }

  lemma CheckCounts(s: Store, bypass: set<string>, r: Request)
    ensures Check(s, bypass, r).0.counters ==
            if Gate(s, bypass, r).1.None? then C.Increment(s.counters, r.key, r.now).0 else s.counters
    ensures Gate(s, bypass, r).1.None? && Check(s, bypass, r).1.Allowed? ==>
              C.Increment(s.counters, r.key, r.now).1 <= Limit(r.write)
    ensures r.key !in bypass && Check(s, bypass, r).1.Allowed? ==> Gate(s, bypass, r).1.None?
  {
    GateKeepsCounters(s, bypass, r);
  }

  lemma {:induction false} CallsOrdered(bypass: set<string>, reqs: seq<Request>, now: int)
    requires Ordered(reqs) && forall i :: 0 <= i < |reqs| ==> reqs[i].now <= now
    ensures C.Ordered(Calls(bypass, reqs))
    ensures forall i :: 0 <= i < |Calls(bypass, reqs)| ==> Calls(bypass, reqs)[i].now <= now
  {
    if reqs == [] {
    } else {
      var n := |reqs| - 1;
      CallsOrdered(bypass, reqs[..n], reqs[n].now);
    }
  }

  /** The limiter's counters are those of the run of its counted calls. */
  lemma {:induction false} CountersAreCalls(bypass: set<string>, reqs: seq<Request>)
    ensures After(bypass, reqs).counters == C.After(C.CACHE_SIZE, Calls(bypass, reqs))
  {
    if reqs == [] {
    } else {
      var n := |reqs| - 1;
      CountersAreCalls(bypass, reqs[..n]);
      CountersStep(After(bypass, reqs[..n]), bypass, reqs[n], Calls(bypass, reqs[..n]));
    }
  }

  lemma CountersStep(s: Store, bypass: set<string>, r: Request, calls: seq<C.Call>)
    requires s.counters == C.After(C.CACHE_SIZE, calls)
    ensures Check(s, bypass, r).0.counters ==
            C.After(C.CACHE_SIZE, calls + if Gate(s, bypass, r).1.None? then [C.Call(r.key, r.now)] else [])
  {
    CheckCounts(s, bypass, r);
    C.AfterAppend(C.CACHE_SIZE, calls, C.Call(r.key, r.now));
    assert calls + [] == calls;
  }

  /** Allowed verdicts of one counter: writes only, or reads and writes together. */
  function Admitted(bypass: set<string>, reqs: seq<Request>, wk: C.WindowKey, writesOnly: bool): nat {
    if reqs == [] then 0
    else
      var n := |reqs| - 1;
      var r := reqs[n];
      Admitted(bypass, reqs[..n], wk, writesOnly) +
      if C.WindowKey(r.key, C.WindowStart(r.now)) == wk && (writesOnly ==> r.write) &&
         VerdictAt(bypass, reqs, n).Allowed?
      then 1 else 0
  }

  ghost predicate Fits(calls: seq<C.Call>, window: int) {
    |C.Active(calls, window)| <= 10_000
  }

  /** An allowed request carries its exact rank among the window's counted calls. */
  lemma AllowedRank(bypass: set<string>, reqs: seq<Request>, n: nat)
    requires Ordered(reqs) && n == |reqs| - 1
    requires reqs[n].key !in bypass && VerdictAt(bypass, reqs, n).Allowed?
    requires Fits(Calls(bypass, reqs), C.WindowStart(reqs[n].now))
    ensures var c := C.Call(reqs[n].key, reqs[n].now);
            && Calls(bypass, reqs) == Calls(bypass, reqs[..n]) + [c]
            && C.TrueCount(Calls(bypass, reqs), C.Counter(c)) <= Limit(reqs[n].write)
            && C.TrueCount(Calls(bypass, reqs), C.Counter(c)) ==
               C.TrueCount(Calls(bypass, reqs[..n]), C.Counter(c)) + 1
  {
    var s := After(bypass, reqs[..n]);
    var c := C.Call(reqs[n].key, reqs[n].now);
    var calls := Calls(bypass, reqs[..n]);
    CheckCounts(s, bypass, reqs[n]);
    CountersAreCalls(bypass, reqs[..n]);
    OrderedPrefix(reqs, n);
    CallsOrdered(bypass, reqs[..n], c.now);
    C.CapacityKept(C.CACHE_SIZE, calls);
    C.RunInvariant(C.CACHE_SIZE, calls, c.now);
    C.InvariantStep(s.counters, calls, c);
    C.TrueCountStep(calls, c, C.Counter(c));
  }

  lemma FitsBefore(bypass: set<string>, reqs: seq<Request>, window: int)
    requires reqs != [] && Fits(Calls(bypass, reqs), window)
    ensures Fits(Calls(bypass, reqs[..|reqs| - 1]), window)
  {
    var calls, before := Calls(bypass, reqs), Calls(bypass, reqs[..|reqs| - 1]);
    assert before <= calls;
    C.SubsetSize(C.Active(before, window), C.Active(calls, window));
  }

  lemma TrueCountGrows(calls: seq<C.Call>, more: seq<C.Call>, wk: C.WindowKey)
    requires |more| <= 1
    ensures C.TrueCount(calls, wk) <= C.TrueCount(calls + more, wk)
  {
    if more == [] {
      assert calls + more == calls;
    } else {
      assert calls + more == calls + [more[0]];
      C.TrueCountStep(calls, more[0], wk);
    }
  }

  /** Admission never exceeds the counted calls nor the limits. */
  lemma {:induction false} AdmittedBound(bypass: set<string>, reqs: seq<Request>, wk: C.WindowKey)
    requires Ordered(reqs) && wk.key !in bypass && Fits(Calls(bypass, reqs), wk.window)
    ensures Admitted(bypass, reqs, wk, false) <= C.TrueCount(Calls(bypass, reqs), wk)
    ensures Admitted(bypass, reqs, wk, true) <= C.TrueCount(Calls(bypass, reqs), wk)
    ensures Admitted(bypass, reqs, wk, true) <= WRITE_LIMIT
    ensures Admitted(bypass, reqs, wk, false) <= READ_LIMIT
  {
    if reqs == [] {
    } else {
      var n := |reqs| - 1;
      FitsBefore(bypass, reqs, wk.window);
      AdmittedBound(bypass, reqs[..n], wk);
      if C.WindowKey(reqs[n].key, C.WindowStart(reqs[n].now)) == wk && VerdictAt(bypass, reqs, n).Allowed? {
        AllowedRank(bypass, reqs, n);
      } else {
        var counted := Calls(bypass, reqs)[|Calls(bypass, reqs[..n])|..];
        assert Calls(bypass, reqs) == Calls(bypass, reqs[..n]) + counted;
        TrueCountGrows(Calls(bypass, reqs[..n]), counted, wk);
      }
    }
  }
}
