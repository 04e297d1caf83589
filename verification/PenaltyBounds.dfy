/**
 Further run-level results about the rate limiter: the cooldown that nothing enforces,
 the ban of an address, and admission when the cache forgets.
 */
module PenaltyBounds {
  import opened Wrappers
  import opened RateLimits
  import opened PenaltyLadder
  import C = RequestCounts
  import CountLoss

  // ----- The announced cooldown -----

  /** The count that the request would be told. */
  function CountFor(s: Store, r: Request): nat {
    C.Increment(s.counters, r.key, r.now).1
  }

  /** After its first violation a key is treated like one without any: the count alone decides. */
  lemma CooldownIsNotEnforced(bypass: set<string>, reqs: seq<Request>, i: nat)
    requires Ordered(reqs) && i < |reqs| && reqs[i].key !in bypass
    requires var s := After(bypass, reqs[..i]);
             Count(s, reqs[i].key) == 1 && !IpBanned(s, reqs[i].ipHash, reqs[i].now)
    ensures VerdictAt(bypass, reqs, i).Allowed? <==>
            CountFor(After(bypass, reqs[..i]), reqs[i]) <= Limit(reqs[i].write)
  {
    var s, r := After(bypass, reqs[..i]), reqs[i];
    OnLadderBefore(bypass, reqs, i, r.key);
    UnbannedIsCharged(s, bypass, r);
  }

  lemma UnbannedIsCharged(s: Store, bypass: set<string>, r: Request)
    requires r.key !in bypass && r.key !in s.bans && !IpBanned(s, r.ipHash, r.now)
    ensures Gate(s, bypass, r).1.None? && Gate(s, bypass, r).0.counters == s.counters
    ensures Gate(s, bypass, r).0.violations == s.violations && Gate(s, bypass, r).0.bans == s.bans
    ensures Check(s, bypass, r).1.Allowed? <==> CountFor(s, r) <= Limit(r.write)
  {
  }

  /** The same call, some number of times. */
  function Repeat(key: string, now: int, n: nat): seq<C.Call> {
    seq(n, _ => C.Call(key, now))
  }

  lemma {:induction false} RepeatCount(key: string, now: int, n: nat)
    ensures C.TrueCount(Repeat(key, now, n), C.Counter(C.Call(key, now))) == n
  {
    if n == 0 {
    } else {
      RepeatCount(key, now, n - 1);
      assert Repeat(key, now, n) == Repeat(key, now, n - 1) + [C.Call(key, now)];
      C.TrueCountStep(Repeat(key, now, n - 1), C.Call(key, now), C.Counter(C.Call(key, now)));
    }
  }

  /** One more call in the same window is told the next number. */
  lemma NextCount(key: string, now: int, n: nat, later: int)
    requires now <= later && C.WindowStart(now) == C.WindowStart(later)
    ensures C.Increment(C.After(C.CACHE_SIZE, Repeat(key, now, n)), key, later).1 == n + 1
  {
    var before, c := Repeat(key, now, n), C.Call(key, later);
    var calls := before + [c];
    assert calls[..n] == before && calls[..n + 1] == calls;
    assert C.Active(calls, C.WindowStart(later)) == {key} by {
      assert calls[n].key == key;
    }
    C.CountsExactly(C.CACHE_SIZE, calls, n);
    C.TrueCountStep(before, c, C.Counter(c));
    RepeatCount(key, now, n);
  }

  /** Only the key has called, and it has no record. */
  ghost predicate Clean(s: Store, key: string, ipHash: string, now: int, n: nat) {
    && key !in s.violations && key !in s.bans && ipHash !in s.ipBans
    && s.counters == C.After(C.CACHE_SIZE, Repeat(key, now, n))
  }

  function Writes(key: string, ipHash: string, now: int, n: nat): seq<Request> {
    seq(n, _ => Request(key, ipHash, true, now))
  }

  lemma CleanStep(s: Store, key: string, ipHash: string, now: int, n: nat)
    requires Clean(s, key, ipHash, now, n)
    ensures var (s', v) := Check(s, {}, Request(key, ipHash, true, now));
            && s'.counters == C.After(C.CACHE_SIZE, Repeat(key, now, n + 1))
            && (n < WRITE_LIMIT ==> v.Allowed? && Clean(s', key, ipHash, now, n + 1))
            && (n >= WRITE_LIMIT ==> v.Warned? && key !in s'.bans && ipHash !in s'.ipBans && Count(s', key) == 1)
  {
    NextCount(key, now, n, now);
    assert Repeat(key, now, n + 1) == Repeat(key, now, n) + [C.Call(key, now)];
    C.AfterAppend(C.CACHE_SIZE, Repeat(key, now, n), C.Call(key, now));
    UnbannedIsCharged(s, {}, Request(key, ipHash, true, now));
  }

  lemma {:induction false} CleanRun(key: string, ipHash: string, now: int, n: nat)
    requires n <= WRITE_LIMIT
    ensures Clean(After({}, Writes(key, ipHash, now, n)), key, ipHash, now, n)
  {
    if n == 0 {
      assert Repeat(key, now, 0) == [];
    } else {
      CleanRun(key, ipHash, now, n - 1);
      CleanStep(After({}, Writes(key, ipHash, now, n - 1)), key, ipHash, now, n - 1);
      assert Writes(key, ipHash, now, n)[..n - 1] == Writes(key, ipHash, now, n - 1);
    }
  }

  /** The first call in a new window is told one. */
  lemma NewWindowCount(key: string, now: int, n: nat, later: int)
    requires now <= later && C.WindowStart(now) != C.WindowStart(later)
    ensures C.Increment(C.After(C.CACHE_SIZE, Repeat(key, now, n)), key, later).1 == 1
  {
    var before, c := Repeat(key, now, n), C.Call(key, later);
    var calls := before + [c];
    assert calls[..n] == before && calls[..n + 1] == calls;
    assert C.Active(calls, C.WindowStart(later)) == {key} by {
      assert calls[n].key == key;
    }
    C.CountsExactly(C.CACHE_SIZE, calls, n);
    C.TrueCountStep(before, c, C.Counter(c));
    assert C.Active(before, C.WindowStart(later)) == {};
    C.TrueCountOfInactive(before, C.Counter(c));
  }

  /** Eleven writes in one second and a request in the next: warned, then allowed. */
  lemma WarnedThenAllowed(key: string, ipHash: string, start: int, write: bool)
    ensures var reqs := Writes(key, ipHash, start, WRITE_LIMIT + 1) + [Request(key, ipHash, write, start + 1)];
            VerdictAt({}, reqs, WRITE_LIMIT).Warned? && VerdictAt({}, reqs, WRITE_LIMIT + 1).Allowed?
  {
    var writes, next := Writes(key, ipHash, start, WRITE_LIMIT + 1), Request(key, ipHash, write, start + 1);
    var reqs := writes + [next];
    assert reqs[..WRITE_LIMIT] == Writes(key, ipHash, start, WRITE_LIMIT) && reqs[..WRITE_LIMIT + 1] == writes;
    assert writes[..WRITE_LIMIT] == Writes(key, ipHash, start, WRITE_LIMIT);
    CleanRun(key, ipHash, start, WRITE_LIMIT);
    CleanStep(After({}, writes[..WRITE_LIMIT]), key, ipHash, start, WRITE_LIMIT);
    NewWindowCount(key, start, WRITE_LIMIT + 1, start + 1);
    UnbannedIsCharged(After({}, writes), {}, next);
  }

  // ----- The ban of an address -----

  /** Requests from the address are refused at every time up to and including `t`. */
  ghost predicate IpBannedThrough(s: Store, ipHash: string, t: int) {
    ipHash in s.ipBans && t < s.ipBans[ipHash]
  }

  lemma IpBanStep(s: Store, bypass: set<string>, r: Request, ipHash: string, t: int)
    requires IpBannedThrough(s, ipHash, t) && r.now <= t
    ensures IpBannedThrough(Check(s, bypass, r).0, ipHash, t)
    ensures r.ipHash == ipHash && r.key !in bypass ==> Check(s, bypass, r).1.Blocked?
  {
  }

  lemma {:induction false} IpBanPersists(bypass: set<string>, reqs: seq<Request>, i: nat, j: nat, ipHash: string,
                                         t: int)
    requires Ordered(reqs) && i <= j <= |reqs| && (j > 0 ==> reqs[j - 1].now <= t)
    requires IpBannedThrough(After(bypass, reqs[..i]), ipHash, t)
    ensures IpBannedThrough(After(bypass, reqs[..j]), ipHash, t)
    decreases j
  {
    if i == j {
    } else {
      assert j >= 2 ==> reqs[j - 2].now <= reqs[j - 1].now;
      IpBanPersists(bypass, reqs, i, j - 1, ipHash, t);
      IpBanStep(After(bypass, reqs[..j - 1]), bypass, reqs[j - 1], ipHash, t);
      AfterStep(bypass, reqs, j - 1);
    }
  }

  lemma FifthBansAddress(s: Store, bypass: set<string>, r: Request)
    requires Count(s, r.key) == 4 && Count(Check(s, bypass, r).0, r.key) == 5
    ensures IpBannedThrough(Check(s, bypass, r).0, r.ipHash, r.now + 86400 - 1)
  {
  }

  /** From the fifth violation of a key on, every request from its address is refused for 24 hours. */
  lemma AddressBanLasts(bypass: set<string>, reqs: seq<Request>, i: nat, j: nat)
    requires Ordered(reqs) && i < j < |reqs| && reqs[j].ipHash == reqs[i].ipHash && reqs[j].key !in bypass
    requires Count(After(bypass, reqs[..i]), reqs[i].key) == 4
    requires Count(After(bypass, reqs[..i + 1]), reqs[i].key) == 5
    requires reqs[j].now < reqs[i].now + 86400
    ensures VerdictAt(bypass, reqs, j).Blocked?
  {
    var ipHash, t := reqs[i].ipHash, reqs[j].now;
    AfterStep(bypass, reqs, i);
    FifthBansAddress(After(bypass, reqs[..i]), bypass, reqs[i]);
    IpBanPersists(bypass, reqs, i + 1, j, ipHash, t);
    IpBanStep(After(bypass, reqs[..j]), bypass, reqs[j], ipHash, t);
  }

  /** Request `i` comes from the address and is the fifth violation of its key. */
  ghost predicate Fifth(bypass: set<string>, reqs: seq<Request>, i: nat, ipHash: string) {
    && i < |reqs| && reqs[i].ipHash == ipHash
    && Count(After(bypass, reqs[..i]), reqs[i].key) == 4
    && Count(After(bypass, reqs[..i + 1]), reqs[i].key) == 5
  }

  lemma GateBansNobody(s: Store, bypass: set<string>, r: Request, ipHash: string)
    ensures Gate(s, bypass, r).0.violations == s.violations
    ensures ipHash in Gate(s, bypass, r).0.ipBans ==>
              ipHash in s.ipBans && Gate(s, bypass, r).0.ipBans[ipHash] == s.ipBans[ipHash]
  {
  }

  lemma FiveNeverPass(s: Store, bypass: set<string>, r: Request)
    requires OnLadder(s, r.key, r.now) && Gate(s, bypass, r).1.None?
    ensures Count(s, r.key) <= 4
  {
  }

  lemma ChargeBansAtFive(s: Store, r: Request, ipHash: string)
    requires Count(s, r.key) <= 4 && ipHash in Charge(s, r).0.ipBans
    ensures var s' := Charge(s, r).0;
            || (ipHash in s.ipBans && s'.ipBans[ipHash] == s.ipBans[ipHash])
            || (&& r.ipHash == ipHash && Count(s, r.key) == 4 && Count(s', r.key) == 5
                && s'.ipBans[ipHash] == r.now + 86400)
  {
  }

  lemma OnlyFifthBans(s: Store, bypass: set<string>, r: Request, ipHash: string)
    requires OnLadder(s, r.key, r.now) && ipHash in Check(s, bypass, r).0.ipBans
    ensures var s' := Check(s, bypass, r).0;
            || (ipHash in s.ipBans && s'.ipBans[ipHash] == s.ipBans[ipHash])
            || (&& r.ipHash == ipHash && Count(s, r.key) == 4 && Count(s', r.key) == 5
                && s'.ipBans[ipHash] == r.now + 86400)
  {
    GateBansNobody(s, bypass, r, ipHash);
    if Gate(s, bypass, r).1.None? {
      FiveNeverPass(s, bypass, r);
      ChargeBansAtFive(Gate(s, bypass, r).0, r, ipHash);
    }
  }

  /** A stored ban of an address ends a day after some fifth violation. */
  lemma {:induction false} AddressBanHasCause(bypass: set<string>, reqs: seq<Request>, j: nat, ipHash: string)
    returns (i: nat)
    requires Ordered(reqs) && j <= |reqs| && ipHash in After(bypass, reqs[..j]).ipBans
    ensures i < j && Fifth(bypass, reqs, i, ipHash)
    ensures After(bypass, reqs[..j]).ipBans[ipHash] == reqs[i].now + 86400
    decreases j
  {
    i := 0;
    assert reqs[..0] == [];
    if j > 0 {
      var last := j - 1;
      AfterStep(bypass, reqs, last);
      OnLadderBefore(bypass, reqs, last, reqs[last].key);
      OnlyFifthBans(After(bypass, reqs[..last]), bypass, reqs[last], ipHash);
      var s, s' := After(bypass, reqs[..last]), After(bypass, reqs[..j]);
      if ipHash in s.ipBans && s'.ipBans[ipHash] == s.ipBans[ipHash] {
        i := AddressBanHasCause(bypass, reqs, last, ipHash);
      } else {
        i := last;
      }
    }
  }

  /** An address is banned exactly while a fifth violation from it is less than a day old. */
  lemma AddressBannedIff(bypass: set<string>, reqs: seq<Request>, j: nat, ipHash: string)
    requires Ordered(reqs) && j < |reqs|
    ensures IpBanned(After(bypass, reqs[..j]), ipHash, reqs[j].now) <==>
            exists i :: 0 <= i < j && Fifth(bypass, reqs, i, ipHash) && reqs[j].now < reqs[i].now + 86400
  {
    if IpBanned(After(bypass, reqs[..j]), ipHash, reqs[j].now) {
      var i := AddressBanHasCause(bypass, reqs, j, ipHash);
    }
    forall i | 0 <= i < j && Fifth(bypass, reqs, i, ipHash) && reqs[j].now < reqs[i].now + 86400
      ensures IpBanned(After(bypass, reqs[..j]), ipHash, reqs[j].now)
    {
      AfterStep(bypass, reqs, i);
      FifthBansAddress(After(bypass, reqs[..i]), bypass, reqs[i]);
      IpBanPersists(bypass, reqs, i + 1, j, ipHash, reqs[j].now);
    }
  }

  // ----- Admission when the cache forgets -----

  lemma LostGrows(calls: seq<C.Call>, more: seq<C.Call>, wk: C.WindowKey)
    requires |more| <= 1
    ensures CountLoss.Lost(C.CACHE_SIZE, calls, wk) <= CountLoss.Lost(C.CACHE_SIZE, calls + more, wk)
  {
    if more == [] {
      assert calls + more == calls;
    } else {
      assert (calls + more)[..|calls|] == calls;
    }
  }

  /** An allowed request is within the limit once the forgotten calls are taken off. */
  lemma AllowedWithin(bypass: set<string>, reqs: seq<Request>, n: nat)
    requires n == |reqs| - 1 && reqs[n].key !in bypass && VerdictAt(bypass, reqs, n).Allowed?
    ensures var c, calls := C.Call(reqs[n].key, reqs[n].now), Calls(bypass, reqs);
            && calls == Calls(bypass, reqs[..n]) + [c]
            && C.TrueCount(calls, C.Counter(c)) <=
               Limit(reqs[n].write) + CountLoss.Lost(C.CACHE_SIZE, calls, C.Counter(c))
  {
    var s, before := After(bypass, reqs[..n]), Calls(bypass, reqs[..n]);
    var c := C.Call(reqs[n].key, reqs[n].now);
    CheckCounts(s, bypass, reqs[n]);
    CountersAreCalls(bypass, reqs[..n]);
    assert (before + [c])[..|before|] == before && (before + [c])[..|before| + 1] == before + [c];
    CountLoss.CountIsTrueLessLost(C.CACHE_SIZE, before + [c], |before|);
  }

  /** Admitted requests are within the limits plus the calls that the cache has forgotten. */
  lemma {:induction false} AdmittedBoundWithLoss(bypass: set<string>, reqs: seq<Request>, wk: C.WindowKey)
    requires wk.key !in bypass
    ensures var calls := Calls(bypass, reqs);
            && Admitted(bypass, reqs, wk, true) <= Admitted(bypass, reqs, wk, false) <= C.TrueCount(calls, wk)
            && Admitted(bypass, reqs, wk, true) <= 10 + CountLoss.Lost(C.CACHE_SIZE, calls, wk)
            && Admitted(bypass, reqs, wk, false) <= 100 + CountLoss.Lost(C.CACHE_SIZE, calls, wk)
    decreases |reqs|
  {
    if reqs == [] {
    } else {
      var n := |reqs| - 1;
      AdmittedBoundWithLoss(bypass, reqs[..n], wk);
      var before, calls := Calls(bypass, reqs[..n]), Calls(bypass, reqs);
      var more := calls[|before|..];
      assert calls == before + more;
      LostGrows(before, more, wk);
      TrueCountGrows(before, more, wk);
      if C.WindowKey(reqs[n].key, C.WindowStart(reqs[n].now)) == wk && VerdictAt(bypass, reqs, n).Allowed? {
        AllowedWithin(bypass, reqs, n);
        C.TrueCountStep(before, C.Call(reqs[n].key, reqs[n].now), wk);
      }
    }
  }
}
