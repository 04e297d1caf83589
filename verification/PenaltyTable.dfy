/**
 The penalties spelled out: what each violation answers, how long the ban that follows
 blocks what, and when it stops, over every ordered run.
 */
module PenaltyTable {
  import opened Wrappers
  import opened RateLimits
  import opened PenaltyLadder
  import PenaltyBounds

  /** Requests per second. */
  function Allowance(write: bool): nat {
    if write then 10 else 100
  }

  /** The answer to the violation that brings a key's count to `count`. */
  function Penalty(count: nat, write: bool): Verdict {
    if count == 1 then Warned(30, 1, Allowance(write), 0)
    else if count == 2 then Blocked(WriteBlock5Min, 300, 2)
    else if count == 3 then Blocked(WriteBlock1Hr, 3600, 3)
    else if count == 4 then Blocked(PermanentWriteBan, 31536000, 4)
    else Blocked(CompleteBlacklist, 31536000, count)
  }

  lemma PenaltyStep(s: Store, bypass: set<string>, r: Request)
    requires Count(Check(s, bypass, r).0, r.key) > Count(s, r.key)
    ensures Count(Check(s, bypass, r).0, r.key) == Count(s, r.key) + 1
    ensures Check(s, bypass, r).1 == Penalty(Count(s, r.key) + 1, r.write)
    ensures Count(s, r.key) >= 1 ==>
              r.key in Check(s, bypass, r).0.bans && Check(s, bypass, r).0.bans[r.key].createdAt == r.now
  {
  }

  /** Every violation gets the penalty of the table. */
  lemma ViolationIsPenalized(bypass: set<string>, reqs: seq<Request>, i: nat)
    requires i < |reqs|
    requires Count(After(bypass, reqs[..i + 1]), reqs[i].key) > Count(After(bypass, reqs[..i]), reqs[i].key)
    ensures VerdictAt(bypass, reqs, i) ==
            Penalty(Count(After(bypass, reqs[..i + 1]), reqs[i].key), reqs[i].write)
  {
    AfterStep(bypass, reqs, i);
    PenaltyStep(After(bypass, reqs[..i]), bypass, reqs[i]);
  }

  // ----- How long a ban blocks what -----

  /** What a ban of the table blocks when it is `age` seconds old. */
  predicate StillBlocks(count: nat, age: int, write: bool) {
    || (count == 2 && write && age < 300)
    || (count == 3 && write && age < 3600)
    || (count == 4 && write)
    || count >= 5
  }

  /** What a request stopped by the ban is told. */
  function Remaining(count: nat, age: int): Verdict {
    if count == 2 then Blocked(WriteBlock5Min, if age < 300 then 300 - age else 0, 2)
    else if count == 3 then Blocked(WriteBlock1Hr, if age < 3600 then 3600 - age else 0, 3)
    else if count == 4 then Blocked(PermanentWriteBan, 31536000, 4)
    else Blocked(CompleteBlacklist, 31536000, count)
  }

  /** The key's last violation was at `t`, and its ban is in the store or over. */
  ghost predicate BannedSince(s: Store, key: string, t: int, now: int) {
    && t <= now && OnLadder(s, key, now) && 2 <= Count(s, key)
    && (key in s.bans ==> s.bans[key].createdAt == t)
    && (key !in s.bans ==> (Count(s, key) == 2 && t + 300 <= now) || (Count(s, key) == 3 && t + 3600 <= now))
  }

  lemma BannedSinceStep(s: Store, bypass: set<string>, r: Request, key: string, t: int, now: int)
    requires BannedSince(s, key, t, now) && now <= r.now
    requires Count(Check(s, bypass, r).0, key) == Count(s, key)
    ensures BannedSince(Check(s, bypass, r).0, key, t, r.now)
  {
    CheckKeepsLadder(s, bypass, r, key, now);
    if r.key != key {
      OtherKeyKeepsBan(s, bypass, r, key);
    } else {
      OwnKeyKeepsBan(s, bypass, r);
    }
  }

  lemma OtherKeyKeepsBan(s: Store, bypass: set<string>, r: Request, key: string)
    requires r.key != key
    ensures key in Check(s, bypass, r).0.bans <==> key in s.bans
    ensures key in s.bans ==> Check(s, bypass, r).0.bans[key] == s.bans[key]
  {
    GateKeepsOthers(s, bypass, r, key);
  }

  lemma GateKeepsOthers(s: Store, bypass: set<string>, r: Request, key: string)
    requires r.key != key
    ensures key in Gate(s, bypass, r).0.bans <==> key in s.bans
    ensures key in s.bans ==> Gate(s, bypass, r).0.bans[key] == s.bans[key]
  {
  }

  lemma OwnKeyKeepsBan(s: Store, bypass: set<string>, r: Request)
    requires Count(Check(s, bypass, r).0, r.key) == Count(s, r.key)
    ensures r.key in Check(s, bypass, r).0.bans ==>
              r.key in s.bans && Check(s, bypass, r).0.bans[r.key] == s.bans[r.key]
    ensures r.key in s.bans && r.key !in Check(s, bypass, r).0.bans ==> Expired(s.bans[r.key], r.now)
  {
  }

  /** Request `i` is a violation of a key that has been warned. */
  ghost predicate Violation(bypass: set<string>, reqs: seq<Request>, i: nat)
    requires i < |reqs|
  {
    var before, after := After(bypass, reqs[..i]), After(bypass, reqs[..i + 1]);
    2 <= Count(after, reqs[i].key) && Count(after, reqs[i].key) > Count(before, reqs[i].key)
  }

  /** The key of request `i` has no violation after it and before request `j`. */
  ghost predicate NoneUntil(bypass: set<string>, reqs: seq<Request>, i: nat, j: nat)
    requires i < j <= |reqs|
  {
    Count(After(bypass, reqs[..j]), reqs[i].key) == Count(After(bypass, reqs[..i + 1]), reqs[i].key)
  }

  lemma JustBanned(s: Store, bypass: set<string>, r: Request)
    requires OnLadder(s, r.key, r.now) && 2 <= Count(Check(s, bypass, r).0, r.key)
    requires Count(Check(s, bypass, r).0, r.key) > Count(s, r.key)
    ensures BannedSince(Check(s, bypass, r).0, r.key, r.now, r.now)
  {
    PenaltyStep(s, bypass, r);
    CheckKeepsLadder(s, bypass, r, r.key, r.now);
  }

  lemma {:induction false} BannedSinceRun(bypass: set<string>, reqs: seq<Request>, i: nat, j: nat)
    requires Ordered(reqs) && i < j < |reqs|
    requires Violation(bypass, reqs, i) && NoneUntil(bypass, reqs, i, j)
    ensures BannedSince(After(bypass, reqs[..j]), reqs[i].key, reqs[i].now, reqs[j - 1].now)
    decreases j
  {
    if j == i + 1 {
      BannedSinceStart(bypass, reqs, i);
    } else {
      NoneUntilBefore(bypass, reqs, i, j);
      BannedSinceRun(bypass, reqs, i, j - 1);
      BannedSinceNext(bypass, reqs, i, j);
    }
  }

  lemma BannedSinceStart(bypass: set<string>, reqs: seq<Request>, i: nat)
    requires Ordered(reqs) && i < |reqs| && Violation(bypass, reqs, i)
    ensures BannedSince(After(bypass, reqs[..i + 1]), reqs[i].key, reqs[i].now, reqs[i].now)
  {
    AfterStep(bypass, reqs, i);
    OnLadderBefore(bypass, reqs, i, reqs[i].key);
    JustBanned(After(bypass, reqs[..i]), bypass, reqs[i]);
  }

  lemma BannedSinceNext(bypass: set<string>, reqs: seq<Request>, i: nat, j: nat)
    requires Ordered(reqs) && i + 1 < j <= |reqs|
    requires NoneUntil(bypass, reqs, i, j) && NoneUntil(bypass, reqs, i, j - 1)
    requires BannedSince(After(bypass, reqs[..j - 1]), reqs[i].key, reqs[i].now, reqs[j - 2].now)
    ensures BannedSince(After(bypass, reqs[..j]), reqs[i].key, reqs[i].now, reqs[j - 1].now)
  {
    AfterStep(bypass, reqs, j - 1);
    BannedSinceStep(After(bypass, reqs[..j - 1]), bypass, reqs[j - 1], reqs[i].key, reqs[i].now, reqs[j - 2].now);
  }

  lemma NoneUntilBefore(bypass: set<string>, reqs: seq<Request>, i: nat, j: nat)
    requires Ordered(reqs) && i + 1 < j <= |reqs| && NoneUntil(bypass, reqs, i, j)
    ensures NoneUntil(bypass, reqs, i, j - 1)
  {
    CountMonotone(bypass, reqs, i + 1, j - 1, reqs[i].key);
    CountMonotone(bypass, reqs, j - 1, j, reqs[i].key);
  }

  /** The ban tests: a verdict while the ban blocks, and otherwise on to counting. */
  lemma BannedGate(s: Store, bypass: set<string>, r: Request, t: int, now: int)
    requires BannedSince(s, r.key, t, now) && now <= r.now && r.key !in bypass && !IpBanned(s, r.ipHash, r.now)
    ensures Gate(s, bypass, r).1 ==
            if StillBlocks(Count(s, r.key), r.now - t, r.write) then Some(Remaining(Count(s, r.key), r.now - t))
            else None
  {
  }

  lemma BannedVerdict(s: Store, bypass: set<string>, r: Request, t: int, now: int)
    requires BannedSince(s, r.key, t, now) && now <= r.now && r.key !in bypass && !IpBanned(s, r.ipHash, r.now)
    ensures StillBlocks(Count(s, r.key), r.now - t, r.write) ==>
              Check(s, bypass, r).1 == Remaining(Count(s, r.key), r.now - t)
    ensures !StillBlocks(Count(s, r.key), r.now - t, r.write) ==>
              (Check(s, bypass, r).1.Allowed? <==> PenaltyBounds.CountFor(s, r) <= Allowance(r.write))
  {
    BannedGate(s, bypass, r, t, now);
    GateKeepsCounters(s, bypass, r);
  }

  /**
   After a violation, and until the key's next one, a request is stopped by the ban for exactly
   as long as the table says and told what remains; otherwise the count alone decides.
   */
  lemma BanLastsExactly(bypass: set<string>, reqs: seq<Request>, i: nat, j: nat)
    requires Ordered(reqs) && i < j < |reqs| && reqs[j].key == reqs[i].key && reqs[i].key !in bypass
    requires Violation(bypass, reqs, i) && NoneUntil(bypass, reqs, i, j)
    requires !IpBanned(After(bypass, reqs[..j]), reqs[j].ipHash, reqs[j].now)
    ensures var count, age := Count(After(bypass, reqs[..j]), reqs[j].key), reqs[j].now - reqs[i].now;
            if StillBlocks(count, age, reqs[j].write) then VerdictAt(bypass, reqs, j) == Remaining(count, age)
            else VerdictAt(bypass, reqs, j).Allowed? <==>
                 PenaltyBounds.CountFor(After(bypass, reqs[..j]), reqs[j]) <= Allowance(reqs[j].write)
  {
    BannedSinceRun(bypass, reqs, i, j);
    BannedVerdict(After(bypass, reqs[..j]), bypass, reqs[j], reqs[i].now, reqs[j - 1].now);
  }

  // ----- The other answers -----

  /** Whitelisted keys are never counted or stopped; a banned address is told a day. */
  lemma GateAnswers(bypass: set<string>, reqs: seq<Request>, i: nat)
    requires i < |reqs|
    ensures var s, r := After(bypass, reqs[..i]), reqs[i];
            && (r.key in bypass ==>
                  VerdictAt(bypass, reqs, i) == Allowed(9999, 9999, r.now + 60) && After(bypass, reqs[..i + 1]) == s)
            && (r.key !in bypass && r.ipHash in s.ipBans && r.now < s.ipBans[r.ipHash] ==>
                  VerdictAt(bypass, reqs, i) == Blocked(CompleteBlacklist, 86400, 5))
  {
    AfterStep(bypass, reqs, i);
  }

  /** The ban tests drop what has expired for this key and address and touch nobody else's. */
  lemma GateDropsExpired(s: Store, bypass: set<string>, r: Request)
    requires r.key !in bypass
    ensures var s' := Gate(s, bypass, r).0;
            && (r.ipHash in s'.ipBans <==> r.ipHash in s.ipBans && r.now < s.ipBans[r.ipHash])
            && (r.ipHash !in s'.ipBans && r.key in s'.bans && s'.bans[r.key].expiresAt.Some? ==>
                  r.now < s'.bans[r.key].expiresAt.value)
            && (forall x :: x != r.ipHash ==> (x in s'.ipBans <==> x in s.ipBans))
            && (forall x :: x in s'.ipBans ==> x in s.ipBans && s'.ipBans[x] == s.ipBans[x])
            && s'.violations == s.violations && s'.counters == s.counters
  {
  }

  /** An allowed request is told its limit, what is left of it and when the second is over. */
  lemma AllowedAnswers(bypass: set<string>, reqs: seq<Request>, i: nat)
    requires i < |reqs| && reqs[i].key !in bypass && VerdictAt(bypass, reqs, i).Allowed?
    ensures var r, n := reqs[i], PenaltyBounds.CountFor(After(bypass, reqs[..i]), reqs[i]);
            && n <= Allowance(r.write)
            && VerdictAt(bypass, reqs, i) == Allowed(Allowance(r.write), Allowance(r.write) - n, r.now + 1)
  {
    GateKeepsCounters(After(bypass, reqs[..i]), bypass, reqs[i]);
  }

  // ----- The violation record -----

  function RecordAfter(times: seq<int>): ViolationRecord {
    if times == [] then EMPTY_RECORD else WithViolation(RecordAfter(times[..|times| - 1]), times[|times| - 1])
  }

  /** A record counts all violations and remembers the times of the last five, the latest last. */
  lemma {:induction false} RecordKeepsLastFive(times: seq<int>)
    ensures var r := RecordAfter(times);
            && r.count == |times| && (times != [] ==> r.last == times[|times| - 1])
            && r.timestamps == if |times| <= 5 then times else times[|times| - 5..]
  {
    if times == [] {
    } else {
      RecordKeepsLastFive(times[..|times| - 1]);
    }
  }
}
