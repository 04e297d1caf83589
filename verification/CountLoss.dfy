/**
 Exactly when a request count is right. The cache keeps the most recently used
 counters, a hit is not written back, and what a miss forgets is never found again.
 */
module CountLoss {
  import opened Lru
  import opened RequestCounts

  // ----- What the cache holds -----

  /** The counters in use, the most recently used first. */
  function Recent(calls: seq<Call>): seq<WindowKey> {
    if calls == [] then []
    else
      ToFront(Recent(calls[..|calls| - 1]), Counter(calls[|calls| - 1]))
  }

  function Take(s: seq<WindowKey>, n: nat): seq<WindowKey> {
    if n < |s| then s[..n] else s
  }

  lemma {:induction false} RecentIsDistinct(calls: seq<Call>)
    ensures Distinct(Recent(calls))
  {
    if calls == [] {
    } else {
      var before, wk := Recent(calls[..|calls| - 1]), Counter(calls[|calls| - 1]);
      RecentIsDistinct(calls[..|calls| - 1]);
      if wk in before {
        WithoutSpec(before, wk);
      }
    }
  }

  lemma IndexIs(s: seq<WindowKey>, wk: WindowKey, i: nat)
    requires Distinct(s) && i < |s| && s[i] == wk
    ensures IndexOf(s, wk) == i
  {
  }

  lemma WithoutOf(pre: seq<WindowKey>, x: WindowKey, post: seq<WindowKey>)
    requires Distinct(pre + [x] + post)
    ensures x in pre + [x] + post && Without(pre + [x] + post, x) == pre + post
  {
    var s := pre + [x] + post;
    assert s[|pre|] == x;
    IndexIs(s, x, |pre|);
    assert s[..|pre|] == pre && s[|pre| + 1..] == post;
  }

  /** The elements before and after the counter. */
  lemma Split(s: seq<WindowKey>, x: WindowKey) returns (pre: seq<WindowKey>, post: seq<WindowKey>)
    requires x in s
    ensures s == pre + [x] + post
  {
    var i := IndexOf(s, x);
    pre, post := s[..i], s[i + 1..];
  }

  lemma TakePieces(a: seq<WindowKey>, x: WindowKey, b: seq<WindowKey>, n: nat)
    requires |a| < n
    ensures Take(a + [x] + b, n) == a + [x] + Take(b, n - |a| - 1)
    ensures Take([x] + (a + b), n) == [x] + (a + Take(b, n - |a| - 1))
  {
  }

  lemma DistinctPrefix(s: seq<WindowKey>, n: nat)
    requires Distinct(s)
    ensures Distinct(Take(s, n))
  {
  }

  /** Moving a kept counter to the front commutes with keeping the first `n`. */
  lemma TakeKept(a: seq<WindowKey>, x: WindowKey, b: seq<WindowKey>, n: nat)
    requires Distinct(a + [x] + b) && |a| < n
    ensures var s := a + [x] + b;
            x in s && x in Take(s, n) && Take([x] + Without(s, x), n) == [x] + Without(Take(s, n), x)
  {
    DistinctPrefix(a + [x] + b, n);
    TakePieces(a, x, b, n);
    WithoutOf(a, x, b);
    WithoutOf(a, x, Take(b, n - |a| - 1));
  }

  /** Moving a counter beyond the first `n` to the front pushes the last kept one out. */
  lemma TakeBeyond(a: seq<WindowKey>, x: WindowKey, b: seq<WindowKey>, n: nat)
    requires Distinct(a + [x] + b) && 1 <= n <= |a|
    ensures var s := a + [x] + b;
            x in s && x !in Take(s, n) && Take([x] + Without(s, x), n) == [x] + s[..n - 1]
  {
    var s := a + [x] + b;
    WithoutOf(a, x, b);
    assert s[|a|] == x;
    assert Take(s, n) == a[..n];
    assert ([x] + (a + b))[..n] == [x] + a[..n - 1];
  }

  lemma TakeFront(s: seq<WindowKey>, wk: WindowKey, n: nat)
    requires Distinct(s) && 1 <= n
    ensures wk in Take(s, n) ==> wk in s && Take([wk] + Without(s, wk), n) == [wk] + Without(Take(s, n), wk)
    ensures wk !in Take(s, n) && wk in s ==> |s| > n && Take([wk] + Without(s, wk), n) == [wk] + s[..n - 1]
    ensures wk !in s ==> Take([wk] + s, n) == [wk] + Take(s, n - 1)
  {
    if wk in s {
      var a, b := Split(s, wk);
      if |a| < n {
        TakeKept(a, wk, b, n);
      } else {
        TakeBeyond(a, wk, b, n);
      }
    }
  }

  /** The cache order is the recency order, cut off at the capacity. */
  lemma {:induction false} CacheIsRecent(capacity: nat, calls: seq<Call>)
    requires 1 <= capacity
    ensures Valid(After(capacity, calls).cache) && After(capacity, calls).cache.capacity == capacity
    ensures After(capacity, calls).cache.order == Take(Recent(calls), capacity)
  {
    if calls == [] {
    } else {
      var n := |calls| - 1;
      CacheIsRecent(capacity, calls[..n]);
      RecentIsDistinct(calls[..n]);
      CacheStep(capacity, After(capacity, calls[..n]), Recent(calls[..n]), calls[n]);
    }
  }

  lemma CacheStep(capacity: nat, s: Counters, recent: seq<WindowKey>, c: Call)
    requires 1 <= capacity == s.cache.capacity && Valid(s.cache) && Distinct(recent)
    requires s.cache.order == Take(recent, capacity)
    ensures var s', wk := Increment(s, c.key, c.now).0, Counter(c);
            && Valid(s'.cache) && s'.cache.capacity == capacity
            && s'.cache.order == Take(ToFront(recent, wk), capacity)
  {
    var wk := Counter(c);
    IncrementCounts(s, c);
    TakeFront(recent, wk, capacity);
    if wk !in s.cache.order {
      var kept := if Evicted(s.cache, wk).Some? then s.cache.order[..|s.cache.order| - 1] else s.cache.order;
      assert Increment(s, c.key, c.now).0.cache.order == [wk] + kept;
      assert wk in recent ==> kept == recent[..capacity - 1];
      assert wk !in recent ==> kept == Take(recent, capacity - 1);
    }
  }

  /** The distinct other counters used since the last use of `wk`. */
  ghost function UsedSince(calls: seq<Call>, wk: WindowKey): set<WindowKey> {
    if calls == [] || Counter(calls[|calls| - 1]) == wk then {}
    else UsedSince(calls[..|calls| - 1], wk) + {Counter(calls[|calls| - 1])}
  }

  predicate Used(calls: seq<Call>, wk: WindowKey) {
    calls != [] && (Counter(calls[|calls| - 1]) == wk || Used(calls[..|calls| - 1], wk))
  }

  ghost function Elements(s: seq<WindowKey>): set<WindowKey> {
    set x | x in s
  }

  lemma {:induction false} ElementCount(s: seq<WindowKey>)
    requires Distinct(s)
    ensures |Elements(s)| == |s|
  {
    if s == [] {
    } else {
      var n := |s| - 1;
      ElementCount(s[..n]);
      assert s == s[..n] + [s[n]] && s[n] !in s[..n];
      assert Elements(s) == Elements(s[..n]) + {s[n]};
    }
  }

  lemma MoveFromAhead(x: seq<WindowKey>, c: WindowKey, y: seq<WindowKey>, wk: WindowKey, behind: seq<WindowKey>)
    requires Distinct(x + [c] + y + [wk] + behind)
    ensures c in x + [c] + y + [wk] + behind
    ensures [c] + Without(x + [c] + y + [wk] + behind, c) == ([c] + (x + y)) + [wk] + behind
  {
    var post := y + [wk] + behind;
    assert x + [c] + y + [wk] + behind == x + [c] + post;
    WithoutOf(x, c, post);
    assert [c] + (x + post) == ([c] + (x + y)) + [wk] + behind;
  }

  lemma MoveFromBehind(ahead: seq<WindowKey>, wk: WindowKey, x: seq<WindowKey>, c: WindowKey, y: seq<WindowKey>)
    requires Distinct(ahead + [wk] + (x + [c] + y))
    ensures c in ahead + [wk] + (x + [c] + y)
    ensures [c] + Without(ahead + [wk] + (x + [c] + y), c) == ([c] + ahead) + [wk] + (x + y)
  {
    var pre := ahead + [wk] + x;
    assert ahead + [wk] + (x + [c] + y) == pre + [c] + y;
    WithoutOf(pre, c, y);
    assert [c] + (pre + y) == ([c] + ahead) + [wk] + (x + y);
  }

  lemma ElementsMoved(x: seq<WindowKey>, c: WindowKey, y: seq<WindowKey>)
    ensures Elements([c] + (x + y)) == Elements(x + [c] + y) + {c}
  {
  }

  /** The counter stands in the order behind exactly these others. */
  ghost predicate StandsBehind(s: seq<WindowKey>, ahead: seq<WindowKey>, wk: WindowKey, behind: seq<WindowKey>,
                               others: set<WindowKey>) {
    s == ahead + [wk] + behind && Elements(ahead) == others
  }

  function ToFront(s: seq<WindowKey>, c: WindowKey): seq<WindowKey> {
    [c] + if c in s then Without(s, c) else s
  }

  /** Moving another counter to the front adds it to those ahead. */
  lemma MoveToFront(s: seq<WindowKey>, ahead: seq<WindowKey>, wk: WindowKey, behind: seq<WindowKey>,
                    others: set<WindowKey>, c: WindowKey)
    returns (ahead': seq<WindowKey>, behind': seq<WindowKey>)
    requires Distinct(s) && c != wk && StandsBehind(s, ahead, wk, behind, others)
    ensures StandsBehind(ToFront(s, c), ahead', wk, behind', others + {c})
  {
    if c in ahead {
      var x, y := Split(ahead, c);
      MoveFromAhead(x, c, y, wk, behind);
      ElementsMoved(x, c, y);
      ahead', behind' := [c] + (x + y), behind;
    } else if c in behind {
      var x, y := Split(behind, c);
      MoveFromBehind(ahead, wk, x, c, y);
      ahead', behind' := [c] + ahead, x + y;
    } else {
      ahead', behind' := [c] + ahead, behind;
      assert [c] + (ahead + [wk] + behind) == ahead' + [wk] + behind';
    }
  }

  lemma {:induction false} UnusedIsNotRecent(calls: seq<Call>, wk: WindowKey)
    requires !Used(calls, wk)
    ensures wk !in Recent(calls)
  {
    if calls == [] {
    } else {
      var before, c := Recent(calls[..|calls| - 1]), Counter(calls[|calls| - 1]);
      UnusedIsNotRecent(calls[..|calls| - 1], wk);
      RecentIsDistinct(calls[..|calls| - 1]);
      if c in before {
        WithoutSpec(before, c);
      }
    }
  }

  /** Ahead of a used counter stand exactly those used since. */
  lemma {:induction false} RecentSplit(calls: seq<Call>, wk: WindowKey)
    returns (ahead: seq<WindowKey>, behind: seq<WindowKey>)
    requires Used(calls, wk)
    ensures StandsBehind(Recent(calls), ahead, wk, behind, UsedSince(calls, wk))
    decreases |calls|
  {
    var before, c := calls[..|calls| - 1], Counter(calls[|calls| - 1]);
    if c == wk {
      ahead, behind := [], ToFront(Recent(before), c)[1..];
    } else {
      var ahead0, behind0 := RecentSplit(before, wk);
      RecentIsDistinct(before);
      ahead, behind := MoveToFront(Recent(before), ahead0, wk, behind0, UsedSince(before, wk), c);
    }
  }

  /** The cache holds the counter when the run is over. */
  predicate Cached(capacity: nat, calls: seq<Call>, wk: WindowKey) {
    wk in After(capacity, calls).cache.order
  }

  /** A counter is cached exactly when it was used and fewer others than the capacity were used since. */
  lemma CachedIff(capacity: nat, calls: seq<Call>, wk: WindowKey)
    requires 1 <= capacity
    ensures Cached(capacity, calls, wk) <==> Used(calls, wk) && |UsedSince(calls, wk)| < capacity
  {
    CacheIsRecent(capacity, calls);
    RecentIsDistinct(calls);
    if Used(calls, wk) {
      var ahead, behind := RecentSplit(calls, wk);
      DistinctPieces(ahead, wk, behind);
      ElementCount(ahead);
      TakeHas(ahead, wk, behind, capacity);
    } else {
      UnusedIsNotRecent(calls, wk);
    }
  }

  lemma DistinctPieces(ahead: seq<WindowKey>, wk: WindowKey, behind: seq<WindowKey>)
    requires Distinct(ahead + [wk] + behind)
    ensures Distinct(ahead) && wk !in ahead
  {
    var s := ahead + [wk] + behind;
    assert s[|ahead|] == wk;
    assert forall i :: 0 <= i < |ahead| ==> s[i] == ahead[i];
  }

  lemma TakeHas(ahead: seq<WindowKey>, wk: WindowKey, behind: seq<WindowKey>, n: nat)
    requires wk !in ahead
    ensures wk in Take(ahead + [wk] + behind, n) <==> |ahead| < n
  {
    var s := ahead + [wk] + behind;
    assert s[|ahead|] == wk;
    if |ahead| < n {
      assert Take(s, n)[|ahead|] == wk;
    } else {
      assert Take(s, n) == ahead[..n];
    }
  }

  // ----- What a miss forgets -----

  /** Calls of the counter answered from the cache since its last miss. */
  function Streak(capacity: nat, calls: seq<Call>, wk: WindowKey): nat {
    if calls == [] then 0
    else
      var before := calls[..|calls| - 1];
      if Counter(calls[|calls| - 1]) != wk then Streak(capacity, before, wk)
      else if Cached(capacity, before, wk) then Streak(capacity, before, wk) + 1
      else 0
  }

  /** Calls of the counter that misses have forgotten. */
  function Lost(capacity: nat, calls: seq<Call>, wk: WindowKey): nat {
    if calls == [] then 0
    else
      var before := calls[..|calls| - 1];
      Lost(capacity, before, wk) +
      if Counter(calls[|calls| - 1]) == wk && !Cached(capacity, before, wk) then Streak(capacity, before, wk) else 0
  }

  /** Cached and stored value of a counter with this history. */
  ghost predicate Accounts(s: Counters, wk: WindowKey, count: nat, lost: nat, streak: nat) {
    && Stored(s, wk) + streak + lost == count
    && (wk in s.cache.items ==> s.cache.items[wk] + lost == count)
  }

  lemma AccountsStep(s: Counters, c: Call, wk: WindowKey, count: nat, lost: nat, streak: nat)
    requires Valid(s.cache) && Accounts(s, wk, count, lost, streak)
    ensures var (s', n) := Increment(s, c.key, c.now);
            if Counter(c) != wk then Accounts(s', wk, count, lost, streak)
            else if wk in s.cache.order then
              Accounts(s', wk, count + 1, lost, streak + 1) && n + lost == count + 1
            else Accounts(s', wk, count + 1, lost + streak, 0) && n + lost + streak == count + 1
  {
    IncrementCounts(s, c);
  }

  lemma {:induction false} RunAccounts(capacity: nat, calls: seq<Call>, wk: WindowKey)
    requires 1 <= capacity
    ensures Accounts(After(capacity, calls), wk, TrueCount(calls, wk), Lost(capacity, calls, wk),
                     Streak(capacity, calls, wk))
  {
    if calls == [] {
    } else {
      var n := |calls| - 1;
      RunAccounts(capacity, calls[..n], wk);
      CacheIsRecent(capacity, calls[..n]);
      AccountsStep(After(capacity, calls[..n]), calls[n], wk, TrueCount(calls[..n], wk),
                   Lost(capacity, calls[..n], wk), Streak(capacity, calls[..n], wk));
    }
  }

  /** Every returned count is the true one less what misses have forgotten. */
  lemma CountIsTrueLessLost(capacity: nat, calls: seq<Call>, i: nat)
    requires 1 <= capacity && i < |calls|
    ensures var wk := Counter(calls[i]);
            Returned(capacity, calls, i) + Lost(capacity, calls[..i + 1], wk) == TrueCount(calls[..i + 1], wk)
  {
    var wk, before := Counter(calls[i]), calls[..i];
    assert calls[..i + 1][..i] == before;
    RunAccounts(capacity, before, wk);
    CacheIsRecent(capacity, before);
    AccountsStep(After(capacity, before), calls[i], wk, TrueCount(before, wk), Lost(capacity, before, wk),
                 Streak(capacity, before, wk));
  }

  /** Call `j` misses the cache although an earlier call of its counter was answered from it since the last miss. */
  ghost predicate Forgets(capacity: nat, calls: seq<Call>, j: nat)
    requires j < |calls|
  {
    !Cached(capacity, calls[..j], Counter(calls[j])) && Streak(capacity, calls[..j], Counter(calls[j])) > 0
  }

  lemma {:induction false} NothingLostIff(capacity: nat, calls: seq<Call>, wk: WindowKey)
    ensures Lost(capacity, calls, wk) == 0 <==>
            forall j :: 0 <= j < |calls| && Counter(calls[j]) == wk ==> !Forgets(capacity, calls, j)
  {
    if calls == [] {
    } else {
      var n := |calls| - 1;
      NothingLostIff(capacity, calls[..n], wk);
      assert forall j :: 0 <= j < n ==> calls[..n][j] == calls[j] && calls[..n][..j] == calls[..j];
      assert forall j :: 0 <= j < n ==> (Forgets(capacity, calls[..n], j) <==> Forgets(capacity, calls, j));
    }
  }

  /** In any run a count is exact if and only if no call of its counter so far missed the cache after a hit. */
  lemma CountExactIff(capacity: nat, calls: seq<Call>, i: nat)
    requires 1 <= capacity && i < |calls|
    ensures var soFar := calls[..i + 1];
            Returned(capacity, calls, i) == TrueCount(soFar, Counter(calls[i])) <==>
            forall j :: 0 <= j < |soFar| && Counter(soFar[j]) == Counter(calls[i]) ==> !Forgets(capacity, soFar, j)
  {
    CountIsTrueLessLost(capacity, calls, i);
    NothingLostIff(capacity, calls[..i + 1], Counter(calls[i]));
  }
}
