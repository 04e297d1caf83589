/**
 Request counting per API key and window: a bounded LRU cache in front of a
 database, where a cache hit is not written back.
 */
module RequestCounts {
  import opened Lru
  import opened Wrappers
  import Text

  const WINDOW_SECONDS := 1
  const CACHE_SIZE := 10000

  /** One counter: an API key hash in one window. */
  datatype WindowKey = WindowKey(key: string, window: int)

  /** The rendered cache key; the database key prepends "ratelimit:". */
  function Render(wk: WindowKey): string {
    wk.key + ":" + Text.SignedDecimal(wk.window)
  }

  /** Distinct counters never share a rendered key, even when a key holds colons. */
  lemma RenderInjective(a: WindowKey, b: WindowKey)
    ensures Render(a) == Render(b) ==> a == b
    ensures "ratelimit:" + Render(a) == "ratelimit:" + Render(b) ==> a == b
  {
    if "ratelimit:" + Render(a) == "ratelimit:" + Render(b) {
      assert Render(a) == ("ratelimit:" + Render(a))[10..] == Render(b);
    }
    if Render(a) == Render(b) {
      Text.SuffixedKeyInjective(a.key, a.window, b.key, b.window);
    }
  }

  /** The rendered key by position: the key, a colon, and the window as digits. */
  lemma RenderByPosition(wk: WindowKey)
    requires wk.window >= 0
    ensures var text, n := Render(wk), |wk.key|;
            && n < |text| && text[..n] == wk.key && text[n] == ':'
            && Text.AllDigits(text[n + 1..]) && Text.Number(text[n + 1..]) == wk.window
  {
    assert Render(wk)[|wk.key| + 1..] == Text.Decimal(wk.window);
    Text.NumberOfDecimal(wk.window);
  }

  datatype Counters = Counters(cache: Cache<WindowKey, nat>, db: map<WindowKey, nat>)

  function WindowStart(now: int): int {
    now - now % WINDOW_SECONDS
  }

  function Stored(s: Counters, wk: WindowKey): nat {
    if wk in s.db then s.db[wk] else 0
  }

  /** One call: the new counters and the count it returns. */
  function Increment(s: Counters, key: string, now: int): (Counters, nat) {
    var wk := WindowKey(key, WindowStart(now));
    if wk in s.cache.order && wk in s.cache.items then
      var n := s.cache.items[wk] + 1;
      (s.(cache := Touch(s.cache, wk).(items := s.cache.items[wk := n])), n)
    else
      var n := Stored(s, wk) + 1;
      (Counters(Put(s.cache, wk, n), s.db[wk := n]), n)
  }

  // ----- Runs -----

  datatype Call = Call(key: string, now: int)

  function Counter(c: Call): WindowKey {
    WindowKey(c.key, WindowStart(c.now))
  }

  /** Clocks never go backwards. */
  ghost predicate Ordered(calls: seq<Call>) {
    forall i, j :: 0 <= i < j < |calls| ==> calls[i].now <= calls[j].now
  }

  function After(capacity: nat, calls: seq<Call>): Counters {
    if calls == [] then Counters(Empty(capacity), map[])
    else
      var last := calls[|calls| - 1];
      Increment(After(capacity, calls[..|calls| - 1]), last.key, last.now).0
  }

  /** The count that call `i` of the run returns. */
  function Returned(capacity: nat, calls: seq<Call>, i: nat): nat
    requires i < |calls|
  {
    Increment(After(capacity, calls[..i]), calls[i].key, calls[i].now).1
  }

  /** The true number of calls for one counter. */
  function TrueCount(calls: seq<Call>, wk: WindowKey): nat {
    if calls == [] then 0
    else
      TrueCount(calls[..|calls| - 1], wk) + if Counter(calls[|calls| - 1]) == wk then 1 else 0
  }

  /** Calls share a counter exactly when key and second are the same. */
  lemma CounterIsSecond(c: Call, d: Call)
    ensures Counter(c) == Counter(d) <==> c == d
  {
  }

  /** The calls of one key in one second. */
  ghost function CallsAt(calls: seq<Call>, key: string, second: int): set<nat> {
    set i: nat | i < |calls| && calls[i] == Call(key, second)
  }

  /** The count of a counter is the number of calls its key made in its second. */
  lemma {:induction false} TrueCountIsCalls(calls: seq<Call>, key: string, second: int)
    ensures TrueCount(calls, Counter(Call(key, second))) == |CallsAt(calls, key, second)|
  {
    if calls != [] {
      var n: nat := |calls| - 1;
      TrueCountIsCalls(calls[..n], key, second);
      var now, before := CallsAt(calls, key, second), CallsAt(calls[..n], key, second);
      assert forall i: nat :: i < n ==> calls[..n][i] == calls[i];
      assert now == before + if calls[n] == Call(key, second) then {n} else {};
    }
  }

  /** The distinct keys that called in one window. */
  ghost function Active(calls: seq<Call>, window: int): set<string> {
    set i | 0 <= i < |calls| && WindowStart(calls[i].now) == window :: calls[i].key
  }

  // ----- The invariant of every run -----

  /** No stored count exceeds the truth. */
  ghost predicate Sound(s: Counters, calls: seq<Call>) {
    && Valid(s.cache)
    && (forall wk :: wk in s.cache.items ==> 1 <= s.cache.items[wk] <= TrueCount(calls, wk))
    && (forall wk :: wk in s.db ==> 1 <= s.db[wk] <= TrueCount(calls, wk))
  }

  /** The recency order is also the window order, newest window first. */
  ghost predicate WindowsDescend(s: Counters) {
    Descending(s.cache.order)
  }

  ghost predicate NoLaterWindow(s: Counters, window: int) {
    forall wk :: wk in s.cache.order ==> wk.window <= window
  }

  /** Every key active in the window is cached with its true count. */
  ghost predicate Exact(s: Counters, calls: seq<Call>, window: int) {
    forall key :: key in Active(calls, window) ==>
                    var wk := WindowKey(key, window);
                    wk in s.cache.items && s.cache.items[wk] == TrueCount(calls, wk)
  }

  /** What one call does to the stored counts, leaving its recency bookkeeping aside. */
  ghost predicate Counted(s: Counters, wk: WindowKey, s': Counters, n: nat) {
    && Valid(s'.cache) && s'.cache.capacity == s.cache.capacity
    && n == (if wk in s.cache.items then s.cache.items[wk] else Stored(s, wk)) + 1
    && wk in s'.cache.items && s'.cache.items[wk] == n
    && (forall x :: x in s'.cache.items && x != wk ==>
                      x in s.cache.items && s'.cache.items[x] == s.cache.items[x])
    && (forall x :: x in s'.db && x != wk ==> x in s.db && s'.db[x] == s.db[x])
    && (wk in s'.db ==> s'.db[wk] == n || (wk in s.db && s'.db[wk] == s.db[wk]))
  }

  /** A call keeps every other counter except one the cache pushes out. */
  ghost predicate Keeps(s: Counters, wk: WindowKey, s': Counters) {
    forall x :: x in s.cache.items && x != wk &&
                (wk in s.cache.items || Evicted(s.cache, wk) != Some(x)) ==>
                  x in s'.cache.items && s'.cache.items[x] == s.cache.items[x]
  }

  lemma IncrementCounts(s: Counters, c: Call)
    requires Valid(s.cache)
    ensures Counted(s, Counter(c), Increment(s, c.key, c.now).0, Increment(s, c.key, c.now).1)
    ensures Keeps(s, Counter(c), Increment(s, c.key, c.now).0)
  {
    var wk := Counter(c);
    if wk in s.cache.items {
      TouchSpec(s.cache, wk);
    } else {
      PutSpec(s.cache, wk, Stored(s, wk) + 1);
    }
  }

  lemma TrueCountStep(calls: seq<Call>, c: Call, wk: WindowKey)
    ensures TrueCount(calls + [c], wk) == TrueCount(calls, wk) + if Counter(c) == wk then 1 else 0
  {
    assert (calls + [c])[..|calls|] == calls;
  }

  lemma SoundStep(s: Counters, calls: seq<Call>, c: Call, s': Counters, n: nat)
    requires Sound(s, calls) && Counted(s, Counter(c), s', n)
    ensures Sound(s', calls + [c])
    ensures n <= TrueCount(calls + [c], Counter(c))
  {
    forall wk {
      TrueCountStep(calls, c, wk);
    }
  }

  ghost predicate Descending(order: seq<WindowKey>) {
    forall i, j :: 0 <= i < j < |order| ==> order[i].window >= order[j].window
  }

  lemma WithoutDescends(order: seq<WindowKey>, wk: WindowKey)
    requires wk in order && Descending(order)
    ensures Descending(Without(order, wk)) && forall x :: x in Without(order, wk) ==> x in order
  {
    var k, r := IndexOf(order, wk), Without(order, wk);
    forall i, j | 0 <= i < j < |r|
      ensures r[i].window >= r[j].window
    {
      assert r[i] == order[if i < k then i else i + 1] && r[j] == order[if j < k then j else j + 1];
    }
  }

  lemma FrontDescends(order: seq<WindowKey>, wk: WindowKey)
    requires Descending(order) && forall x :: x in order ==> x.window <= wk.window
    ensures Descending([wk] + order) && forall x :: x in [wk] + order ==> x.window <= wk.window
  {
  }

  lemma WindowsStep(s: Counters, c: Call)
    requires Valid(s.cache) && WindowsDescend(s) && NoLaterWindow(s, WindowStart(c.now))
    ensures WindowsDescend(Increment(s, c.key, c.now).0)
    ensures NoLaterWindow(Increment(s, c.key, c.now).0, WindowStart(c.now))
  {
    var wk, order := Counter(c), s.cache.order;
    assert Descending(order);
    if wk in order {
      WithoutDescends(order, wk);
      FrontDescends(Without(order, wk), wk);
    } else {
      var kept := if Evicted(s.cache, wk).Some? then order[..|order| - 1] else order;
      FrontDescends(kept, wk);
      assert Increment(s, c.key, c.now).0.cache.order == [wk] + kept;
    }
  }

  lemma {:induction false} TrueCountOfInactive(calls: seq<Call>, wk: WindowKey)
    requires wk.key !in Active(calls, wk.window)
    ensures TrueCount(calls, wk) == 0
  {
    if calls == [] {
    } else {
      var n := |calls| - 1;
      assert Active(calls[..n], wk.window) <= Active(calls, wk.window);
      TrueCountOfInactive(calls[..n], wk);
      assert WindowStart(calls[n].now) == wk.window ==> calls[n].key in Active(calls, wk.window);
    }
  }

  /** Distinct counters of one window are no more than the window's keys. */
  lemma {:induction false} DistinctKeys(order: seq<WindowKey>, window: int, keys: set<string>)
    requires Distinct(order)
    requires forall i :: 0 <= i < |order| ==> order[i].window == window && order[i].key in keys
    ensures |order| <= |keys|
  {
    if order == [] {
    } else {
      var n := |order| - 1;
      DistinctKeys(order[..n], window, keys - {order[n].key});
    }
  }

  lemma ActiveStep(calls: seq<Call>, c: Call)
    ensures Active(calls + [c], WindowStart(c.now)) == Active(calls, WindowStart(c.now)) + {c.key}
  {
    var w := WindowStart(c.now);
    var more := calls + [c];
    assert more[|calls|] == c;
    forall key | key in Active(calls, w)
      ensures key in Active(more, w)
    {
      var i :| 0 <= i < |calls| && WindowStart(calls[i].now) == w && calls[i].key == key;
      assert more[i] == calls[i];
    }
  }

  /** A first call in the window evicts no counter of that window while the keys fit. */
  lemma EvictsOnlyOlderWindows(s: Counters, calls: seq<Call>, c: Call)
    requires Sound(s, calls) && WindowsDescend(s) && NoLaterWindow(s, WindowStart(c.now))
    requires Counter(c) !in s.cache.order
    requires |Active(calls, WindowStart(c.now)) + {c.key}| <= s.cache.capacity
    requires c.key !in Active(calls, WindowStart(c.now))
    requires Evicted(s.cache, Counter(c)).Some?
    ensures Evicted(s.cache, Counter(c)).value.window < WindowStart(c.now)
  {
    var w := WindowStart(c.now);
    var order := s.cache.order;
    if order[|order| - 1].window == w {
      forall i | 0 <= i < |order|
        ensures order[i].window == w && order[i].key in Active(calls, w)
      {
        assert order[i] in order;
        assert order[i].window >= order[|order| - 1].window;
        if order[i].key !in Active(calls, w) {
          TrueCountOfInactive(calls, order[i]);
        }
      }
      DistinctKeys(order, w, Active(calls, w));
    }
    assert order[|order| - 1] in order;
  }

  /** The counter of another active key survives the call. */
  lemma OtherStaysExact(s: Counters, calls: seq<Call>, c: Call, s': Counters, key: string)
    requires Sound(s, calls) && WindowsDescend(s) && NoLaterWindow(s, WindowStart(c.now))
    requires Keeps(s, Counter(c), s') && Exact(s, calls, WindowStart(c.now))
    requires |Active(calls + [c], WindowStart(c.now))| <= s.cache.capacity
    requires key in Active(calls, WindowStart(c.now)) && key != c.key
    ensures var x := WindowKey(key, WindowStart(c.now));
            x in s'.cache.items && s'.cache.items[x] == TrueCount(calls + [c], x)
  {
    var x := WindowKey(key, WindowStart(c.now));
    TrueCountStep(calls, c, x);
    ActiveStep(calls, c);
    if Counter(c) !in s.cache.items && Evicted(s.cache, Counter(c)) == Some(x) {
      EvictsOnlyOlderWindows(s, calls, c);
    }
  }

  lemma ExactStep(s: Counters, calls: seq<Call>, c: Call, s': Counters, n: nat)
    requires Sound(s, calls) && WindowsDescend(s) && NoLaterWindow(s, WindowStart(c.now))
    requires Counted(s, Counter(c), s', n) && Keeps(s, Counter(c), s')
    requires Exact(s, calls, WindowStart(c.now))
    requires |Active(calls + [c], WindowStart(c.now))| <= s.cache.capacity
    ensures Exact(s', calls + [c], WindowStart(c.now))
    ensures n == TrueCount(calls + [c], Counter(c))
  {
    var w := WindowStart(c.now);
    var wk := Counter(c);
    ActiveStep(calls, c);
    TrueCountStep(calls, c, wk);
    if c.key !in Active(calls, w) {
      TrueCountOfInactive(calls, wk);
    }
    forall key | key in Active(calls, w) && key != c.key
      ensures var x := WindowKey(key, w);
              x in s'.cache.items && s'.cache.items[x] == TrueCount(calls + [c], x)
    {
      OtherStaysExact(s, calls, c, s', key);
    }
  }

  /** What holds after every ordered run whose last call was no later than `now`. */
  ghost predicate Invariant(s: Counters, calls: seq<Call>, now: int) {
    && Sound(s, calls)
    && WindowsDescend(s)
    && NoLaterWindow(s, WindowStart(now))
    && (|Active(calls, WindowStart(now))| <= s.cache.capacity ==> Exact(s, calls, WindowStart(now)))
  }

  lemma InvariantStep(s: Counters, calls: seq<Call>, c: Call)
    requires Invariant(s, calls, c.now)
    ensures Invariant(Increment(s, c.key, c.now).0, calls + [c], c.now)
    ensures Increment(s, c.key, c.now).0.cache.capacity == s.cache.capacity
    ensures 1 <= Increment(s, c.key, c.now).1 <= TrueCount(calls + [c], Counter(c))
    ensures |Active(calls + [c], WindowStart(c.now))| <= s.cache.capacity ==>
              Increment(s, c.key, c.now).1 == TrueCount(calls + [c], Counter(c))
  {
    var (s', n) := Increment(s, c.key, c.now);
    IncrementCounts(s, c);
    SoundStep(s, calls, c, s', n);
    WindowsStep(s, c);
    if |Active(calls + [c], WindowStart(c.now))| <= s.cache.capacity {
      ActiveStep(calls, c);
      SubsetSize(Active(calls, WindowStart(c.now)), Active(calls + [c], WindowStart(c.now)));
      ExactStep(s, calls, c, s', n);
    }
  }

  lemma InvariantLater(s: Counters, calls: seq<Call>, now: int, later: int)
    requires Invariant(s, calls, now) && now <= later
    requires forall i :: 0 <= i < |calls| ==> calls[i].now <= now
    ensures Invariant(s, calls, later)
  {
    if WindowStart(now) < WindowStart(later) {
      assert Active(calls, WindowStart(later)) == {};
    }
  }

  /** One more call, seen from any later time. */
  lemma InvariantStepLater(s: Counters, calls: seq<Call>, c: Call, now: int)
    requires Invariant(s, calls, c.now) && c.now <= now
    requires forall i :: 0 <= i < |calls| ==> calls[i].now <= c.now
    ensures Invariant(Increment(s, c.key, c.now).0, calls + [c], now)
    ensures Increment(s, c.key, c.now).0.cache.capacity == s.cache.capacity
  {
    InvariantStep(s, calls, c);
    InvariantLater(Increment(s, c.key, c.now).0, calls + [c], c.now, now);
  }

  lemma {:induction false} RunInvariant(capacity: nat, calls: seq<Call>, now: int)
    requires 1 <= capacity && Ordered(calls)
    requires forall i :: 0 <= i < |calls| ==> calls[i].now <= now
    ensures After(capacity, calls).cache.capacity == capacity
    ensures Invariant(After(capacity, calls), calls, now)
    decreases |calls|
  {
    if calls == [] {
    } else {
      var n := |calls| - 1;
      OrderedPrefix(calls, n);
      RunInvariant(capacity, calls[..n], calls[n].now);
      assert calls[..n + 1] == calls;
      InvariantStepLater(After(capacity, calls[..n]), calls[..n], calls[n], now);
    }
  }

  lemma SubsetSize<T>(a: set<T>, b: set<T>)
    requires a <= b
    ensures |a| <= |b|
  {
    assert b == a + (b - a);
  }

  lemma OrderedPrefix(calls: seq<Call>, i: nat)
    requires Ordered(calls) && i < |calls|
    ensures Ordered(calls[..i])
    ensures forall j :: 0 <= j < i ==> calls[..i][j].now <= calls[i].now
    ensures calls[..i + 1] == calls[..i] + [calls[i]]
  {
  }

  // ----- Main results -----

  /** No call is ever told more than the true number of calls in its window. */
  lemma NeverOvercounts(capacity: nat, calls: seq<Call>, i: nat)
    requires 1 <= capacity && Ordered(calls) && i < |calls|
    ensures 1 <= Returned(capacity, calls, i) <= TrueCount(calls[..i + 1], Counter(calls[i]))
  {
    OrderedPrefix(calls, i);
    RunInvariant(capacity, calls[..i], calls[i].now);
    InvariantStep(After(capacity, calls[..i]), calls[..i], calls[i]);
  }

  /** The count is exact while the window's active keys fit in the cache. */
  lemma CountsExactly(capacity: nat, calls: seq<Call>, i: nat)
    requires 1 <= capacity && Ordered(calls) && i < |calls|
    requires |Active(calls[..i + 1], WindowStart(calls[i].now))| <= capacity
    ensures Returned(capacity, calls, i) == TrueCount(calls[..i + 1], Counter(calls[i]))
  {
    OrderedPrefix(calls, i);
    RunInvariant(capacity, calls[..i], calls[i].now);
    InvariantStep(After(capacity, calls[..i]), calls[..i], calls[i]);
  }

  // ----- The bound on active keys is tight -----

  function Filler(i: nat): string {
    if i == 0 then "" else "x" + Filler(i - 1)
  }

  /** Two calls for one key, then one call each for `n` other keys, all at one time. */
  function Crowd(n: nat, now: int): seq<Call> {
    if n == 0 then [Call("", now), Call("", now)] else Crowd(n - 1, now) + [Call(Filler(n), now)]
  }

  lemma {:induction false} FillerLength(i: nat)
    ensures |Filler(i)| == i
  {
    if i == 0 {
    } else {
      FillerLength(i - 1);
    }
  }

  lemma {:induction false} CrowdIsOrdered(n: nat, now: int)
    ensures |Crowd(n, now)| == n + 2
    ensures forall i :: 0 <= i < n + 2 ==> Crowd(n, now)[i].now == now && |Crowd(n, now)[i].key| <= n
  {
    if n == 0 {
    } else {
      CrowdIsOrdered(n - 1, now);
      FillerLength(n);
    }
  }

  lemma CrowdKeysStart(now: int)
    ensures Active(Crowd(0, now), WindowStart(now)) == {""}
    ensures TrueCount(Crowd(0, now), WindowKey("", WindowStart(now))) == 2
  {
    var c := Call("", now);
    var one := [] + [c];
    assert Crowd(0, now) == one + [c];
    ActiveStep(one, c);
    TrueCountStep(one, c, Counter(c));
    TrueCountStep([], c, Counter(c));
    assert one[0].key == "";
  }

  lemma {:induction false} CrowdKeys(n: nat, now: int)
    ensures |Active(Crowd(n, now), WindowStart(now))| == n + 1
    ensures "" in Active(Crowd(n, now), WindowStart(now))
    ensures forall key :: key in Active(Crowd(n, now), WindowStart(now)) ==> |key| <= n
    ensures TrueCount(Crowd(n, now), WindowKey("", WindowStart(now))) == 2
  {
    if n == 0 {
      CrowdKeysStart(now);
    } else {
      var c := Call(Filler(n), now);
      CrowdKeys(n - 1, now);
      FillerLength(n);
      ActiveStep(Crowd(n - 1, now), c);
      TrueCountStep(Crowd(n - 1, now), c, WindowKey("", WindowStart(now)));
    }
  }

  /** After `n` other keys the first key is the oldest entry, or already pushed out. */
  ghost predicate CrowdState(s: Counters, n: nat, now: int) {
    var a := WindowKey("", WindowStart(now));
    && Valid(s.cache)
    && a in s.db && s.db[a] == 1
    && (forall wk :: wk in s.cache.order ==> |wk.key| <= n)
    && (n < s.cache.capacity ==> |s.cache.order| == n + 1 && s.cache.order[n] == a)
    && (n == s.cache.capacity ==> a !in s.cache.order)
  }

  ghost predicate CrowdReached(capacity: nat, calls: seq<Call>, n: nat, now: int) {
    CrowdState(After(capacity, calls), n, now)
  }

  lemma CrowdStart(capacity: nat, now: int)
    requires 1 <= capacity
    ensures CrowdReached(capacity, Crowd(0, now), 0, now)
  {
    var c := Call("", now);
    var a := Counter(c);
    assert Crowd(0, now)[..1] == [c] && [c][..0] == [];
    var s1 := Increment(After(capacity, []), "", now).0;
    assert s1.cache.order == [a] && s1.cache.items == map[a := 1] && s1.db == map[a := 1];
    assert Touch(s1.cache, a).order == [a];
  }

  lemma CrowdStep(s: Counters, n: nat, now: int, s': Counters)
    requires 1 <= n <= s.cache.capacity && CrowdState(s, n - 1, now)
    requires s' == Increment(s, Filler(n), now).0
    ensures CrowdState(s', n, now)
  {
    FillerLength(n);
    var wk := WindowKey(Filler(n), WindowStart(now));
    PutSpec(s.cache, wk, Stored(s, wk) + 1);
  }

  lemma {:induction false} CapacityKept(capacity: nat, calls: seq<Call>)
    ensures After(capacity, calls).cache.capacity == capacity
  {
    if calls == [] {
    } else {
      CapacityKept(capacity, calls[..|calls| - 1]);
    }
  }

  lemma CrowdGrows(capacity: nat, calls: seq<Call>, n: nat, now: int)
    requires 1 <= n <= capacity && CrowdReached(capacity, calls, n - 1, now)
    ensures CrowdReached(capacity, calls + [Call(Filler(n), now)], n, now)
  {
    CapacityKept(capacity, calls);
    AfterAppend(capacity, calls, Call(Filler(n), now));
    CrowdStep(After(capacity, calls), n, now, After(capacity, calls + [Call(Filler(n), now)]));
  }

  lemma {:induction false} CrowdRun(capacity: nat, n: nat, now: int)
    requires 1 <= capacity && n <= capacity
    ensures CrowdReached(capacity, Crowd(n, now), n, now)
  {
    if n == 0 {
      CrowdStart(capacity, now);
    } else {
      CrowdRun(capacity, n - 1, now);
      CrowdGrows(capacity, Crowd(n - 1, now), n, now);
    }
  }

  lemma AfterAppend(capacity: nat, calls: seq<Call>, c: Call)
    ensures After(capacity, calls + [c]) == Increment(After(capacity, calls), c.key, c.now).0
    ensures Returned(capacity, calls + [c], |calls|) == Increment(After(capacity, calls), c.key, c.now).1
  {
    assert (calls + [c])[..|calls|] == calls;
  }

  lemma CrowdEnd(capacity: nat, calls: seq<Call>, now: int)
    requires CrowdReached(capacity, calls, capacity, now)
    ensures Returned(capacity, calls + [Call("", now)], |calls|) == 2
  {
    CapacityKept(capacity, calls);
    assert (calls + [Call("", now)])[..|calls|] == calls;
  }

  /** With one active key more than the cache holds, a count can fall behind the truth. */
  lemma OneKeyTooManyUndercounts(capacity: nat, now: int) returns (calls: seq<Call>)
    requires 1 <= capacity
    ensures |calls| == capacity + 3 && Ordered(calls)
    ensures |Active(calls, WindowStart(now))| == capacity + 1
    ensures calls[capacity + 2] == Call("", now)
    ensures Returned(capacity, calls, capacity + 2) == 2
    ensures TrueCount(calls, Counter(Call("", now))) == 3
  {
    var crowd := Crowd(capacity, now);
    var c := Call("", now);
    calls := crowd + [c];
    CrowdIsOrdered(capacity, now);
    CrowdKeys(capacity, now);
    ActiveStep(crowd, c);
    assert Active(calls, WindowStart(now)) == Active(crowd, WindowStart(now));
    TrueCountStep(crowd, c, Counter(c));
    CrowdRun(capacity, capacity, now);
    CrowdEnd(capacity, crowd, now);
  }
}
