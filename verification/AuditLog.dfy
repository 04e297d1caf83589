/** The audit log: gathering a user's entries, filtering, sorting, paging, and flushing batches. */
module AuditLog {
  import opened Wrappers
  import opened Config
  import opened Blocks
  import opened Ledger
  import Lookup

  datatype EventType = AccountCreated | DataSubmitted | DataDecrypted | DataListed | AccountLogin

  datatype Entry = Entry(
    eventType: EventType,
    timestamp: int,
    collectionId: Option<string>,
    ipHash: string,
    metadata: string,
    invalidated: bool)

  datatype Filter = Filter(
    eventType: Option<EventType>,
    startTs: Option<int>,
    endTs: Option<int>,
    includeInvalidated: bool)

  datatype Response = Response(logs: seq<Entry>, total: nat, page: nat, pageSize: nat, totalPages: nat)

  // ----- Filtering -----

  predicate Matches(f: Filter, e: Entry) {
    && (f.includeInvalidated || !e.invalidated)
    && (f.eventType.Some? ==> e.eventType == f.eventType.value)
    && (f.startTs.Some? ==> f.startTs.value <= e.timestamp)
    && (f.endTs.Some? ==> e.timestamp <= f.endTs.value)
  }

  function Matching(f: Filter, s: seq<Entry>): seq<Entry> {
    if s == [] then []
    else Matching(f, s[..|s| - 1]) + if Matches(f, s[|s| - 1]) then [s[|s| - 1]] else []
  }

  // ----- Sorting -----

  ghost predicate NewestFirst(s: seq<Entry>) {
    forall i, j :: 0 <= i < j < |s| ==> s[i].timestamp >= s[j].timestamp
  }

  /** The entries of one instant, in order. */
  ghost function At(s: seq<Entry>, t: int): seq<Entry> {
    if s == [] then []
    else (if s[0].timestamp == t then [s[0]] else []) + At(s[1..], t)
  }

  /** `r` is `s` sorted newest first, entries of one instant keeping their order. */
  ghost predicate StablySorted(s: seq<Entry>, r: seq<Entry>) {
    NewestFirst(r) && forall t :: At(r, t) == At(s, t)
  }

  /** Put an entry behind everything that is as new. */
  function Insert(s: seq<Entry>, e: Entry): seq<Entry> {
    if s == [] || s[0].timestamp < e.timestamp then [e] + s
    else [s[0]] + Insert(s[1..], e)
  }

  function Sorted(s: seq<Entry>): seq<Entry> {
    if s == [] then [] else Insert(Sorted(s[..|s| - 1]), s[|s| - 1])
  }

  lemma {:induction false} AtConcat(a: seq<Entry>, b: seq<Entry>, t: int)
    ensures At(a + b, t) == At(a, t) + At(b, t)
  {
    if a == [] {
      assert a + b == b;
    } else {
      assert (a + b)[1..] == a[1..] + b;
      AtConcat(a[1..], b, t);
      var head := if a[0].timestamp == t then [a[0]] else [];
      assert At(a + b, t) == head + At(a[1..] + b, t) && At(a, t) == head + At(a[1..], t);
    }
  }

  /** Nothing at an instant newer than the head of a sorted list. */
  lemma {:induction false} NothingNewer(s: seq<Entry>, t: int)
    requires NewestFirst(s) && (s != [] ==> s[0].timestamp < t)
    ensures At(s, t) == []
  {
    if s == [] {
    } else {
      NothingNewer(s[1..], t);
    }
  }

  lemma {:induction false} InsertSpec(s: seq<Entry>, e: Entry)
    requires NewestFirst(s)
    ensures NewestFirst(Insert(s, e))
    ensures |Insert(s, e)| == |s| + 1
    ensures forall x :: x in Insert(s, e) <==> x in s || x == e
  {
    if s == [] || s[0].timestamp < e.timestamp {
    } else {
      var rest := Insert(s[1..], e);
      InsertSpec(s[1..], e);
      assert forall x :: x in rest ==> x.timestamp <= s[0].timestamp;
      assert forall x :: x in s <==> x == s[0] || x in s[1..];
    }
  }

  lemma {:induction false} InsertAt(s: seq<Entry>, e: Entry, t: int)
    requires NewestFirst(s)
    ensures At(Insert(s, e), t) == At(s, t) + At([e], t)
  {
    if s == [] || s[0].timestamp < e.timestamp {
      AtConcat([e], s, t);
      if t == e.timestamp {
        NothingNewer(s, t);
      }
    } else {
      InsertAt(s[1..], e, t);
      assert Insert(s, e)[1..] == Insert(s[1..], e);
    }
  }

  /** Inserting the next entry keeps order and instants. */
  lemma SortedStep(before: seq<Entry>, sorted: seq<Entry>, e: Entry, t: int)
    requires NewestFirst(sorted) && At(sorted, t) == At(before, t)
    ensures NewestFirst(Insert(sorted, e)) && At(Insert(sorted, e), t) == At(before + [e], t)
  {
    InsertSpec(sorted, e);
    InsertAt(sorted, e, t);
    AtConcat(before, [e], t);
  }

  lemma {:induction false} SortedAt(s: seq<Entry>, t: int)
    ensures NewestFirst(Sorted(s)) && At(Sorted(s), t) == At(s, t)
  {
    if s == [] {
    } else {
      var n := |s| - 1;
      SortedAt(s[..n], t);
      SortedStep(s[..n], Sorted(s[..n]), s[n], t);
      assert s == s[..n] + [s[n]];
    }
  }

  lemma SortedIsStable(s: seq<Entry>)
    ensures StablySorted(s, Sorted(s))
  {
    SortedAt(s, 0);
    forall t
      ensures At(Sorted(s), t) == At(s, t)
    {
      SortedAt(s, t);
    }
  }

  lemma {:induction false} AtNonempty(s: seq<Entry>, i: nat)
    requires i < |s|
    ensures At(s, s[i].timestamp) != []
  {
    if i == 0 {
    } else {
      AtNonempty(s[1..], i - 1);
    }
  }

  lemma {:induction false} SomeAt(s: seq<Entry>, t: int) returns (i: nat)
    requires At(s, t) != []
    ensures i < |s| && s[i].timestamp == t
  {
    if s[0].timestamp == t {
      i := 0;
    } else {
      i := SomeAt(s[1..], t);
      i := i + 1;
    }
  }

  lemma HeadIsNewest(a: seq<Entry>, b: seq<Entry>)
    requires NewestFirst(a) && a != [] && b != []
    requires At(a, b[0].timestamp) == At(b, b[0].timestamp)
    ensures a[0].timestamp >= b[0].timestamp
  {
    AtNonempty(b, 0);
    var i := SomeAt(a, b[0].timestamp);
    assert i == 0 || a[0].timestamp >= a[i].timestamp;
  }

  /** A stable sort has only one possible result, whatever the algorithm. */
  lemma {:induction false} StableSortUnique(a: seq<Entry>, b: seq<Entry>)
    requires NewestFirst(a) && NewestFirst(b) && forall t :: At(a, t) == At(b, t)
    ensures a == b
  {
    if a == [] && b != [] {
      AtNonempty(b, 0);
    } else if a != [] && b == [] {
      AtNonempty(a, 0);
    } else if a != [] {
      HeadIsNewest(a, b);
      HeadIsNewest(b, a);
      var t0 := a[0].timestamp;
      assert At(a, t0)[0] == a[0] && At(b, t0)[0] == b[0];
      forall t
        ensures At(a[1..], t) == At(b[1..], t)
      {
        TailAt(a, t);
        TailAt(b, t);
      }
      StableSortUnique(a[1..], b[1..]);
      assert a == [a[0]] + a[1..] && b == [b[0]] + b[1..];
    }
  }

  lemma TailAt(s: seq<Entry>, t: int)
    requires s != []
    ensures At(s[1..], t) == if s[0].timestamp == t then At(s, t)[1..] else At(s, t)
  {
  }

  // ----- Paging -----

  function TotalPages(total: nat, pageSize: nat): nat
    requires pageSize >= 1
  {
    total / pageSize + if total % pageSize == 0 then 0 else 1
  }

  function Min(a: nat, b: nat): nat {
    if a < b then a else b
  }

  function Page(s: seq<Entry>, page: nat, pageSize: nat): seq<Entry> {
    PageFrom(s, page * pageSize, pageSize)
  }

  /** Pages `0` to `count - 1`, one after the other. */
  function FirstPages(s: seq<Entry>, count: nat, pageSize: nat): seq<Entry> {
    if count == 0 then [] else FirstPages(s, count - 1, pageSize) + Page(s, count - 1, pageSize)
  }

  function PageFrom(s: seq<Entry>, start: nat, pageSize: nat): seq<Entry> {
    if start < |s| then s[start..Min(start + pageSize, |s|)] else []
  }

  lemma PageExtends(s: seq<Entry>, start: nat, pageSize: nat)
    ensures s[..Min(start, |s|)] + PageFrom(s, start, pageSize) == s[..Min(start + pageSize, |s|)]
  {
  }

  lemma {:induction false} FirstPagesArePrefix(s: seq<Entry>, count: nat, pageSize: nat)
    ensures FirstPages(s, count, pageSize) == s[..Min(count * pageSize, |s|)]
  {
    if count == 0 {
    } else {
      FirstPagesArePrefix(s, count - 1, pageSize);
      var start := (count - 1) * pageSize;
      assert count * pageSize == start + pageSize;
      PageExtends(s, start, pageSize);
    }
  }

  /** The page count is the least that covers the total. */
  lemma TotalPagesCover(total: nat, pageSize: nat, page: nat)
    requires pageSize >= 1
    ensures page < TotalPages(total, pageSize) <==> page * pageSize < total
  {
    var q, m := total / pageSize, total % pageSize;
    assert total == q * pageSize + m;
    if page < q {
      assert (page + 1) * pageSize <= q * pageSize;
    } else if page > q {
      assert page * pageSize >= (q + 1) * pageSize;
    } else {
      assert page * pageSize == q * pageSize;
    }
  }

  /** The pages together are the whole list; a page is empty exactly from the page count on. */
  lemma PagesCoverEverything(s: seq<Entry>, pageSize: nat, page: nat)
    requires pageSize >= 1
    ensures FirstPages(s, TotalPages(|s|, pageSize), pageSize) == s
    ensures Page(s, page, pageSize) == [] <==> page >= TotalPages(|s|, pageSize)
    ensures page + 1 < TotalPages(|s|, pageSize) ==> |Page(s, page, pageSize)| == pageSize
  {
    var n := TotalPages(|s|, pageSize);
    FirstPagesArePrefix(s, n, pageSize);
    TotalPagesCover(|s|, pageSize, n);
    TotalPagesCover(|s|, pageSize, page);
    TotalPagesCover(|s|, pageSize, page + 1);
    assert (page + 1) * pageSize == page * pageSize + pageSize;
    assert s[..|s|] == s;
  }

  // ----- Gathering -----

  /** How a collection reads as an audit batch; none if it is not one or does not open. */
  type Reader = (Collection, string) -> Option<seq<Entry>>

  function BatchEntries(read: Reader, collections: seq<Collection>, apiKey: string): seq<Entry> {
    if collections == [] then []
    else
      var n := |collections| - 1;
      BatchEntries(read, collections[..n], apiKey) +
      match read(collections[n], apiKey)
      case None => []
      case Some(entries) => entries
  }

  /** The user's audit entries in the block at a position; a position beyond the chain has none. */
  function EntriesAt(p: Primitives, read: Reader, chain: seq<Block>, position: nat, apiKey: string): seq<Entry> {
    if position < |chain| then BatchEntries(read, Lookup.CollectionsFor(p, chain[position], apiKey), apiKey) else []
  }

  function EntriesAtAll(p: Primitives, read: Reader, chain: seq<Block>, positions: seq<nat>,
                        apiKey: string): seq<Entry> {
    if positions == [] then []
    else
      var n := |positions| - 1;
      EntriesAtAll(p, read, chain, positions[..n], apiKey) + EntriesAt(p, read, chain, positions[n], apiKey)
  }

  function Positions(n: nat): seq<nat> {
    seq(n, i => i)
  }

  /** What a query looks through: the indexed blocks, or every block when there is no index. */
  function Gathered(p: Primitives, read: Reader, chain: seq<Block>, index: seq<nat>, apiKey: string): seq<Entry> {
    EntriesAtAll(p, read, chain, if index == [] then Positions(|chain|) else index, apiKey)
  }

  ghost predicate Increasing(positions: seq<nat>) {
    forall i, j :: 0 <= i < j < |positions| ==> positions[i] < positions[j]
  }

  /** Every block below `n` that the index leaves out is without entries. */
  ghost predicate NothingMissed(p: Primitives, read: Reader, chain: seq<Block>, index: seq<nat>, n: nat,
                                apiKey: string) {
    forall k :: 0 <= k < n && k !in index ==> EntriesAt(p, read, chain, k, apiKey) == []
  }

  lemma NothingMissedStep(p: Primitives, read: Reader, chain: seq<Block>, index: seq<nat>, n: nat, apiKey: string)
    requires n > 0
    ensures NothingMissed(p, read, chain, index + [n - 1], n, apiKey) <==>
            NothingMissed(p, read, chain, index, n - 1, apiKey)
    ensures n - 1 !in index ==>
              (NothingMissed(p, read, chain, index, n, apiKey) <==>
               NothingMissed(p, read, chain, index, n - 1, apiKey) && EntriesAt(p, read, chain, n - 1, apiKey) == [])
  {
    assert forall k :: k in index + [n - 1] <==> k in index || k == n - 1;
  }

  /** Adding a position adds its entries. */
  lemma EntriesAtAllAppend(p: Primitives, read: Reader, chain: seq<Block>, positions: seq<nat>, k: nat, apiKey: string)
    ensures EntriesAtAll(p, read, chain, positions + [k], apiKey) ==
            EntriesAtAll(p, read, chain, positions, apiKey) + EntriesAt(p, read, chain, k, apiKey)
  {
    assert (positions + [k])[..|positions|] == positions;
  }

  /** The part is no longer than the whole, and is all of it exactly when nothing is missed. */
  ghost predicate Compares(part: seq<Entry>, whole: seq<Entry>, nothingMissed: bool) {
    |part| <= |whole| && (part == whole <==> nothingMissed)
  }

  lemma ComparesAppend(part: seq<Entry>, whole: seq<Entry>, nothingMissed: bool, more: seq<Entry>)
    requires Compares(part, whole, nothingMissed)
    ensures Compares(part + more, whole + more, nothingMissed)
    ensures Compares(part, whole + more, nothingMissed && more == [])
  {
    Lookup.PartsAgree(part, whole, more, true);
    Lookup.PartsAgree(part, whole, more, false);
    assert part + [] == part;
  }

  lemma ScanNext(p: Primitives, read: Reader, chain: seq<Block>, k: nat, apiKey: string)
    ensures EntriesAtAll(p, read, chain, Positions(k + 1), apiKey) ==
            EntriesAtAll(p, read, chain, Positions(k), apiKey) + EntriesAt(p, read, chain, k, apiKey)
  {
    assert Positions(k + 1) == Positions(k) + [k];
    EntriesAtAllAppend(p, read, chain, Positions(k), k, apiKey);
  }

  ghost predicate ComparesUpTo(p: Primitives, read: Reader, chain: seq<Block>, index: seq<nat>, n: nat,
                               apiKey: string) {
    Compares(EntriesAtAll(p, read, chain, index, apiKey),
             EntriesAtAll(p, read, chain, Positions(n), apiKey),
             NothingMissed(p, read, chain, index, n, apiKey))
  }

  lemma IndexListsNext(p: Primitives, read: Reader, chain: seq<Block>, index: seq<nat>, k: nat, apiKey: string)
    requires ComparesUpTo(p, read, chain, index, k, apiKey)
    ensures ComparesUpTo(p, read, chain, index + [k], k + 1, apiKey)
  {
    ScanNext(p, read, chain, k, apiKey);
    NothingMissedStep(p, read, chain, index, k + 1, apiKey);
    EntriesAtAllAppend(p, read, chain, index, k, apiKey);
    ComparesAppend(EntriesAtAll(p, read, chain, index, apiKey), EntriesAtAll(p, read, chain, Positions(k), apiKey),
                   NothingMissed(p, read, chain, index, k, apiKey), EntriesAt(p, read, chain, k, apiKey));
  }

  lemma IndexSkipsNext(p: Primitives, read: Reader, chain: seq<Block>, index: seq<nat>, k: nat, apiKey: string)
    requires ComparesUpTo(p, read, chain, index, k, apiKey) && k !in index
    ensures ComparesUpTo(p, read, chain, index, k + 1, apiKey)
  {
    ScanNext(p, read, chain, k, apiKey);
    NothingMissedStep(p, read, chain, index, k + 1, apiKey);
    ComparesAppend(EntriesAtAll(p, read, chain, index, apiKey), EntriesAtAll(p, read, chain, Positions(k), apiKey),
                   NothingMissed(p, read, chain, index, k, apiKey), EntriesAt(p, read, chain, k, apiKey));
  }

  lemma NothingToCompare(p: Primitives, read: Reader, chain: seq<Block>, apiKey: string)
    ensures ComparesUpTo(p, read, chain, [], 0, apiKey)
  {
    assert |Positions(0)| == 0;
    assert Positions(0) == [];
  }

  lemma {:induction false} IndexAgainstScan(p: Primitives, read: Reader, chain: seq<Block>, index: seq<nat>,
                                            n: nat, apiKey: string)
    requires Increasing(index) && forall i :: 0 <= i < |index| ==> index[i] < n
    ensures ComparesUpTo(p, read, chain, index, n, apiKey)
    decreases n
  {
    assert index == [] || 0 <= index[0] < n;
    if n == 0 {
      assert index == [];
      NothingToCompare(p, read, chain, apiKey);
    } else {
      var k: nat, m := n - 1, |index| - 1;
      if index != [] && index[m] == k {
        var before := index[..m];
        assert index == before + [k];
        IndexAgainstScan(p, read, chain, before, k, apiKey);
        IndexListsNext(p, read, chain, before, k, apiKey);
      } else {
        BelowLast(index, k);
        IndexAgainstScan(p, read, chain, index, k, apiKey);
        IndexSkipsNext(p, read, chain, index, k, apiKey);
      }
    }
  }

  /** An ascending index up to `k` that does not end in `k` does not hold it. */
  lemma BelowLast(index: seq<nat>, k: nat)
    requires Increasing(index) && forall i :: 0 <= i < |index| ==> index[i] <= k
    requires index == [] || index[|index| - 1] != k
    ensures k !in index
  {
    assert forall i :: 0 <= i < |index| - 1 ==> index[i] < index[|index| - 1];
  }

  lemma {:induction false} BeyondIsEmpty(p: Primitives, read: Reader, chain: seq<Block>, n: nat, apiKey: string)
    requires |chain| <= n
    ensures EntriesAtAll(p, read, chain, Positions(n), apiKey) ==
            EntriesAtAll(p, read, chain, Positions(|chain|), apiKey)
    decreases n
  {
    if |chain| < n {
      var k: nat := n - 1;
      BeyondIsEmpty(p, read, chain, k, apiKey);
      ScanNext(p, read, chain, k, apiKey);
      var scanned := EntriesAtAll(p, read, chain, Positions(k), apiKey);
      assert scanned + EntriesAt(p, read, chain, k, apiKey) == scanned;
      assert Positions(n) == Positions(k + 1);
    }
  }

  /** Every block of the chain that the index leaves out is without entries. */
  ghost predicate IndexCovers(p: Primitives, read: Reader, chain: seq<Block>, index: seq<nat>, apiKey: string) {
    index == [] || NothingMissed(p, read, chain, index, |chain|, apiKey)
  }

  /** An ascending index gathers what a scan does exactly when it misses no block with entries. */
  lemma IndexedGatherIsScanIff(p: Primitives, read: Reader, chain: seq<Block>, index: seq<nat>, apiKey: string)
    requires Increasing(index)
    ensures Gathered(p, read, chain, index, apiKey) == EntriesAtAll(p, read, chain, Positions(|chain|), apiKey) <==>
            IndexCovers(p, read, chain, index, apiKey)
  {
    if index != [] {
      var last := index[|index| - 1];
      var n := if last < |chain| then |chain| else last + 1;
      assert forall i :: 0 <= i < |index| ==> index[i] <= last;
      IndexAgainstScan(p, read, chain, index, n, apiKey);
      BeyondIsEmpty(p, read, chain, n, apiKey);
      assert NothingMissed(p, read, chain, index, n, apiKey) <==> NothingMissed(p, read, chain, index, |chain|, apiKey);
    }
  }

  // ----- An index in any order -----

  /** The same entries, however often, or a proper part of them. */
  ghost predicate Includes(part: multiset<Entry>, whole: multiset<Entry>, nothingMissed: bool) {
    part <= whole && (part == whole <==> nothingMissed)
  }

  lemma IncludesMore(part: multiset<Entry>, whole: multiset<Entry>, nothingMissed: bool, more: multiset<Entry>)
    requires Includes(part, whole, nothingMissed)
    ensures Includes(part + more, whole + more, nothingMissed)
    ensures Includes(part, whole + more, nothingMissed && more == multiset{})
  {
    assert part + more - more == part && whole + more - more == whole;
    if more != multiset{} {
      var e :| e in more;
      assert part[e] < (whole + more)[e];
    }
  }

  ghost predicate NoRepeats(index: seq<nat>) {
    forall i, j :: 0 <= i < j < |index| ==> index[i] != index[j]
  }

  /** The other positions of the index, and the entries they gather. */
  ghost predicate Drops(p: Primitives, read: Reader, chain: seq<Block>, index: seq<nat>, k: nat, apiKey: string,
                        rest: seq<nat>) {
    && NoRepeats(rest) && k !in rest && (forall x :: x in index <==> x in rest || x == k)
    && multiset(EntriesAtAll(p, read, chain, index, apiKey)) ==
       multiset(EntriesAtAll(p, read, chain, rest, apiKey)) + multiset(EntriesAt(p, read, chain, k, apiKey))
  }

  lemma DropsBefore(p: Primitives, read: Reader, chain: seq<Block>, index: seq<nat>, k: nat, apiKey: string,
                    rest: seq<nat>, last: nat)
    requires Drops(p, read, chain, index, k, apiKey, rest) && last !in index
    ensures Drops(p, read, chain, index + [last], k, apiKey, rest + [last])
  {
    EntriesAtAllAppend(p, read, chain, index, last, apiKey);
    EntriesAtAllAppend(p, read, chain, rest, last, apiKey);
  }

  lemma {:induction false} DropPosition(p: Primitives, read: Reader, chain: seq<Block>, index: seq<nat>, k: nat,
                                        apiKey: string)
    returns (rest: seq<nat>)
    requires NoRepeats(index) && k in index
    ensures Drops(p, read, chain, index, k, apiKey, rest)
    decreases |index|
  {
    var init, last := index[..|index| - 1], index[|index| - 1];
    assert index == init + [last] && last !in init;
    if last == k {
      rest := init;
      EntriesAtAllAppend(p, read, chain, init, last, apiKey);
    } else {
      var fewer := DropPosition(p, read, chain, init, k, apiKey);
      DropsBefore(p, read, chain, init, k, apiKey, fewer, last);
      rest := fewer + [last];
    }
  }

  ghost predicate IncludesUpTo(p: Primitives, read: Reader, chain: seq<Block>, index: seq<nat>, n: nat,
                               apiKey: string) {
    Includes(multiset(EntriesAtAll(p, read, chain, index, apiKey)),
             multiset(EntriesAtAll(p, read, chain, Positions(n), apiKey)),
             NothingMissed(p, read, chain, index, n, apiKey))
  }

  lemma IncludesNext(p: Primitives, read: Reader, chain: seq<Block>, index: seq<nat>, k: nat, apiKey: string)
    requires IncludesUpTo(p, read, chain, index, k, apiKey) && k !in index
    ensures IncludesUpTo(p, read, chain, index, k + 1, apiKey)
    ensures Includes(multiset(EntriesAtAll(p, read, chain, index, apiKey)) +
                     multiset(EntriesAt(p, read, chain, k, apiKey)),
                     multiset(EntriesAtAll(p, read, chain, Positions(k + 1), apiKey)),
                     NothingMissed(p, read, chain, index, k, apiKey))
  {
    var more := EntriesAt(p, read, chain, k, apiKey);
    ScanNext(p, read, chain, k, apiKey);
    NothingMissedStep(p, read, chain, index, k + 1, apiKey);
    assert multiset(more) == multiset{} <==> more == [] by {
      if more != [] {
        assert more[0] in multiset(more);
      }
    }
    IncludesMore(multiset(EntriesAtAll(p, read, chain, index, apiKey)),
                 multiset(EntriesAtAll(p, read, chain, Positions(k), apiKey)),
                 NothingMissed(p, read, chain, index, k, apiKey), multiset(more));
  }

  lemma IncludesDropped(p: Primitives, read: Reader, chain: seq<Block>, index: seq<nat>, rest: seq<nat>, k: nat,
                        apiKey: string)
    requires Drops(p, read, chain, index, k, apiKey, rest) && IncludesUpTo(p, read, chain, rest, k, apiKey)
    ensures IncludesUpTo(p, read, chain, index, k + 1, apiKey)
  {
    IncludesNext(p, read, chain, rest, k, apiKey);
    assert NothingMissed(p, read, chain, index, k + 1, apiKey) <==> NothingMissed(p, read, chain, rest, k, apiKey);
  }

  lemma {:induction false} AnyIndexAgainstScan(p: Primitives, read: Reader, chain: seq<Block>, index: seq<nat>, n: nat,
                                               apiKey: string)
    requires NoRepeats(index) && forall x :: x in index ==> x < n
    ensures IncludesUpTo(p, read, chain, index, n, apiKey)
    decreases n
  {
    assert index == [] || index[0] in index;
    if n == 0 {
      assert index == [];
      NothingToCompare(p, read, chain, apiKey);
    } else {
      var k: nat := n - 1;
      if k in index {
        var rest := DropPosition(p, read, chain, index, k, apiKey);
        AnyIndexAgainstScan(p, read, chain, rest, k, apiKey);
        IncludesDropped(p, read, chain, index, rest, k, apiKey);
      } else {
        AnyIndexAgainstScan(p, read, chain, index, k, apiKey);
        IncludesNext(p, read, chain, index, k, apiKey);
      }
    }
  }

  function Bound(index: seq<nat>, n: nat): (m: nat)
    ensures n <= m && forall x :: x in index ==> x < m
  {
    if index == [] then n
    else
      var last, m := index[|index| - 1], Bound(index[..|index| - 1], n);
      assert forall x :: x in index ==> x == last || x in index[..|index| - 1];
      if last < m then m else last + 1
  }

  /** An index without repeats, in any order, gathers the scan's entries exactly when it misses none. */
  lemma AnyIndexGathersAllIff(p: Primitives, read: Reader, chain: seq<Block>, index: seq<nat>, apiKey: string)
    requires NoRepeats(index)
    ensures multiset(Gathered(p, read, chain, index, apiKey)) ==
            multiset(EntriesAtAll(p, read, chain, Positions(|chain|), apiKey)) <==>
            IndexCovers(p, read, chain, index, apiKey)
  {
    if index != [] {
      var n := Bound(index, |chain|);
      AnyIndexAgainstScan(p, read, chain, index, n, apiKey);
      BeyondIsEmpty(p, read, chain, n, apiKey);
      assert NothingMissed(p, read, chain, index, n, apiKey) <==> NothingMissed(p, read, chain, index, |chain|, apiKey);
    }
  }

  // ----- The query -----

  method QueryLogs(p: Primitives, read: Reader, chain: seq<Block>, index: seq<nat>, apiKey: string,
                   filter: Filter, page: nat, pageSize: nat)
    returns (r: Response)
    requires pageSize >= 1
    ensures var all := Sorted(Matching(filter, Gathered(p, read, chain, index, apiKey)));
            r == Response(Page(all, page, pageSize), |all|, page, pageSize, TotalPages(|all|, pageSize))
  {
    var entries := Gather(p, read, chain, index, apiKey);
    var kept := Retain(filter, entries);
    var all := Sorted(kept);
    r := Paginate(all, page, pageSize);
  }

  method Paginate(all: seq<Entry>, page: nat, pageSize: nat) returns (r: Response)
    requires pageSize >= 1
    ensures r == Response(Page(all, page, pageSize), |all|, page, pageSize, TotalPages(|all|, pageSize))
  {
    var start := page * pageSize;
    var end := Min(start + pageSize, |all|);
    var logs := if start < |all| then all[start..end] else [];
    return Response(logs, |all|, page, pageSize, TotalPages(|all|, pageSize));
  }

  method Gather(p: Primitives, read: Reader, chain: seq<Block>, index: seq<nat>, apiKey: string)
    returns (entries: seq<Entry>)
    ensures entries == Gathered(p, read, chain, index, apiKey)
  {
    var positions := if index == [] then Positions(|chain|) else index;
    entries := [];
    for i := 0 to |positions|
      invariant entries == EntriesAtAll(p, read, chain, positions[..i], apiKey)
    {
      assert positions[..i + 1][..i] == positions[..i];
      var found := GatherBlock(p, read, chain, positions[i], apiKey);
      entries := entries + found;
    }
    assert positions[..|positions|] == positions;
  }

  method GatherBlock(p: Primitives, read: Reader, chain: seq<Block>, position: nat, apiKey: string)
    returns (entries: seq<Entry>)
    ensures entries == EntriesAt(p, read, chain, position, apiKey)
  {
    entries := [];
    if position >= |chain| {
      return;
    }
    var collections := Lookup.CollectionsFor(p, chain[position], apiKey);
    for j := 0 to |collections|
      invariant entries == BatchEntries(read, collections[..j], apiKey)
    {
      assert collections[..j + 1][..j] == collections[..j];
      var batch := read(collections[j], apiKey);
      if batch.Some? {
        entries := entries + batch.value;
      }
    }
    assert collections[..|collections|] == collections;
  }

  method Retain(filter: Filter, entries: seq<Entry>) returns (kept: seq<Entry>)
    ensures kept == Matching(filter, entries)
  {
    kept := [];
    for i := 0 to |entries|
      invariant kept == Matching(filter, entries[..i])
    {
      assert entries[..i + 1][..i] == entries[..i];
      if Matches(filter, entries[i]) {
        kept := kept + [entries[i]];
      }
    }
    assert entries[..|entries|] == entries;
  }

  lemma {:induction false} MatchingCount(f: Filter, s: seq<Entry>)
    ensures forall e :: multiset(Matching(f, s))[e] == if Matches(f, e) then multiset(s)[e] else 0
  {
    if s == [] {
    } else {
      MatchingCount(f, s[..|s| - 1]);
      assert s == s[..|s| - 1] + [s[|s| - 1]];
    }
  }

  lemma {:induction false} InsertCount(s: seq<Entry>, e: Entry)
    ensures multiset(Insert(s, e)) == multiset(s) + multiset{e}
  {
    if s == [] || s[0].timestamp < e.timestamp {
    } else {
      InsertCount(s[1..], e);
      assert s == [s[0]] + s[1..];
    }
  }

  lemma {:induction false} SortedCount(s: seq<Entry>)
    ensures multiset(Sorted(s)) == multiset(s)
  {
    if s == [] {
    } else {
      var n := |s| - 1;
      SortedCount(s[..n]);
      InsertCount(Sorted(s[..n]), s[n]);
      assert s == s[..n] + [s[n]];
    }
  }

  /**
   Read page by page, a query shows every matching entry as often as it was
   gathered and no other, newest first, equal instants in gathering order.
   */
  lemma PagesShowEveryMatch(f: Filter, gathered: seq<Entry>, pageSize: nat)
    requires pageSize >= 1
    ensures var all := Sorted(Matching(f, gathered));
            var shown := FirstPages(all, TotalPages(|all|, pageSize), pageSize);
            && StablySorted(Matching(f, gathered), shown)
            && forall e :: multiset(shown)[e] == if Matches(f, e) then multiset(gathered)[e] else 0
  {
    var matching := Matching(f, gathered);
    SortedIsStable(matching);
    SortedCount(matching);
    MatchingCount(f, gathered);
    PagesCoverEverything(Sorted(matching), pageSize, 0);
  }

  // ----- What a query shows -----

  lemma {:induction false} MatchingConcat(f: Filter, a: seq<Entry>, b: seq<Entry>)
    ensures Matching(f, a + b) == Matching(f, a) + Matching(f, b)
    decreases |b|
  {
    if b == [] {
      assert a + b == a;
    } else {
      var n := |b| - 1;
      assert (a + b)[..|a| + n] == a + b[..n];
      MatchingConcat(f, a, b[..n]);
    }
  }

  lemma {:induction false} BatchEntriesConcat(read: Reader, a: seq<Collection>, b: seq<Collection>, apiKey: string)
    ensures BatchEntries(read, a + b, apiKey) == BatchEntries(read, a, apiKey) + BatchEntries(read, b, apiKey)
    decreases |b|
  {
    if b == [] {
      assert a + b == a;
    } else {
      var n := |b| - 1;
      assert (a + b)[..|a| + n] == a + b[..n];
      BatchEntriesConcat(read, a, b[..n], apiKey);
    }
  }

  /** The entry stands in an audit batch that opens for the key. */
  ghost predicate InBatch(read: Reader, c: Collection, apiKey: string, e: Entry) {
    read(c, apiKey).Some? && e in read(c, apiKey).value
  }

  lemma {:induction false} InBatchEntries(read: Reader, collections: seq<Collection>, apiKey: string, e: Entry)
    ensures e in BatchEntries(read, collections, apiKey) <==>
            exists c :: c in collections && InBatch(read, c, apiKey, e)
  {
    if collections != [] {
      var n := |collections| - 1;
      assert forall c :: c in collections <==> c in collections[..n] || c == collections[n];
      InBatchEntries(read, collections[..n], apiKey, e);
      var batch := read(collections[n], apiKey);
      assert BatchEntries(read, collections, apiKey) ==
             BatchEntries(read, collections[..n], apiKey) + if batch.Some? then batch.value else [];
      assert InBatch(read, collections[n], apiKey, e) <==> e in if batch.Some? then batch.value else [];
    }
  }

  /** The block holds an audit batch of the key's owner with the entry in it. */
  ghost predicate Holds(p: Primitives, read: Reader, b: Block, apiKey: string, e: Entry) {
    && (p.decode)(b.data).Some?
    && exists c :: c in (p.decode)(b.data).value.collections && c.ownerKeyHash == (p.hashKey)(apiKey) &&
                   InBatch(read, c, apiKey, e)
  }

  lemma HoldsIff(p: Primitives, read: Reader, chain: seq<Block>, k: nat, apiKey: string, e: Entry)
    requires k < |chain|
    ensures e in EntriesAt(p, read, chain, k, apiKey) <==> Holds(p, read, chain[k], apiKey, e)
  {
    var mine := Lookup.CollectionsFor(p, chain[k], apiKey);
    InBatchEntries(read, mine, apiKey, e);
    forall c
      ensures c in mine <==> c in CollectionsOf(p, chain[k]) && c.ownerKeyHash == (p.hashKey)(apiKey)
    {
      Lookup.OwnedMembers(CollectionsOf(p, chain[k]), (p.hashKey)(apiKey), c);
    }
  }

  lemma {:induction false} InEntriesAtAll(p: Primitives, read: Reader, chain: seq<Block>, positions: seq<nat>,
                                          apiKey: string, e: Entry)
    ensures e in EntriesAtAll(p, read, chain, positions, apiKey) <==>
            exists k :: k in positions && k < |chain| && Holds(p, read, chain[k], apiKey, e)
  {
    if positions != [] {
      var n := |positions| - 1;
      assert positions == positions[..n] + [positions[n]];
      InEntriesAtAll(p, read, chain, positions[..n], apiKey, e);
      if positions[n] < |chain| {
        HoldsIff(p, read, chain, positions[n], apiKey, e);
      }
    }
  }

  /** The filter, field by field; both ends of the time range are included. */
  ghost predicate Passes(f: Filter, e: Entry) {
    && (e.invalidated ==> f.includeInvalidated)
    && (f.eventType == None || f.eventType == Some(e.eventType))
    && (f.startTs == None || e.timestamp >= f.startTs.value)
    && (f.endTs == None || e.timestamp <= f.endTs.value)
  }

  ghost predicate OnSomePage(s: seq<Entry>, pageSize: nat, e: Entry) {
    exists page: nat :: e in Page(s, page, pageSize)
  }

  lemma InPageFrom(s: seq<Entry>, start: nat, pageSize: nat, i: nat)
    requires start <= i < start + pageSize && i < |s|
    ensures s[i] in PageFrom(s, start, pageSize)
  {
    assert PageFrom(s, start, pageSize)[i - start] == s[i];
  }

  lemma PageIsPart(s: seq<Entry>, start: nat, pageSize: nat, e: Entry)
    requires e in PageFrom(s, start, pageSize)
    ensures e in s
  {
  }

  /** A paged entry is one of the list, and each entry of the list is on a page. */
  lemma OnSomePageIff(s: seq<Entry>, pageSize: nat, e: Entry)
    requires pageSize >= 1
    ensures OnSomePage(s, pageSize, e) <==> e in s
  {
    if e in s {
      var i :| 0 <= i < |s| && s[i] == e;
      var page := i / pageSize;
      var start: nat := page * pageSize;
      assert i == start + i % pageSize;
      InPageFrom(s, start, pageSize, i);
      assert e in Page(s, page, pageSize);
    }
    if page: nat :| e in Page(s, page, pageSize) {
      PageIsPart(s, page * pageSize, pageSize, e);
    }
  }

  lemma InSortedIff(f: Filter, gathered: seq<Entry>, e: Entry)
    ensures e in Sorted(Matching(f, gathered)) <==> Passes(f, e) && e in gathered
  {
    SortedCount(Matching(f, gathered));
    MatchingCount(f, gathered);
    assert e in Sorted(Matching(f, gathered)) <==> multiset(Sorted(Matching(f, gathered)))[e] > 0;
    assert e in gathered <==> multiset(gathered)[e] > 0;
  }

  /** One of the blocks looked through holds the entry. */
  ghost predicate HeldInSearched(p: Primitives, read: Reader, chain: seq<Block>, index: seq<nat>, apiKey: string,
                                 e: Entry) {
    exists k: nat :: (index == [] || k in index) && k < |chain| && Holds(p, read, chain[k], apiKey, e)
  }

  lemma GatheredIff(p: Primitives, read: Reader, chain: seq<Block>, index: seq<nat>, apiKey: string, e: Entry)
    ensures e in Gathered(p, read, chain, index, apiKey) <==> HeldInSearched(p, read, chain, index, apiKey, e)
  {
    InEntriesAtAll(p, read, chain, if index == [] then Positions(|chain|) else index, apiKey, e);
    assert forall k: nat :: k < |chain| ==> Positions(|chain|)[k] == k;
  }

  /**
   What a query shows, page by page: the entries of the batches in the blocks it looks
   through that open for the key, less those the filter's fields rule out.
   */
  lemma ShownIff(p: Primitives, read: Reader, chain: seq<Block>, index: seq<nat>, apiKey: string, f: Filter,
                 pageSize: nat, e: Entry)
    requires pageSize >= 1
    ensures OnSomePage(Sorted(Matching(f, Gathered(p, read, chain, index, apiKey))), pageSize, e) <==>
            Passes(f, e) && HeldInSearched(p, read, chain, index, apiKey, e)
  {
    var gathered := Gathered(p, read, chain, index, apiKey);
    OnSomePageIff(Sorted(Matching(f, gathered)), pageSize, e);
    InSortedIff(f, gathered, e);
    GatheredIff(p, read, chain, index, apiKey, e);
  }

  // ----- Flushing a batch -----

  /** One batch: queue it and, if the node takes itself for the next validator, make a block. */
  function Flush(p: Primitives, cfg: ValidatorConfig, id: string, s: Node, batch: Collection, d: Draw): Node
    requires Valid(cfg)
  {
    var queued := s.(collections := s.collections + [batch]);
    if Authorized(cfg, id, |s.chain| + 1) then
      match CreateBlock(p, cfg, id, queued, d)
      case Err(_) => queued
      case Ok(sealed) => sealed
    else queued
  }

  /**
   The flush asks about the height after the one it would fill, so it makes a
   block exactly when the node is due at both; otherwise the batch stays queued.
   */
  lemma FlushSealsIff(p: Primitives, cfg: ValidatorConfig, id: string, s: Node, batch: Collection, d: Draw)
    requires Valid(cfg) && s.chain != [] && IndexIsPosition(s.chain)
    ensures var s' := Flush(p, cfg, id, s, batch, d);
            if Authorized(cfg, id, |s.chain|) && Authorized(cfg, id, |s.chain| + 1) &&
               SealAll(p, s.accounts, d.salt).Some?
            then |s'.chain| == |s.chain| + 1 && s'.collections == []
            else s'.chain == s.chain && s'.collections == s.collections + [batch]
  {
    assert s.chain[|s.chain| - 1].index + 1 == |s.chain|;
  }

  /** With two or more distinct validators a flush never makes a block. */
  lemma FlushNeverSealsUnderRotation(p: Primitives, cfg: ValidatorConfig, id: string, s: Node, batch: Collection,
                                     d: Draw)
    requires Valid(cfg) && s.chain != [] && IndexIsPosition(s.chain)
    requires Rotates(cfg)
    ensures Flush(p, cfg, id, s, batch, d) == s.(collections := s.collections + [batch])
  {
    FlushSealsIff(p, cfg, id, s, batch, d);
    NeverDueTwice(cfg, id, |s.chain|);
  }
}
