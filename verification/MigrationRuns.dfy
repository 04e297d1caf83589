/** Round trip, resumption after a failure and the current schema of migrations. */
module MigrationRuns {
  import opened Wrappers
  import opened Text
  import opened Migrations

  // ----- Round trip -----

  /** `down` returns the data to what it was before `up`. */
  ghost predicate Undoes(m: Migration) {
    forall d: Data :: (m.up)(d).Some? ==> (m.down)((m.up)(d).value) == Some(d)
  }

  ghost predicate NewerThanApplied(s: State, version: string) {
    forall v :: v in s.applied ==> LexLess(v, version)
  }

  /** The current schema names the newest applied version. */
  ghost predicate PointsAtNewest(s: State) {
    s.schema == NewestOf(s.applied)
  }

  /** Applying a newer migration and rolling it back changes nothing. */
  lemma OneRoundTrip(s: State, m: Migration, broken: set<string>, now: int)
    requires PointsAtNewest(s) && NewerThanApplied(s, m.version) && Undoes(m)
    requires ApplyOne(s, m, broken, now).1.None?
    ensures RollbackOne(ApplyOne(s, m, broken, now).0, m) == (s, None)
    ensures PointsAtNewest(ApplyOne(s, m, broken, now).0)
    ensures Ascending(ApplyOne(s, m, broken, now).0.applied.Keys) == Ascending(s.applied.Keys) + [m.version]
  {
    var s' := ApplyOne(s, m, broken, now).0;
    assert s'.applied.Keys == s.applied.Keys + {m.version};
    NewestIs(s'.applied.Keys, m.version);
    AscendingAppend(s.applied.Keys, m.version);
    assert s'.applied - {m.version} == s.applied;
  }

  /** Versions grow along the list and all exceed what is applied. */
  ghost predicate Upgrades(s: State, ms: seq<Migration>) {
    && (forall i :: 0 <= i < |ms| ==> NewerThanApplied(s, ms[i].version))
    && Increasing(Versions(ms))
  }

  lemma AppliedByOne(s: State, m: Migration, broken: set<string>, now: int)
    requires ApplyOne(s, m, broken, now).1.None?
    ensures ApplyOne(s, m, broken, now).0.applied.Keys == s.applied.Keys + {m.version}
  {
  }

  lemma {:induction false} AppliedAfter(s: State, ms: seq<Migration>, broken: set<string>, now: int)
    requires ApplyAll(s, ms, broken, now).1.None?
    ensures ApplyAll(s, ms, broken, now).0.applied.Keys == s.applied.Keys + Elements(Versions(ms))
  {
    if ms == [] {
    } else {
      var n := |ms| - 1;
      AppliedAfter(s, ms[..n], broken, now);
      assert Versions(ms) == Versions(ms[..n]) + [ms[n].version];
      assert Elements(Versions(ms)) == Elements(Versions(ms[..n])) + {ms[n].version};
      AppliedByOne(ApplyAll(s, ms[..n], broken, now).0, ms[n], broken, now);
    }
  }

  lemma LastIsNewer(s: State, ms: seq<Migration>, broken: set<string>, now: int)
    requires ms != [] && Upgrades(s, ms) && ApplyAll(s, ms, broken, now).1.None?
    ensures Upgrades(s, ms[..|ms| - 1])
    ensures ApplyAll(s, ms[..|ms| - 1], broken, now).1.None?
    ensures NewerThanApplied(ApplyAll(s, ms[..|ms| - 1], broken, now).0, ms[|ms| - 1].version)
  {
    var n := |ms| - 1;
    AppliedAfter(s, ms[..n], broken, now);
    UpgradesBefore(s, ms);
    LastExceeds(s, ms);
  }

  lemma UpgradesBefore(s: State, ms: seq<Migration>)
    requires ms != [] && Upgrades(s, ms)
    ensures Upgrades(s, ms[..|ms| - 1])
  {
    var n := |ms| - 1;
    assert forall i :: 0 <= i < n ==> Versions(ms[..n])[i] == Versions(ms)[i];
  }

  /** The last version exceeds what was applied and what comes before it in the list. */
  lemma LastExceeds(s: State, ms: seq<Migration>)
    requires ms != [] && Upgrades(s, ms)
    ensures NewerThanApplied(s, ms[|ms| - 1].version)
    ensures var before, last := Elements(Versions(ms[..|ms| - 1])), ms[|ms| - 1].version;
            forall v :: v in before ==> LexLess(v, last)
  {
    var n := |ms| - 1;
    assert forall i :: 0 <= i < n ==> Versions(ms[..n])[i] == Versions(ms)[i];
  }

  lemma {:induction false} RollbackFront(s: State, v: string, vs: seq<string>, available: seq<Migration>)
    requires RollbackVersion(s, v, available).1.None?
    ensures RollbackAll(s, [v] + vs, available) ==
            RollbackAll(RollbackVersion(s, v, available).0, vs, available)
    decreases |vs|
  {
    if vs == [] {
      assert [v] + vs == [v] && [v][..0] == [];
      assert RollbackAll(s, [], available) == (s, None);
    } else {
      var n := |vs| - 1;
      RollbackFront(s, v, vs[..n], available);
      assert ([v] + vs)[..|vs|] == [v] + vs[..n];
    }
  }

  ghost predicate AllFound(ms: seq<Migration>, available: seq<Migration>) {
    forall i :: 0 <= i < |ms| ==> Find(available, ms[i].version) == Some(ms[i])
  }

  ghost predicate Restores(s: State, ms: seq<Migration>, s': State, available: seq<Migration>) {
    && PointsAtNewest(s')
    && Ascending(s'.applied.Keys) == Ascending(s.applied.Keys) + Versions(ms)
    && RollbackAll(s', Reverse(Versions(ms)), available) == (s, None)
  }

  lemma VersionsAppend(ms: seq<Migration>, m: Migration)
    ensures Versions(ms + [m]) == Versions(ms) + [m.version]
    ensures Reverse(Versions(ms) + [m.version]) == [m.version] + Reverse(Versions(ms))
  {
    assert (Versions(ms) + [m.version])[..|ms|] == Versions(ms);
  }

  /** Rolling back the last version first and then the others as before. */
  lemma RollbackOneMore(s: State, s1: State, s2: State, m: Migration, vs: seq<string>, available: seq<Migration>)
    requires Find(available, m.version) == Some(m) && RollbackOne(s2, m) == (s1, None)
    requires RollbackAll(s1, vs, available) == (s, None)
    ensures RollbackAll(s2, [m.version] + vs, available) == (s, None)
  {
    assert RollbackVersion(s2, m.version, available) == (s1, None);
    RollbackFront(s2, m.version, vs, available);
  }

  lemma RestoresStep(s: State, ms: seq<Migration>, s1: State, m: Migration, available: seq<Migration>,
                     broken: set<string>, now: int)
    requires Restores(s, ms, s1, available) && Find(available, m.version) == Some(m)
    requires NewerThanApplied(s1, m.version) && Undoes(m) && ApplyOne(s1, m, broken, now).1.None?
    ensures Restores(s, ms + [m], ApplyOne(s1, m, broken, now).0, available)
  {
    var s2 := ApplyOne(s1, m, broken, now).0;
    OneRoundTrip(s1, m, broken, now);
    VersionsAppend(ms, m);
    RollbackOneMore(s, s1, s2, m, Reverse(Versions(ms)), available);
    assert Ascending(s2.applied.Keys) == Ascending(s.applied.Keys) + (Versions(ms) + [m.version]);
  }

  lemma {:induction false} ApplyThenRollBack(
    s: State, ms: seq<Migration>, available: seq<Migration>, broken: set<string>, now: int)
    requires PointsAtNewest(s) && Upgrades(s, ms) && AllFound(ms, available)
    requires forall i :: 0 <= i < |ms| ==> Undoes(ms[i])
    requires ApplyAll(s, ms, broken, now).1.None?
    ensures Restores(s, ms, ApplyAll(s, ms, broken, now).0, available)
  {
    if ms == [] {
      assert Ascending(s.applied.Keys) + Versions(ms) == Ascending(s.applied.Keys);
    } else {
      var n := |ms| - 1;
      assert ms == ms[..n] + [ms[n]] && ms[..n + 1] == ms;
      LastIsNewer(s, ms, broken, now);
      ApplyAllStep(s, ms, n, broken, now);
      ApplyThenRollBack(s, ms[..n], available, broken, now);
      RestoresStep(s, ms[..n], ApplyAll(s, ms[..n], broken, now).0, ms[n], available, broken, now);
    }
  }

  lemma {:induction false} PendingSpec(applied: map<string, Metadata>, available: seq<Migration>)
    requires Increasing(Versions(available))
    ensures Increasing(Versions(Pending(applied, available)))
    ensures forall i :: 0 <= i < |Pending(applied, available)| ==>
                          Pending(applied, available)[i] in available &&
                          Pending(applied, available)[i].version !in applied
  {
    if available == [] {
    } else {
      var n := |available| - 1;
      var before := Pending(applied, available[..n]);
      assert forall i :: 0 <= i < n ==> Versions(available[..n])[i] == Versions(available)[i];
      PendingSpec(applied, available[..n]);
      forall i | 0 <= i < |before|
        ensures LexLess(before[i].version, available[n].version) && before[i] in available
      {
        var j :| 0 <= j < n && available[..n][j] == before[i];
        assert LexLess(Versions(available)[j], Versions(available)[n]);
      }
    }
  }

  lemma {:induction false} FindsItself(available: seq<Migration>, i: nat)
    requires Increasing(Versions(available)) && i < |available|
    ensures Find(available, available[i].version) == Some(available[i])
  {
    if i == 0 {
    } else {
      assert LexLess(Versions(available)[0], Versions(available)[i]);
      LexIrreflexive(available[i].version);
      assert forall j :: 0 <= j < |available| - 1 ==> Versions(available[1..])[j] == Versions(available)[j + 1];
      FindsItself(available[1..], i - 1);
    }
  }

  lemma PendingFound(applied: map<string, Metadata>, available: seq<Migration>)
    requires Increasing(Versions(available))
    ensures AllFound(Pending(applied, available), available)
  {
    PendingSpec(applied, available);
    var pending := Pending(applied, available);
    forall i | 0 <= i < |pending|
      ensures Find(available, pending[i].version) == Some(pending[i])
    {
      var j :| 0 <= j < |available| && available[j] == pending[i];
      FindsItself(available, j);
    }
  }

  /** The newest versions, newest first, are the ones listed last. */
  lemma NewestFirstOf(applied: map<string, Metadata>, older: seq<string>, newer: seq<string>)
    requires Ascending(applied.Keys) == older + newer
    ensures NewestFirst(applied, |newer|) == Reverse(newer)
  {
    ReverseConcat(older, newer);
  }

  /** Applying what is pending and rolling back as many restores data, records and current schema. */
  lemma MigrationRoundTrip(s: State, available: seq<Migration>, broken: set<string>, now: int)
    requires Increasing(Versions(available)) && PointsAtNewest(s)
    requires Pending(s.applied, available) != []
    requires forall i :: 0 <= i < |Pending(s.applied, available)| ==>
                           NewerThanApplied(s, Pending(s.applied, available)[i].version) &&
                           Undoes(Pending(s.applied, available)[i])
    requires ApplyPending(s, available, broken, now).1.None?
    ensures RollbackLast(ApplyPending(s, available, broken, now).0, |Pending(s.applied, available)|, available)
            == (s, None)
  {
    var pending := Pending(s.applied, available);
    var s' := ApplyPending(s, available, broken, now).0;
    PendingSpec(s.applied, available);
    PendingFound(s.applied, available);
    ApplyThenRollBack(s, pending, available, broken, now);
    NewestFirstOf(s'.applied, Ascending(s.applied.Keys), Versions(pending));
    AppliedAfter(s, pending, broken, now);
    assert pending[0].version in Versions(pending);
  }

  // ----- Which versions a rollback takes -----

  ghost function Elements(vs: seq<string>): set<string> {
    set v | v in vs
  }

  ghost predicate AllNewer(older: set<string>, added: set<string>) {
    forall o, a :: o in older && a in added ==> LexLess(o, a)
  }

  /** The versions picked for rollback are the end of the sorted listing. */
  lemma PickedAreLast(applied: map<string, Metadata>, cut: nat)
    requires cut <= |applied.Keys|
    ensures |Ascending(applied.Keys)| == |applied.Keys|
    ensures Elements(NewestFirst(applied, |applied.Keys| - cut)) == Elements(Ascending(applied.Keys)[cut..])
  {
    var sorted := Ascending(applied.Keys);
    AscendingSorts(applied.Keys);
    assert sorted == sorted[..cut] + sorted[cut..];
    NewestFirstOf(applied, sorted[..cut], sorted[cut..]);
    ReverseElements(sorted[cut..]);
  }

  lemma ReverseElements(vs: seq<string>)
    ensures Elements(Reverse(vs)) == Elements(vs)
  {
    forall v | v in vs
      ensures v in Reverse(vs)
    {
      var i :| 0 <= i < |vs| && vs[i] == v;
      assert Reverse(vs)[|vs| - 1 - i] == v;
    }
  }

  /**
   Rolling back as many versions as were just added picks exactly those if and only if
   each of them is newer than everything applied before.
   */
  lemma RollbackPicksAddedIffNewer(applied: map<string, Metadata>, older: set<string>, added: set<string>)
    requires older !! added && applied.Keys == older + added
    ensures Elements(NewestFirst(applied, |added|)) == added <==> AllNewer(older, added)
  {
    var sorted := Ascending(applied.Keys);
    assert |applied.Keys| == |older| + |added|;
    PickedAreLast(applied, |older|);
    if Elements(sorted[|older|..]) == added {
      PickedImpliesNewer(applied.Keys, older, added);
    } else if AllNewer(older, added) {
      SortedSplit(sorted, older, added);
    }
  }

  lemma PickedImpliesNewer(all: set<string>, older: set<string>, added: set<string>)
    requires older !! added && all == older + added && |older| <= |Ascending(all)|
    requires Elements(Ascending(all)[|older|..]) == added
    ensures AllNewer(older, added)
  {
    AscendingSorts(all);
    forall o, a | o in older && a in added
      ensures LexLess(o, a)
    {
      SplitOrders(Ascending(all), |older|, o, a);
    }
  }

  lemma SplitOrders(sorted: seq<string>, cut: nat, o: string, a: string)
    requires Increasing(sorted) && cut <= |sorted|
    requires o in sorted && o !in Elements(sorted[cut..]) && a in Elements(sorted[cut..])
    ensures LexLess(o, a)
  {
    assert sorted == sorted[..cut] + sorted[cut..];
    var i :| 0 <= i < cut && sorted[..cut][i] == o;
    var j :| 0 <= j < |sorted[cut..]| && sorted[cut..][j] == a;
    assert sorted[i] == o && sorted[cut + j] == a;
  }

  /** Listing the old versions and then the added ones is the sorted listing. */
  lemma SortedSplit(sorted: seq<string>, older: set<string>, added: set<string>)
    requires older !! added && sorted == Ascending(older + added)
    requires AllNewer(older, added)
    ensures |sorted| == |older| + |added|
    ensures Elements(sorted[|older|..]) == added
  {
    AscendingSorts(older);
    AscendingSorts(added);
    var listing := Ascending(older) + Ascending(added);
    IncreasingIsAscending(listing, older + added);
    assert sorted[|older|..] == Ascending(added);
  }

  // ----- Resuming after a failure -----

  /** Equal up to the times recorded in the metadata. */
  ghost predicate Same(a: State, b: State) {
    a.data == b.data && a.applied.Keys == b.applied.Keys && a.schema == b.schema
  }

  lemma ApplyOneRespects(a: State, b: State, m: Migration, broken: set<string>, now: int, later: int)
    requires Same(a, b)
    ensures Same(ApplyOne(a, m, broken, now).0, ApplyOne(b, m, broken, later).0)
    ensures ApplyOne(a, m, broken, now).1 == ApplyOne(b, m, broken, later).1
  {
  }

  lemma {:induction false} ApplyAllRespects(a: State, b: State, ms: seq<Migration>, broken: set<string>, now: int,
                                            later: int)
    requires Same(a, b)
    ensures Same(ApplyAll(a, ms, broken, now).0, ApplyAll(b, ms, broken, later).0)
    ensures ApplyAll(a, ms, broken, now).1 == ApplyAll(b, ms, broken, later).1
  {
    if ms == [] {
    } else {
      var n := |ms| - 1;
      ApplyAllRespects(a, b, ms[..n], broken, now, later);
      ApplyOneRespects(ApplyAll(a, ms[..n], broken, now).0, ApplyAll(b, ms[..n], broken, later).0,
                       ms[n], broken, now, later);
    }
  }

  lemma ApplyAllLast(s: State, ms: seq<Migration>, m: Migration, broken: set<string>, now: int)
    ensures ApplyAll(s, ms + [m], broken, now) == AfterOne(ApplyAll(s, ms, broken, now), m, broken, now)
  {
    assert (ms + [m])[..|ms|] == ms;
  }

  lemma {:induction false} ApplyAllSplit(s: State, a: seq<Migration>, b: seq<Migration>, broken: set<string>, now: int)
    requires ApplyAll(s, a, broken, now).1.None?
    ensures ApplyAll(s, a + b, broken, now) == ApplyAll(ApplyAll(s, a, broken, now).0, b, broken, now)
    decreases |b|
  {
    if b == [] {
      assert a + b == a;
    } else {
      var rest, last := b[..|b| - 1], b[|b| - 1];
      assert b == rest + [last] && a + b == (a + rest) + [last];
      ApplyAllSplit(s, a, rest, broken, now);
      ApplyAllLast(s, a + rest, last, broken, now);
      ApplyAllLast(ApplyAll(s, a, broken, now).0, rest, last, broken, now);
    }
  }

  /** The first `k` migrations went as in an unbroken run, and the next one, if any, failed. */
  ghost predicate StoppedAt(s: State, ms: seq<Migration>, k: nat, r: (State, Option<Error>), broken: set<string>,
                            now: int) {
    && k <= |ms|
    && ApplyAll(s, ms[..k], {}, now) == (r.0, None)
    && (r.1.None? <==> k == |ms|)
    && (k < |ms| ==> r.1 == ApplyOne(r.0, ms[k], broken, now).1)
  }

  lemma StoppedStep(s: State, ms: seq<Migration>, m: Migration, k: nat, r: (State, Option<Error>),
                    broken: set<string>, now: int)
    returns (k': nat)
    requires StoppedAt(s, ms, k, r, broken, now)
    ensures StoppedAt(s, ms + [m], k', AfterOne(r, m, broken, now), broken, now)
  {
    k' := k;
    assert (ms + [m])[..k] == ms[..k];
    if k == |ms| {
      assert ms[..k] == ms;
      if ApplyOne(r.0, m, broken, now).1.None? {
        ApplyAllLast(s, ms, m, {}, now);
        k' := k + 1;
        assert (ms + [m])[..k'] == ms + [m];
      }
    }
  }

  /** A run records exactly a prefix, as the unbroken run would, and fails at the next one. */
  lemma {:induction false} RecordsPrefix(s: State, ms: seq<Migration>, broken: set<string>, now: int) returns (k: nat)
    ensures StoppedAt(s, ms, k, ApplyAll(s, ms, broken, now), broken, now)
  {
    if ms == [] {
      k := 0;
      assert ms[..0] == [];
    } else {
      var n := |ms| - 1;
      assert ms == ms[..n] + [ms[n]];
      k := RecordsPrefix(s, ms[..n], broken, now);
      k := StoppedStep(s, ms[..n], ms[n], k, ApplyAll(s, ms[..n], broken, now), broken, now);
    }
  }

  /** What is pending later is pending among what was pending before. */
  lemma {:induction false} PendingOfPending(
    before: map<string, Metadata>, after: map<string, Metadata>, available: seq<Migration>)
    requires before.Keys <= after.Keys
    ensures Pending(after, available) == Pending(after, Pending(before, available))
  {
    if available == [] {
    } else {
      var n := |available| - 1;
      PendingOfPending(before, after, available[..n]);
      PendingAppend(after, Pending(before, available[..n]), available[n]);
    }
  }

  lemma PendingAppend(applied: map<string, Metadata>, ms: seq<Migration>, m: Migration)
    ensures Pending(applied, ms + [m]) == Pending(applied, ms) + if m.version in applied then [] else [m]
    ensures ms + [] == ms
  {
    assert (ms + [m])[..|ms|] == ms;
  }

  lemma {:induction false} PendingDrops(after: map<string, Metadata>, ms: seq<Migration>, k: nat)
    requires k <= |ms|
    requires forall i :: 0 <= i < |ms| ==> (ms[i].version in after <==> i < k)
    ensures Pending(after, ms) == ms[k..]
  {
    if ms == [] {
    } else {
      var n := |ms| - 1;
      PendingDrops(after, ms[..n], if k <= n then k else n);
    }
  }

  /** With the first `k` pending ones recorded, exactly the rest are pending. */
  lemma PendingAfterPrefix(
    before: map<string, Metadata>, after: map<string, Metadata>, available: seq<Migration>, k: nat)
    requires Increasing(Versions(available)) && k <= |Pending(before, available)|
    requires after.Keys == before.Keys + Elements(Versions(Pending(before, available)[..k]))
    ensures Pending(after, available) == Pending(before, available)[k..]
  {
    var pending := Pending(before, available);
    var vs := Versions(pending);
    PendingSpec(before, available);
    PendingOfPending(before, after, available);
    assert Versions(pending[..k]) == vs[..k];
    forall i | 0 <= i < |pending|
      ensures vs[i] in after <==> i < k
    {
      InFirst(vs, k, i);
    }
    PendingDrops(after, pending, k);
  }

  /** Of increasing versions exactly the first `k` are among the first `k`. */
  lemma InFirst(vs: seq<string>, k: nat, i: nat)
    requires Increasing(vs) && k <= |vs| && i < |vs|
    ensures vs[i] in Elements(vs[..k]) <==> i < k
  {
    if i < k {
      assert vs[..k][i] == vs[i];
    } else if vs[i] in vs[..k] {
      var j :| 0 <= j < k && vs[..k][j] == vs[i];
      assert LexLess(vs[j], vs[i]);
      LexIrreflexive(vs[i]);
    }
  }

  /**
   A run stopped by failing migrations, followed by a run in which nothing fails,
   ends like one unbroken run.
   */
  lemma ResumeEndsLikeUnbrokenRun(s: State, available: seq<Migration>, broken: set<string>, now: int, later: int)
    requires Increasing(Versions(available))
    ensures var stopped := ApplyPending(s, available, broken, now).0;
            var resumed := ApplyPending(stopped, available, {}, later);
            var unbroken := ApplyPending(s, available, {}, now);
            Same(resumed.0, unbroken.0) && resumed.1 == unbroken.1
  {
    var pending := Pending(s.applied, available);
    var stopped := ApplyPending(s, available, broken, now).0;
    var k := RecordsPrefix(s, pending, broken, now);
    AppliedAfter(s, pending[..k], {}, now);
    PendingAfterPrefix(s.applied, stopped.applied, available, k);
    RestIsUnbroken(s, stopped, pending, k, now, later);
  }

  /** What is left, applied later, ends as it would have at once. */
  lemma RestIsUnbroken(s: State, stopped: State, pending: seq<Migration>, k: nat, now: int, later: int)
    requires k <= |pending| && ApplyAll(s, pending[..k], {}, now) == (stopped, None)
    ensures var resumed, unbroken := ApplyAll(stopped, pending[k..], {}, later), ApplyAll(s, pending, {}, now);
            Same(resumed.0, unbroken.0) && resumed.1 == unbroken.1
  {
    assert pending == pending[..k] + pending[k..];
    ApplyAllSplit(s, pending[..k], pending[k..], {}, now);
    ApplyAllRespects(stopped, stopped, pending[k..], {}, later, now);
  }

  // ----- The current schema -----

  /** The current schema is absent exactly when nothing is applied, and else names an applied version. */
  ghost predicate CurrentSchemaInv(s: State) {
    && (s.schema.None? <==> s.applied == map[])
    && (s.schema.Some? ==> s.schema.value in s.applied)
  }

  datatype Op =
    | Apply(migration: Migration, fails: bool, now: int)
    | ApplyPendingOp(available: seq<Migration>, broken: set<string>, when: int)
    | Rollback(undone: Migration)
    | RollbackLastOp(count: nat, known: seq<Migration>)
    | Reset

  ghost function Step(s: State, op: Op): State {
    match op
    case Apply(m, fails, now) => ApplyOne(s, m, if fails then {m.version} else {}, now).0
    case ApplyPendingOp(available, broken, now) => ApplyPending(s, available, broken, now).0
    case Rollback(m) => RollbackOne(s, m).0
    case RollbackLastOp(count, available) => RollbackLast(s, count, available).0
    case Reset => s.(applied := map[], schema := None)
  }

  ghost function Run(data: Data, ops: seq<Op>): State {
    if ops == [] then State(data, map[], None) else Step(Run(data, ops[..|ops| - 1]), ops[|ops| - 1])
  }

  lemma {:induction false} ApplyAllKeepsCurrentSchema(s: State, ms: seq<Migration>, broken: set<string>, now: int)
    requires CurrentSchemaInv(s)
    ensures CurrentSchemaInv(ApplyAll(s, ms, broken, now).0)
  {
    if ms == [] {
    } else {
      ApplyAllKeepsCurrentSchema(s, ms[..|ms| - 1], broken, now);
    }
  }

  lemma RollbackOneKeepsCurrentSchema(s: State, m: Migration)
    requires CurrentSchemaInv(s)
    ensures CurrentSchemaInv(RollbackOne(s, m).0)
  {
  }

  lemma {:induction false} RollbackAllKeepsCurrentSchema(s: State, vs: seq<string>, available: seq<Migration>)
    requires CurrentSchemaInv(s)
    ensures CurrentSchemaInv(RollbackAll(s, vs, available).0)
  {
    if vs == [] {
    } else {
      var n := |vs| - 1;
      RollbackAllKeepsCurrentSchema(s, vs[..n], available);
      var s1 := RollbackAll(s, vs[..n], available).0;
      var m := Find(available, vs[n]);
      if m.Some? {
        RollbackOneKeepsCurrentSchema(s1, m.value);
      }
    }
  }

  /** In every run, whatever is applied, fails or is rolled back, the current schema stays right. */
  lemma {:induction false} CurrentSchemaAlwaysApplied(data: Data, ops: seq<Op>)
    ensures CurrentSchemaInv(Run(data, ops))
  {
    if ops == [] {
    } else {
      var n := |ops| - 1;
      var s := Run(data, ops[..n]);
      CurrentSchemaAlwaysApplied(data, ops[..n]);
      match ops[n] {
        case Apply(m, fails, now) =>
        case ApplyPendingOp(available, broken, now) =>
          ApplyAllKeepsCurrentSchema(s, Pending(s.applied, available), broken, now);
        case Rollback(m) => RollbackOneKeepsCurrentSchema(s, m);
        case RollbackLastOp(count, available) =>
          RollbackAllKeepsCurrentSchema(s, NewestFirst(s.applied, count), available);
        case Reset =>
      }
    }
  }

  /** After a migration the current schema is the newest version exactly when that migration is. */
  lemma CurrentSchemaNewestIffAppliedNewest(s: State, m: Migration, now: int)
    requires ApplyOne(s, m, {}, now).1.None?
    ensures PointsAtNewest(ApplyOne(s, m, {}, now).0) <==> NewerThanApplied(s, m.version)
  {
    var s' := ApplyOne(s, m, {}, now).0;
    assert s'.applied.Keys == s.applied.Keys + {m.version};
    if NewerThanApplied(s, m.version) {
      NewestIs(s'.applied.Keys, m.version);
    }
  }
}
