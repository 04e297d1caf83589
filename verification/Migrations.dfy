/**
 Schema migrations: applying pending ones in order, rolling back the newest ones,
 and the recorded state (applied versions and the current schema).
 */
module Migrations {
  import opened Wrappers
  import opened Text

  /** The stored data that migrations rewrite; the migration records are kept apart. */
  type Data = map<string, string>

  datatype Migration = Migration(
    version: string, description: string, checksum: string,
    up: Data -> Option<Data>, down: Data -> Option<Data>)

  datatype Metadata = Metadata(version: string, description: string, appliedAt: int, checksum: string)

  datatype State = State(data: Data, applied: map<string, Metadata>, schema: Option<string>)

  datatype Error =
    | InvalidVersion(version: string)
    | AlreadyApplied(version: string)
    | Failed(version: string)
    | NotFound(version: string)
    | RollbackFailed(version: string)
    | NothingToRollBack

  // ----- Versions -----

  /** YYYYMMDDHHMMSS with each part in its range. */
  predicate ValidVersion(v: string) {
    && |v| == 14
    && (forall i :: 0 <= i < 14 ==> IsDigit(v[i]))
    && 2020 <= Number(v[0..4]) <= 2100
    && 1 <= Number(v[4..6]) <= 12
    && 1 <= Number(v[6..8]) <= 31
    && Number(v[8..10]) < 24
    && Number(v[10..12]) < 60
    && Number(v[12..14]) < 60
  }

  ghost predicate IsNewest(vs: set<string>, m: string) {
    m in vs && forall x :: x in vs ==> x == m || LexLess(x, m)
  }

  lemma NewestWith(vs: set<string>, v: string, m: string) returns (newest: string)
    requires IsNewest(vs, m)
    ensures IsNewest(vs + {v}, newest)
  {
    newest := if LexLess(m, v) then v else m;
    LexTotal(v, m);
    forall x | x in vs
      ensures x == newest || LexLess(x, newest)
    {
      if x != m && LexLess(m, v) {
        LexTransitive(x, m, v);
      }
    }
  }

  lemma {:induction false} FindNewest(vs: set<string>) returns (newest: string)
    requires vs != {}
    ensures IsNewest(vs, newest)
  {
    var v :| v in vs;
    var rest := vs - {v};
    if rest == {} {
      newest := v;
      assert vs == {v};
    } else {
      var m := FindNewest(rest);
      newest := NewestWith(rest, v, m);
      assert vs == rest + {v};
    }
  }

  lemma NewestExists(vs: set<string>)
    requires vs != {}
    ensures exists m :: IsNewest(vs, m)
  {
    var m := FindNewest(vs);
  }

  ghost function Newest(vs: set<string>): (m: string)
    requires vs != {}
    ensures IsNewest(vs, m)
  {
    NewestExists(vs);
    var m :| IsNewest(vs, m);
    m
  }

  /** All versions, oldest first. */
  ghost function Ascending(vs: set<string>): seq<string> {
    if vs == {} then [] else Ascending(vs - {Newest(vs)}) + [Newest(vs)]
  }

  ghost predicate Increasing(vs: seq<string>) {
    forall i, j :: 0 <= i < j < |vs| ==> LexLess(vs[i], vs[j])
  }

  lemma {:induction false} AscendingSorts(vs: set<string>)
    ensures Increasing(Ascending(vs)) && |Ascending(vs)| == |vs|
    ensures forall v :: v in Ascending(vs) <==> v in vs
  {
    if vs == {} {
    } else {
      AscendingSorts(vs - {Newest(vs)});
    }
  }

  lemma NewestIs(vs: set<string>, m: string)
    requires IsNewest(vs, m)
    ensures Newest(vs) == m
  {
    if Newest(vs) != m {
      LexAsymmetric(m, Newest(vs));
    }
  }

  lemma AscendingAppend(vs: set<string>, v: string)
    requires v !in vs && forall x :: x in vs ==> LexLess(x, v)
    ensures Ascending(vs + {v}) == Ascending(vs) + [v]
  {
    NewestIs(vs + {v}, v);
    assert vs + {v} - {v} == vs;
  }

  /** Sorting has one answer: any increasing listing of the versions is the sorted one. */
  lemma {:induction false} IncreasingIsAscending(vs: seq<string>, all: set<string>)
    requires Increasing(vs) && forall v :: v in vs <==> v in all
    ensures vs == Ascending(all)
  {
    if vs == [] {
      assert all == {};
    } else {
      var n := |vs| - 1;
      var last := vs[n];
      assert last !in vs[..n] by {
        if last in vs[..n] {
          LexIrreflexive(last);
        }
      }
      assert vs == vs[..n] + [last];
      IncreasingIsAscending(vs[..n], all - {last});
      assert all == all - {last} + {last};
      AscendingAppend(all - {last}, last);
    }
  }

  // ----- Recorded state -----

  function MarkApplied(s: State, meta: Metadata): State {
    s.(applied := s.applied[meta.version := meta], schema := Some(meta.version))
  }

  ghost function NewestOf(applied: map<string, Metadata>): Option<string> {
    if applied == map[] then None else Some(Newest(applied.Keys))
  }

  /** Removing a record moves the current schema to the newest remaining version. */
  ghost function MarkUnapplied(s: State, version: string): State {
    var remaining := s.applied - {version};
    s.(applied := remaining, schema := NewestOf(remaining))
  }

  // ----- Applying -----

  function Pending(applied: map<string, Metadata>, available: seq<Migration>): seq<Migration> {
    if available == [] then []
    else
      var n := |available| - 1;
      Pending(applied, available[..n]) + if available[n].version in applied then [] else [available[n]]
  }

  /**
   One migration. `broken` are the versions whose `up` reports an error this time
   without having changed anything.
   */
  function ApplyOne(s: State, m: Migration, broken: set<string>, now: int): (State, Option<Error>) {
    if !ValidVersion(m.version) then (s, Some(InvalidVersion(m.version)))
    else if m.version in s.applied then (s, Some(AlreadyApplied(m.version)))
    else
      match (m.up)(s.data)
      case Some(data) =>
        if m.version in broken then (s, Some(Failed(m.version)))
        else (MarkApplied(s.(data := data), Metadata(m.version, m.description, now, m.checksum)), None)
      case None => (s, Some(Failed(m.version)))
  }

  /** Apply the migration unless there has been an error. */
  function AfterOne(r: (State, Option<Error>), m: Migration, broken: set<string>, now: int): (State, Option<Error>) {
    if r.1.Some? then r else ApplyOne(r.0, m, broken, now)
  }

  /** All of them in order, stopping at the first error. */
  function ApplyAll(s: State, ms: seq<Migration>, broken: set<string>, now: int): (State, Option<Error>) {
    if ms == [] then (s, None)
    else
      AfterOne(ApplyAll(s, ms[..|ms| - 1], broken, now), ms[|ms| - 1], broken, now)
  }

  function ApplyPending(s: State, available: seq<Migration>, broken: set<string>, now: int): (State, Option<Error>) {
    ApplyAll(s, Pending(s.applied, available), broken, now)
  }

  // ----- Rolling back -----

  function Find(available: seq<Migration>, version: string): (r: Option<Migration>)
    ensures r.Some? ==> r.value.version == version
  {
    if available == [] then None
    else if available[0].version == version then Some(available[0])
    else Find(available[1..], version)
  }

  ghost function RollbackOne(s: State, m: Migration): (State, Option<Error>) {
    if m.version !in s.applied then (s, Some(NotFound(m.version)))
    else
      match (m.down)(s.data)
      case None => (s, Some(RollbackFailed(m.version)))
      case Some(data) => (MarkUnapplied(s.(data := data), m.version), None)
  }

  ghost function RollbackVersion(s: State, version: string, available: seq<Migration>): (State, Option<Error>) {
    match Find(available, version)
    case None => (s, Some(NotFound(version)))
    case Some(m) => RollbackOne(s, m)
  }

  ghost function RollbackAll(s: State, versions: seq<string>, available: seq<Migration>): (State, Option<Error>) {
    if versions == [] then (s, None)
    else
      var n := |versions| - 1;
      var (s1, e) := RollbackAll(s, versions[..n], available);
      if e.Some? then (s1, e) else RollbackVersion(s1, versions[n], available)
  }

  function Reverse<T>(s: seq<T>): (r: seq<T>)
    ensures |r| == |s| && forall i :: 0 <= i < |s| ==> r[i] == s[|s| - 1 - i]
  {
    if s == [] then [] else [s[|s| - 1]] + Reverse(s[..|s| - 1])
  }

  ghost function NewestFirst(applied: map<string, Metadata>, count: nat): seq<string> {
    var all := Reverse(Ascending(applied.Keys));
    if count <= |all| then all[..count] else all
  }

  ghost function RollbackLast(s: State, count: nat, available: seq<Migration>): (State, Option<Error>) {
    if s.applied == map[] then (s, Some(NothingToRollBack))
    else RollbackAll(s, NewestFirst(s.applied, count), available)
  }

  function Versions(ms: seq<Migration>): (vs: seq<string>)
    ensures |vs| == |ms| && forall i :: 0 <= i < |ms| ==> vs[i] == ms[i].version
  {
    seq(|ms|, i requires 0 <= i < |ms| => ms[i].version)
  }

  /** One more migration: applied only when everything before went well. */
  lemma ApplyAllStep(s: State, ms: seq<Migration>, i: nat, broken: set<string>, now: int)
    requires i < |ms|
    ensures ApplyAll(s, ms[..i + 1], broken, now) == AfterOne(ApplyAll(s, ms[..i], broken, now), ms[i], broken, now)
  {
    assert ms[..i + 1][..i] == ms[..i];
  }

  lemma VersionsStep(ms: seq<Migration>, i: nat)
    requires i < |ms|
    ensures Versions(ms[..i + 1]) == Versions(ms[..i]) + [ms[i].version]
  {
  }

  // ----- The stateful runner -----

  class MigrationRunner {
    var data: Data
    var applied: map<string, Metadata>
    var schema: Option<string>

    constructor (data: Data)
      ensures Current() == State(data, map[], None)
    {
      this.data := data;
      applied := map[];
      schema := None;
    }

    ghost function Current(): State
      reads this
    {
      State(data, applied, schema)
    }

    /** Collects the recorded versions in any order and sorts them by insertion. */
    method GetAppliedMigrations() returns (versions: seq<string>)
      ensures versions == Ascending(applied.Keys)
    {
      versions := [];
      var rest := applied.Keys;
      while rest != {}
        invariant rest <= applied.Keys
        invariant Increasing(versions)
        invariant forall v :: v in versions <==> v in applied.Keys && v !in rest
        decreases rest
      {
        var v :| v in rest;
        rest := rest - {v};
        versions := Insert(versions, v);
      }
      IncreasingIsAscending(versions, applied.Keys);
    }

    method ApplyMigration(m: Migration, broken: set<string>, now: int) returns (e: Option<Error>)
      modifies this
      ensures (Current(), e) == ApplyOne(old(Current()), m, broken, now)
    {
      if !ValidVersion(m.version) {
        return Some(InvalidVersion(m.version));
      }
      if m.version in applied {
        return Some(AlreadyApplied(m.version));
      }
      var result := (m.up)(data);
      if result.None? || m.version in broken {
        return Some(Failed(m.version));
      }
      data := result.value;
      applied := applied[m.version := Metadata(m.version, m.description, now, m.checksum)];
      schema := Some(m.version);
      return None;
    }

    method GetPendingMigrations(available: seq<Migration>) returns (pending: seq<Migration>)
      ensures pending == Pending(applied, available)
    {
      pending := [];
      for i := 0 to |available|
        invariant pending == Pending(applied, available[..i])
      {
        assert available[..i + 1][..i] == available[..i];
        if available[i].version !in applied {
          pending := pending + [available[i]];
        }
      }
      assert available[..|available|] == available;
    }

    method ApplyPendingMigrations(available: seq<Migration>, broken: set<string>, now: int)
      returns (r: Result<seq<string>, Error>)
      modifies this
      ensures Current() == ApplyPending(old(Current()), available, broken, now).0
      ensures match ApplyPending(old(Current()), available, broken, now).1
              case None => r == Ok(Versions(Pending(old(applied), available)))
              case Some(e) => r == Err(e)
    {
      var pending := GetPendingMigrations(available);
      var versions := [];
      for i := 0 to |pending|
        invariant (Current(), None) == ApplyAll(old(Current()), pending[..i], broken, now)
        invariant versions == Versions(pending[..i])
      {
        ApplyAllStep(old(Current()), pending, i, broken, now);
        VersionsStep(pending, i);
        var e := ApplyMigration(pending[i], broken, now);
        if e.Some? {
          FirstErrorStays(old(Current()), pending, broken, now, i + 1);
          return Err(e.value);
        }
        versions := versions + [pending[i].version];
      }
      assert pending[..|pending|] == pending;
      return Ok(versions);
    }

    method RollbackMigration(m: Migration) returns (e: Option<Error>)
      modifies this
      ensures (Current(), e) == RollbackOne(old(Current()), m)
    {
      if m.version !in applied {
        return Some(NotFound(m.version));
      }
      var result := (m.down)(data);
      if result.None? {
        return Some(RollbackFailed(m.version));
      }
      data := result.value;
      applied := applied - {m.version};
      var remaining := GetAppliedMigrations();
      AscendingSorts(applied.Keys);
      if remaining == [] {
        schema := None;
        assert applied == map[];
      } else {
        schema := Some(remaining[|remaining| - 1]);
      }
      return None;
    }

    method RollbackNewest(count: nat, available: seq<Migration>) returns (r: Result<nat, Error>)
      modifies this
      ensures Current() == RollbackLast(old(Current()), count, available).0
      ensures match RollbackLast(old(Current()), count, available).1
              case None => r == Ok(|NewestFirst(old(applied), count)|)
              case Some(e) => r == Err(e)
    {
      var versions := NewestVersions(count);
      if applied == map[] {
        return Err(NothingToRollBack);
      }
      var e := RollbackVersions(versions, available);
      return if e.Some? then Err(e.value) else Ok(|versions|);
    }

    method NewestVersions(count: nat) returns (versions: seq<string>)
      ensures versions == NewestFirst(applied, count)
    {
      var all := GetAppliedMigrations();
      versions := Reverse(all);
      if count <= |versions| {
        versions := versions[..count];
      }
    }

    method RollbackVersions(versions: seq<string>, available: seq<Migration>) returns (e: Option<Error>)
      modifies this
      ensures (Current(), e) == RollbackAll(old(Current()), versions, available)
    {
      for i := 0 to |versions|
        invariant (Current(), None) == RollbackAll(old(Current()), versions[..i], available)
      {
        assert versions[..i + 1][..i] == versions[..i];
        var m := Find(available, versions[i]);
        if m.None? {
          FirstRollbackErrorStays(old(Current()), versions, available, i + 1);
          return Some(NotFound(versions[i]));
        }
        e := RollbackMigration(m.value);
        if e.Some? {
          FirstRollbackErrorStays(old(Current()), versions, available, i + 1);
          return;
        }
      }
      assert versions[..|versions|] == versions;
      return None;
    }

    method Reset()
      modifies this
      ensures Current() == old(Current()).(applied := map[], schema := None)
    {
      applied := map[];
      schema := None;
    }
  }

  method Insert(versions: seq<string>, v: string) returns (r: seq<string>)
    requires Increasing(versions) && v !in versions
    ensures Increasing(r)
    ensures forall x :: x in r <==> x in versions || x == v
  {
    var i := |versions|;
    while i > 0 && !LexLess(versions[i - 1], v)
      invariant 0 <= i <= |versions|
      invariant forall j :: i <= j < |versions| ==> LexLess(v, versions[j])
    {
      i := i - 1;
      LexTotal(versions[i], v);
    }
    r := versions[..i] + [v] + versions[i..];
    forall j | 0 <= j < i
      ensures LexLess(versions[j], v)
    {
      if j < i - 1 {
        LexTransitive(versions[j], versions[i - 1], v);
      }
    }
  }

  lemma {:induction false} FirstErrorStays(s: State, ms: seq<Migration>, broken: set<string>, now: int, i: nat)
    requires i <= |ms| && ApplyAll(s, ms[..i], broken, now).1.Some?
    ensures ApplyAll(s, ms, broken, now) == ApplyAll(s, ms[..i], broken, now)
    decreases |ms| - i
  {
    if i == |ms| {
      assert ms[..i] == ms;
    } else {
      assert ms[..i + 1][..i] == ms[..i];
      FirstErrorStays(s, ms, broken, now, i + 1);
    }
  }

  lemma {:induction false} FirstRollbackErrorStays(s: State, vs: seq<string>, available: seq<Migration>, i: nat)
    requires i <= |vs| && RollbackAll(s, vs[..i], available).1.Some?
    ensures RollbackAll(s, vs, available) == RollbackAll(s, vs[..i], available)
    decreases |vs| - i
  {
    if i == |vs| {
      assert vs[..i] == vs;
    } else {
      assert vs[..i + 1][..i] == vs[..i];
      FirstRollbackErrorStays(s, vs, available, i + 1);
    }
  }

  // ----- Versions are times -----

  /** A version is valid exactly when its digits are a date and a time, read off its value. */
  lemma VersionByNumber(v: string)
    requires |v| == 14 && AllDigits(v)
    ensures var n := Number(v);
            ValidVersion(v) <==>
            && 2020 <= n / 10000000000 <= 2100 && 1 <= n / 100000000 % 100 <= 12 && 1 <= n / 1000000 % 100 <= 31
            && n / 10000 % 100 < 24 && n / 100 % 100 < 60 && n % 100 < 60
  {
    VersionValue(v);
    PartsOf(Number(v[0..4]), Number(v[4..6]), Number(v[6..8]), Number(v[8..10]), Number(v[10..12]), Number(v[12..14]),
            Number(v));
  }

  lemma VersionValue(v: string)
    requires |v| == 14 && AllDigits(v)
    ensures Number(v[4..6]) < 100 && Number(v[6..8]) < 100 && Number(v[8..10]) < 100
    ensures Number(v[10..12]) < 100 && Number(v[12..14]) < 100
    ensures Number(v) == Number(v[0..4]) * 10000000000 +
                         (Number(v[4..6]) * 100000000 + (Number(v[6..8]) * 1000000 +
                         (Number(v[8..10]) * 10000 + (Number(v[10..12]) * 100 + Number(v[12..14])))))
  {
    PowersOfTen();
    CutNumber(v, 0, 4, 10000000000, 10000);
    CutNumber(v, 4, 6, 100000000, 100);
    CutNumber(v, 6, 8, 1000000, 100);
    assert v[0..] == v;
    TimeValue(v);
  }

  lemma TimeValue(v: string)
    requires |v| == 14 && AllDigits(v)
    ensures Number(v[8..10]) < 100 && Number(v[10..12]) < 100 && Number(v[12..14]) < 100
    ensures Number(v[8..]) == Number(v[8..10]) * 10000 + (Number(v[10..12]) * 100 + Number(v[12..14]))
  {
    PowersOfTen();
    CutNumber(v, 8, 10, 10000, 100);
    CutNumber(v, 10, 12, 100, 100);
    assert v[12..] == v[12..14];
    NumberBelow(v[12..14]);
  }

  /** The value of what follows a position, cut once more. */
  lemma CutNumber(v: string, i: nat, j: nat, rest: nat, part: nat)
    requires AllDigits(v) && i <= j <= |v| && rest == Pow10(|v| - j) && part == Pow10(j - i)
    ensures Number(v[i..]) == Number(v[i..j]) * rest + Number(v[j..]) && Number(v[i..j]) < part
  {
    assert v[i..] == v[i..j] + v[j..];
    NumberConcat(v[i..j], v[j..]);
    NumberBelow(v[i..j]);
  }

  lemma PowersOfTen()
    ensures Pow10(0) == 1 && Pow10(2) == 100 && Pow10(4) == 10000 && Pow10(6) == 1000000 && Pow10(8) == 100000000
    ensures Pow10(10) == 10000000000
  {
    assert Pow10(1) == 10 && Pow10(3) == 1000 && Pow10(5) == 100000 && Pow10(7) == 10000000 && Pow10(9) == 1000000000;
  }

  lemma PartsOf(y: nat, mo: nat, d: nat, h: nat, mi: nat, s: nat, n: nat)
    requires mo < 100 && d < 100 && h < 100 && mi < 100 && s < 100
    requires n == y * 10000000000 + (mo * 100000000 + (d * 1000000 + (h * 10000 + (mi * 100 + s))))
    ensures n / 10000000000 == y && n / 100000000 % 100 == mo && n / 1000000 % 100 == d
    ensures n / 10000 % 100 == h && n / 100 % 100 == mi && n % 100 == s
  {
    assert n / 100 == y * 100000000 + (mo * 1000000 + (d * 10000 + (h * 100 + mi)));
    assert n / 10000 == y * 1000000 + (mo * 10000 + (d * 100 + h));
    assert n / 1000000 == y * 10000 + (mo * 100 + d);
    assert n / 100000000 == y * 100 + mo;
  }

  /** Nothing but fourteen digits is a version. */
  lemma VersionsAreDigits(v: string)
    requires ValidVersion(v)
    ensures |v| == 14 && AllDigits(v)
  {
  }

  ghost predicate AllVersions(vs: set<string>) {
    forall v :: v in vs ==> ValidVersion(v)
  }

  /** Versions are listed by time, the earliest first. */
  lemma ListedByTime(vs: set<string>, i: nat, j: nat)
    requires AllVersions(vs) && i < j < |Ascending(vs)|
    ensures Ascending(vs)[i] in vs && Ascending(vs)[j] in vs
    ensures Number(Ascending(vs)[i]) < Number(Ascending(vs)[j])
  {
    AscendingSorts(vs);
    var a, b := Ascending(vs)[i], Ascending(vs)[j];
    assert a in Ascending(vs) && b in Ascending(vs);
    LexIsNumeric(a, b);
  }

  /** The newest version is the one with the latest time. */
  lemma NewestIsLatest(vs: set<string>, m: string)
    requires AllVersions(vs) && m in vs
    ensures IsNewest(vs, m) <==> forall x :: x in vs ==> Number(x) <= Number(m)
  {
    forall x | x in vs
      ensures (x == m || LexLess(x, m)) <==> Number(x) <= Number(m)
    {
      LexIsNumeric(x, m);
      LexIsNumeric(m, x);
      LexTotal(x, m);
    }
  }

  /** The listing holds exactly the versions, the earliest first. */
  ghost predicate Chronological(up: seq<string>, vs: set<string>) {
    && |up| == |vs| && (forall v :: v in up <==> v in vs)
    && (forall i :: 0 <= i < |up| ==> AllDigits(up[i]))
    && forall i, j :: 0 <= i < j < |up| ==> Number(up[i]) < Number(up[j])
  }

  lemma ListIsChronological(vs: set<string>)
    requires AllVersions(vs)
    ensures Chronological(Ascending(vs), vs)
  {
    AscendingSorts(vs);
    var up := Ascending(vs);
    forall i | 0 <= i < |up|
      ensures AllDigits(up[i])
    {
      assert up[i] in up;
    }
    forall i, j | 0 <= i < j < |up|
      ensures Number(up[i]) < Number(up[j])
    {
      ListedByTime(vs, i, j);
    }
  }

  lemma {:induction false} ReverseConcat(a: seq<string>, b: seq<string>)
    ensures Reverse(a + b) == Reverse(b) + Reverse(a)
  {
    if b == [] {
      assert a + b == a && Reverse(b) + Reverse(a) == Reverse(a);
    } else {
      var rest, last := b[..|b| - 1], b[|b| - 1];
      assert (a + b)[..|a| + |rest|] == a + rest;
      ReverseConcat(a, rest);
      assert [last] + (Reverse(rest) + Reverse(a)) == ([last] + Reverse(rest)) + Reverse(a);
    }
  }

  lemma FrontOfReverse(up: seq<string>, c: nat)
    requires c <= |up|
    ensures Reverse(up)[..c] == Reverse(up[|up| - c..])
  {
    var older, newer := up[..|up| - c], up[|up| - c..];
    assert up == older + newer;
    ReverseConcat(older, newer);
  }

  /** The first `count` of the listing read backwards, or all of it. */
  function Taken(up: seq<string>, count: nat): seq<string> {
    if count <= |Reverse(up)| then Reverse(up)[..count] else Reverse(up)
  }

  lemma EndReversed(up: seq<string>, count: nat)
    ensures Taken(up, count) == Reverse(up[if count < |up| then |up| - count else 0..])
  {
    if count < |up| {
      FrontOfReverse(up, count);
    } else {
      assert up[0..] == up && Reverse(up)[..|up|] == Reverse(up);
    }
  }

  /** A rollback takes the end of the listing, read backwards. */
  lemma RollbackTakesLatest(applied: map<string, Metadata>, count: nat)
    ensures var up := Ascending(applied.Keys);
            NewestFirst(applied, count) == Reverse(up[if count < |up| then |up| - count else 0..])
  {
    EndReversed(Ascending(applied.Keys), count);
  }

  /** The later year is the newer version. */
  lemma LaterYearIsNewer(v: string, w: string)
    requires ValidVersion(v) && ValidVersion(w) && Number(v[0..4]) < Number(w[0..4])
    ensures LexLess(v, w)
  {
    assert v == v[0..4] + v[4..] && w == w[0..4] + w[4..];
    NumberConcat(v[0..4], v[4..]);
    NumberConcat(w[0..4], w[4..]);
    NumberBelow(v[4..]);
    NumberBelow(w[4..]);
    LeadDecides(Number(v[0..4]), Number(w[0..4]), Number(v[4..]), Number(w[4..]), Pow10(10));
    LexIsNumeric(v, w);
  }

  // ----- What the operations answer -----

  /** Which error stops a migration, and what a success records. */
  lemma ApplyOutcome(s: State, m: Migration, broken: set<string>, now: int)
    ensures var (s', e) := ApplyOne(s, m, broken, now);
            && (e.Some? ==> s' == s)
            && (e == Some(InvalidVersion(m.version)) <==> !ValidVersion(m.version))
            && (e == Some(AlreadyApplied(m.version)) <==> ValidVersion(m.version) && m.version in s.applied)
            && (e == Some(Failed(m.version)) <==>
                && ValidVersion(m.version) && m.version !in s.applied
                && ((m.up)(s.data).None? || m.version in broken))
            && (e.None? ==>
                  && (m.up)(s.data) == Some(s'.data) && s'.schema == Some(m.version)
                  && s'.applied == s.applied[m.version := Metadata(m.version, m.description, now, m.checksum)])
  {
  }

  /** Of several migrations with one version the first in the list is taken. */
  lemma {:induction false} FindIsFirst(available: seq<Migration>, version: string, k: nat)
    requires k <= |available| && forall i :: 0 <= i < k ==> available[i].version != version
    ensures k == |available| ==> Find(available, version).None?
    ensures k < |available| && available[k].version == version ==> Find(available, version) == Some(available[k])
    decreases k
  {
    if k > 0 {
      FindIsFirst(available[1..], version, k - 1);
    }
  }

  /** Which error stops a rollback, and what a success leaves. */
  lemma RollbackOutcome(s: State, m: Migration)
    ensures var (s', e) := RollbackOne(s, m);
            && (e.Some? ==> s' == s)
            && (e == Some(NotFound(m.version)) <==> m.version !in s.applied)
            && (e == Some(RollbackFailed(m.version)) <==> m.version in s.applied && (m.down)(s.data).None?)
            && (e.None? ==>
                  && (m.down)(s.data) == Some(s'.data) && s'.applied == s.applied - {m.version}
                  && (s'.applied == map[] <==> s'.schema.None?)
                  && (s'.schema.Some? ==> IsNewest(s'.applied.Keys, s'.schema.value)))
  {
  }
}
