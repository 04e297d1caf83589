/** The per-peer message window: a fixed window that restarts at the first late call. */
module PeerWindow {
  const MAX_MESSAGES_PER_MINUTE := 100
  const WINDOW_SECONDS := 60

  datatype Tracker = Tracker(count: nat, windowStart: nat)

  function NewTracker(now: nat): Tracker {
    Tracker(0, now)
  }

  /** Seconds since the window start in unsigned 64-bit arithmetic, which wraps around. */
  function Elapsed(start: nat, now: nat): int {
    if start <= now then now - start else now - start + 0x1_0000_0000_0000_0000
  }

  /** The tracker once the window that `now` falls into is open. */
  function Opened(t: Tracker, now: nat): Tracker {
    if Elapsed(t.windowStart, now) >= WINDOW_SECONDS then Tracker(0, now) else t
  }

  predicate Admits(t: Tracker, now: nat) {
    Opened(t, now).count < MAX_MESSAGES_PER_MINUTE
  }

  function Counted(t: Tracker, now: nat): Tracker {
    var o := Opened(t, now);
    if Admits(t, now) then o.(count := o.count + 1) else o
  }

  class RateLimitTracker {
    var messageCount: nat
    var windowStart: nat

    ghost function State(): Tracker
      reads this
    {
      Tracker(messageCount, windowStart)
    }

    constructor (now: nat)
      ensures State() == NewTracker(now)
    {
      messageCount, windowStart := 0, now;
    }

    method CheckAndIncrement(now: nat) returns (admitted: bool)
      modifies this
      ensures admitted == Admits(old(State()), now)
      ensures State() == Counted(old(State()), now)
    {
      if Elapsed(windowStart, now) >= WINDOW_SECONDS {
        messageCount := 0;
        windowStart := now;
      }
      if messageCount < MAX_MESSAGES_PER_MINUTE {
        messageCount := messageCount + 1;
        admitted := true;
      } else {
        admitted := false;
      }
    }
  }

  // ----- Sequences of calls -----

  /** Call times never go back, and never before the tracker's window. */
  ghost predicate Timely(t: Tracker, times: seq<nat>) {
    && (forall i :: 0 <= i < |times| ==> t.windowStart <= times[i])
    && (forall i, j :: 0 <= i < j < |times| ==> times[i] <= times[j])
  }

  lemma TimelyStep(t: Tracker, times: seq<nat>)
    requires times != [] && Timely(t, times)
    ensures Timely(Counted(t, times[0]), times[1..])
  {
    var rest := times[1..];
    assert forall i :: 0 <= i < |rest| ==> rest[i] == times[i + 1];
  }

  /** How many of the calls are made in the window opened at `w`. */
  function CallsIn(t: Tracker, times: seq<nat>, w: nat): nat
    decreases |times|
  {
    if times == [] then 0
    else
      (if Opened(t, times[0]).windowStart == w then 1 else 0) + CallsIn(Counted(t, times[0]), times[1..], w)
  }

  /** How many of the calls made in the window opened at `w` are admitted. */
  function AdmittedIn(t: Tracker, times: seq<nat>, w: nat): nat
    decreases |times|
  {
    if times == [] then 0
    else
      (if Opened(t, times[0]).windowStart == w && Admits(t, times[0]) then 1 else 0) +
      AdmittedIn(Counted(t, times[0]), times[1..], w)
  }

  /** How many calls are admitted at times from `from` up to, not including, `until`. */
  function AdmittedBetween(t: Tracker, times: seq<nat>, from: nat, until: nat): nat
    decreases |times|
  {
    if times == [] then 0
    else
      (if from <= times[0] < until && Admits(t, times[0]) then 1 else 0) +
      AdmittedBetween(Counted(t, times[0]), times[1..], from, until)
  }

  function Min(a: int, b: int): int {
    if a < b then a else b
  }

  /** What the window opened at `w` still has to give, seen from tracker `t`. */
  function RoomIn(t: Tracker, w: nat): int {
    if t.windowStart == w then MAX_MESSAGES_PER_MINUTE - t.count else MAX_MESSAGES_PER_MINUTE
  }

  /** Each window admits exactly its first calls, up to the room it has. */
  lemma {:induction false} WindowAdmitsItsRoom(t: Tracker, times: seq<nat>, w: nat)
    requires Timely(t, times) && t.count <= MAX_MESSAGES_PER_MINUTE
    ensures w < t.windowStart ==> CallsIn(t, times, w) == 0
    ensures AdmittedIn(t, times, w) == Min(RoomIn(t, w), CallsIn(t, times, w))
    decreases |times|
  {
    if times == [] {
    } else {
      TimelyStep(t, times);
      WindowAdmitsItsRoom(Counted(t, times[0]), times[1..], w);
    }
  }

  /** From a new tracker every window admits its first hundred calls and no other. */
  lemma WindowAdmitsFirstHundred(start: nat, times: seq<nat>, w: nat)
    requires Timely(NewTracker(start), times)
    ensures AdmittedIn(NewTracker(start), times, w) == Min(100, CallsIn(NewTracker(start), times, w))
  {
    WindowAdmitsItsRoom(NewTracker(start), times, w);
  }

  lemma {:induction false} NothingBeforeStart(t: Tracker, times: seq<nat>, from: nat, until: nat)
    requires Timely(t, times) && (times != [] ==> until <= times[0])
    ensures AdmittedBetween(t, times, from, until) == 0
    decreases |times|
  {
    if times == [] {
    } else {
      TimelyStep(t, times);
      NothingBeforeStart(Counted(t, times[0]), times[1..], from, until);
    }
  }

  /** Calls that all fall into the tracker's open window share its remaining room. */
  lemma {:induction false} WithinOpenWindow(t: Tracker, times: seq<nat>, from: nat, until: nat)
    requires Timely(t, times) && t.count <= MAX_MESSAGES_PER_MINUTE
    requires until <= t.windowStart + WINDOW_SECONDS
    ensures AdmittedBetween(t, times, from, until) <= MAX_MESSAGES_PER_MINUTE - t.count
    decreases |times|
  {
    if times == [] {
    } else {
      TimelyStep(t, times);
      if times[0] < until {
        WithinOpenWindow(Counted(t, times[0]), times[1..], from, until);
      } else {
        NothingBeforeStart(t, times, from, until);
      }
    }
  }

  /** A span of at most sixty seconds meets the open window and at most one more. */
  lemma {:induction false} FromOpenWindow(t: Tracker, times: seq<nat>, from: nat, until: nat)
    requires Timely(t, times) && t.count <= MAX_MESSAGES_PER_MINUTE
    requires until <= from + WINDOW_SECONDS && (times != [] ==> from <= times[0])
    ensures AdmittedBetween(t, times, from, until) <= 2 * MAX_MESSAGES_PER_MINUTE - t.count
    decreases |times|
  {
    if times == [] {
    } else {
      TimelyStep(t, times);
      var next := Counted(t, times[0]);
      if next.windowStart == t.windowStart {
        FromOpenWindow(next, times[1..], from, until);
      } else {
        WithinOpenWindow(next, times[1..], from, until);
      }
    }
  }

  /** Any span of at most sixty seconds admits at most two hundred calls. */
  lemma {:induction false} SpanBound(t: Tracker, times: seq<nat>, from: nat, until: nat)
    requires Timely(t, times) && t.count <= 100
    requires until <= from + 60
    ensures AdmittedBetween(t, times, from, until) <= 200
    decreases |times|
  {
    if times != [] && times[0] < from {
      TimelyStep(t, times);
      SpanBound(Counted(t, times[0]), times[1..], from, until);
    } else {
      FromOpenWindow(t, times, from, until);
    }
  }

  /** Once a call has been counted, a span admits one less than two full windows. */
  lemma {:induction false} CountedSpanBound(t: Tracker, times: seq<nat>, from: nat, until: nat)
    requires Timely(t, times) && 1 <= t.count <= MAX_MESSAGES_PER_MINUTE
    requires until <= from + WINDOW_SECONDS
    ensures AdmittedBetween(t, times, from, until) <= 2 * MAX_MESSAGES_PER_MINUTE - 1
    decreases |times|
  {
    if times != [] && times[0] < from {
      TimelyStep(t, times);
      CountedSpanBound(Counted(t, times[0]), times[1..], from, until);
    } else {
      FromOpenWindow(t, times, from, until);
    }
  }

  /** The same for a tracker that its first call opens. */
  lemma OpenedSpanBound(times: seq<nat>, from: nat, until: nat)
    requires Timely(Tracker(0, 0), times) && until <= from + WINDOW_SECONDS
    ensures AdmittedBetween(NewTracker(if times == [] then 0 else times[0]), times, from, until) <=
            2 * MAX_MESSAGES_PER_MINUTE - 1
  {
    if times != [] {
      var t := NewTracker(times[0]);
      assert Timely(t, times);
      if times[0] < from {
        TimelyStep(t, times);
        CountedSpanBound(Counted(t, times[0]), times[1..], from, until);
      } else {
        WithinOpenWindow(t, times, from, until);
      }
    }
  }

  // ----- The bound of two hundred is reached -----

  lemma {:induction false} BurstAdmitted(t: Tracker, n: nat, now: nat, from: nat, until: nat, rest: seq<nat>)
    requires t.windowStart <= now < t.windowStart + WINDOW_SECONDS && from <= now < until
    requires t.count + n <= MAX_MESSAGES_PER_MINUTE
    ensures AdmittedBetween(t, seq(n, _ => now) + rest, from, until) ==
            n + AdmittedBetween(t.(count := t.count + n), rest, from, until)
    decreases n
  {
    var times := seq(n, _ => now) + rest;
    if n == 0 {
      assert times == rest;
    } else {
      assert times[1..] == seq(n - 1, _ => now) + rest;
      BurstAdmitted(t.(count := t.count + 1), n - 1, now, from, until, rest);
    }
  }

  /** A hundred calls in the last second of a window and a hundred in the next second all pass. */
  lemma TwoHundredInTwoSeconds(start: nat)
    ensures var last := start + WINDOW_SECONDS - 1;
            var times := seq(100, _ => last) + seq(100, _ => last + 1);
            && Timely(NewTracker(start), times)
            && AdmittedBetween(NewTracker(start), times, last, last + 2) == 2 * MAX_MESSAGES_PER_MINUTE
  {
    var last := start + WINDOW_SECONDS - 1;
    var second := seq(100, _ => last + 1);
    BurstAdmitted(NewTracker(start), 100, last, last, last + 2, second);
    var others := seq(99, _ => last + 1);
    assert second[1..] == others == others + [];
    BurstAdmitted(Tracker(1, last + 1), 99, last + 1, last, last + 2, []);
  }

  /** The first call that is sixty seconds late opens the next window, and no earlier one does. */
  lemma WindowOpensAfterSixtySeconds(t: Tracker, now: nat)
    requires t.windowStart <= now
    ensures Counted(t, now).windowStart == if now < t.windowStart + 60 then t.windowStart else now
    ensures now >= t.windowStart + 60 ==> Counted(t, now).count == 1
  {
  }

  /** A clock that has gone back opens a window too, since the unsigned difference wraps around. */
  lemma BackwardClockOpensWindow(t: Tracker, now: nat)
    requires now < t.windowStart < 0x1_0000_0000_0000_0000 - 60
    ensures Counted(t, now) == Tracker(1, now)
  {
  }
}
