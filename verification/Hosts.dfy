/**
 Reputation and message windows are kept per socket address, and every connection
 comes from a port of its own. What that means for one host.
 */
module Hosts {
  import opened Wrappers
  import opened Config
  import opened Blocks
  import opened Ledger
  import opened PeerWindow
  import opened Peers
  import Text

  lemma AddressInjective(host: string, p: nat, q: nat)
    requires Address(host, p) == Address(host, q)
    ensures p == q
  {
    Text.SuffixedKeyInjective(host, p, host, q);
  }

  // ----- The bound for a host -----

  /** A message of the host is read in the span, from whatever port. */
  predicate HostReads(g: Setting, s: State, e: Event, host: string, from: nat, until: nat) {
    e.Incoming? && e.host == host && Reads(g, s, e, Address(host, e.port), from, until)
  }

  ghost function HostReadBetween(g: Setting, s: State, events: seq<Event>, host: string, from: nat, until: nat): nat
    requires Valid(g.cfg)
    decreases |events|
  {
    if events == [] then 0
    else
      (if HostReads(g, s, events[0], host, from, until) then 1 else 0) +
      HostReadBetween(g, Next(g, s, events[0]), events[1..], host, from, until)
  }

  /** The reads of several ports, added up. */
  ghost function PortsRead(g: Setting, s: State, events: seq<Event>, host: string, ports: seq<nat>, from: nat,
                           until: nat): nat
    requires Valid(g.cfg)
    decreases |ports|
  {
    if ports == [] then 0
    else
      PortsRead(g, s, events, host, ports[..|ports| - 1], from, until) +
      ReadBetween(g, s, events, Address(host, ports[|ports| - 1]), from, until)
  }

  ghost predicate NoRepeats(ports: seq<nat>) {
    forall i, j :: 0 <= i < j < |ports| ==> ports[i] != ports[j]
  }

  /** The host's messages come from these ports, and nobody else uses its addresses. */
  ghost predicate Uses(events: seq<Event>, host: string, ports: seq<nat>) {
    forall i :: 0 <= i < |events| && events[i].Incoming? ==>
                  if events[i].host == host then events[i].port in ports
                  else forall q :: q in ports ==> Key(events[i]) != Address(host, q)
  }

  lemma {:induction false} NothingRead(g: Setting, s: State, host: string, ports: seq<nat>, from: nat, until: nat)
    requires Valid(g.cfg)
    ensures PortsRead(g, s, [], host, ports, from, until) == 0
    decreases |ports|
  {
    if ports == [] {
    } else {
      NothingRead(g, s, host, ports[..|ports| - 1], from, until);
    }
  }

  /** One event adds its read to exactly the port it came from. */
  lemma {:induction false} PortsReadStep(g: Setting, s: State, events: seq<Event>, host: string, ports: seq<nat>,
                                         from: nat, until: nat)
    requires Valid(g.cfg) && events != [] && NoRepeats(ports)
    requires events[0].Incoming? && events[0].host != host ==>
               forall q :: q in ports ==> Key(events[0]) != Address(host, q)
    ensures PortsRead(g, s, events, host, ports, from, until) ==
            (if HostReads(g, s, events[0], host, from, until) && events[0].port in ports then 1 else 0) +
            PortsRead(g, Next(g, s, events[0]), events[1..], host, ports, from, until)
    decreases |ports|
  {
    if ports == [] {
    } else {
      var e, init, last := events[0], ports[..|ports| - 1], ports[|ports| - 1];
      assert ports == init + [last] && last !in init;
      PortsReadStep(g, s, events, host, init, from, until);
      if e.Incoming? && Key(e) == Address(host, last) && e.host == host {
        AddressInjective(host, e.port, last);
      }
    }
  }

  lemma {:induction false} HostReadsAreSums(g: Setting, s: State, events: seq<Event>, host: string, ports: seq<nat>,
                                            from: nat, until: nat)
    requires Valid(g.cfg) && NoRepeats(ports) && Uses(events, host, ports)
    ensures HostReadBetween(g, s, events, host, from, until) == PortsRead(g, s, events, host, ports, from, until)
    decreases |events|
  {
    if events == [] {
      NothingRead(g, s, host, ports, from, until);
    } else {
      PortsReadStep(g, s, events, host, ports, from, until);
      HostReadsAreSums(g, Next(g, s, events[0]), events[1..], host, ports, from, until);
    }
  }

  lemma {:induction false} PortsReadBound(g: Setting, s: State, events: seq<Event>, host: string, ports: seq<nat>,
                                          from: nat, until: nat)
    requires Valid(g.cfg) && Ordered(events) && until <= from + WINDOW_SECONDS
    requires forall q :: q in ports ==> Address(host, q) !in s.trackers
    ensures PortsRead(g, s, events, host, ports, from, until) <= 199 * |ports|
    decreases |ports|
  {
    if ports == [] {
    } else {
      var init, last := ports[..|ports| - 1], ports[|ports| - 1];
      assert last in ports && forall q :: q in init ==> q in ports;
      PortsReadBound(g, s, events, host, init, from, until);
      NewAddressBound(g, s, events, Address(host, last), from, until);
    }
  }

  /** A host gets at most 199 messages read per port it uses in any span of sixty seconds. */
  lemma HostBound(g: Setting, s: State, events: seq<Event>, host: string, ports: seq<nat>, from: nat, until: nat)
    requires Valid(g.cfg) && Ordered(events) && until <= from + WINDOW_SECONDS
    requires NoRepeats(ports) && Uses(events, host, ports)
    requires forall q :: q in ports ==> Address(host, q) !in s.trackers
    ensures HostReadBetween(g, s, events, host, from, until) <= 199 * |ports|
  {
    HostReadsAreSums(g, s, events, host, ports, from, until);
    PortsReadBound(g, s, events, host, ports, from, until);
  }

  // ----- The bound is reached -----

  /** One ignored message from each of the ports below `n`. */
  function Round(host: string, n: nat, now: nat): seq<Event> {
    if n == 0 then [] else Round(host, n - 1, now) + [Incoming(host, n - 1, OtherMessage, now)]
  }

  function Rounds(host: string, n: nat, now: nat, k: nat): seq<Event> {
    if k == 0 then [] else Rounds(host, n, now, k - 1) + Round(host, n, now)
  }

  /** The times of one address's messages. */
  function TimesOf(events: seq<Event>, address: string): seq<nat> {
    if events == [] then []
    else
      TimesOf(events[..|events| - 1], address) +
      if Key(events[|events| - 1]) == address then [events[|events| - 1].now] else []
  }

  lemma {:induction false} TimesOfConcat(a: seq<Event>, b: seq<Event>, address: string)
    ensures TimesOf(a + b, address) == TimesOf(a, address) + TimesOf(b, address)
    decreases |b|
  {
    if b == [] {
      assert a + b == a;
    } else {
      assert (a + b)[..|a| + |b| - 1] == a + b[..|b| - 1];
      TimesOfConcat(a, b[..|b| - 1], address);
    }
  }

  lemma TimesOfOne(e: Event, address: string)
    ensures TimesOf([e], address) == if Key(e) == address then [e.now] else []
  {
    assert [e][..0] == [];
    assert TimesOf([], address) == [];
  }

  /** The address's messages are `k`, all at the one time. */
  ghost predicate AllAt(events: seq<Event>, address: string, now: nat, k: nat) {
    TimesOf(events, address) == seq(k, _ => now)
  }

  lemma AllAtConcat(a: seq<Event>, b: seq<Event>, address: string, now: nat, j: nat, k: nat)
    requires AllAt(a, address, now, j) && AllAt(b, address, now, k)
    ensures AllAt(a + b, address, now, j + k)
  {
    TimesOfConcat(a, b, address);
    SameTimes(now, j, k);
  }

  lemma SameTimes(now: nat, j: nat, k: nat)
    ensures seq(j, _ => now) + seq(k, _ => now) == seq(j + k, _ => now)
  {
  }

  lemma OneAt(host: string, port: nat, now: nat, q: nat)
    ensures AllAt([Incoming(host, port, OtherMessage, now)], Address(host, q), now, if port == q then 1 else 0)
  {
    var e := Incoming(host, port, OtherMessage, now);
    TimesOfOne(e, Address(host, q));
    if Key(e) == Address(host, q) {
      AddressInjective(host, port, q);
    }
  }

  lemma {:induction false} TimesOfRound(host: string, n: nat, now: nat, q: nat)
    ensures AllAt(Round(host, n, now), Address(host, q), now, if q < n then 1 else 0)
  {
    if n == 0 {
    } else {
      TimesOfRound(host, n - 1, now, q);
      OneAt(host, n - 1, now, q);
      AllAtConcat(Round(host, n - 1, now), [Incoming(host, n - 1, OtherMessage, now)], Address(host, q), now,
                  if q < n - 1 then 1 else 0, if n - 1 == q then 1 else 0);
    }
  }

  lemma {:induction false} TimesOfRounds(host: string, n: nat, now: nat, k: nat, q: nat)
    requires q < n
    ensures AllAt(Rounds(host, n, now, k), Address(host, q), now, k)
  {
    if k == 0 {
    } else {
      TimesOfRounds(host, n, now, k - 1, q);
      TimesOfRound(host, n, now, q);
      AllAtConcat(Rounds(host, n, now, k - 1), Round(host, n, now), Address(host, q), now, k - 1, 1);
      assert Rounds(host, n, now, k) == Rounds(host, n, now, k - 1) + Round(host, n, now);
    }
  }

  ghost predicate AllIgnored(events: seq<Event>) {
    forall i :: 0 <= i < |events| ==> events[i].Incoming? && events[i].message == OtherMessage
  }

  lemma TimesOfFront(events: seq<Event>, address: string)
    requires events != []
    ensures TimesOf(events, address) ==
            (if Key(events[0]) == address then [events[0].now] else []) + TimesOf(events[1..], address)
  {
    var first := [events[0]];
    assert events == first + events[1..];
    TimesOfConcat(first, events[1..], address);
    TimesOfOne(events[0], address);
  }

  /** Ignored messages leave the reputations alone, so all of them reach their trackers. */
  lemma {:induction false} IgnoredReach(g: Setting, s: State, events: seq<Event>, address: string)
    requires Valid(g.cfg) && AllIgnored(events) && Reputation(s.reputation, address) >= MIN_REPUTATION_THRESHOLD
    ensures Reaching(g, s, events, address) == TimesOf(events, address)
    decreases |events|
  {
    if events == [] {
    } else {
      TimesOfFront(events, address);
      assert Next(g, s, events[0]).reputation == s.reputation;
      IgnoredReach(g, Next(g, s, events[0]), events[1..], address);
    }
  }

  /** An opening message from every port, 99 more in the last second of its window and 100 in the next second. */
  function FullRun(host: string, n: nat, start: nat): seq<Event> {
    Rounds(host, n, start, 1) + Rounds(host, n, start + 59, 99) + Rounds(host, n, start + 60, 100)
  }

  function FullTimes(start: nat): seq<nat> {
    [start] + seq(99, _ => start + 59) + seq(100, _ => start + 60)
  }

  lemma FullTimesAdmitted(start: nat)
    ensures AdmittedBetween(NewTracker(start), FullTimes(start), start + 59, start + 61) == 199
  {
    var second, third := seq(99, _ => start + 59), seq(100, _ => start + 60);
    var times := FullTimes(start);
    assert times[0] == start && times[1..] == second + third;
    BurstAdmitted(Tracker(1, start), 99, start + 59, start + 59, start + 61, third);
    var others := seq(99, _ => start + 60);
    assert third[1..] == others == others + [];
    BurstAdmitted(Tracker(1, start + 60), 99, start + 60, start + 59, start + 61, []);
  }

  lemma FullRunTimes(host: string, n: nat, start: nat, q: nat)
    requires q < n
    ensures TimesOf(FullRun(host, n, start), Address(host, q)) == FullTimes(start)
  {
    var a, b, c := Rounds(host, n, start, 1), Rounds(host, n, start + 59, 99), Rounds(host, n, start + 60, 100);
    TimesOfConcat(a + b, c, Address(host, q));
    TimesOfConcat(a, b, Address(host, q));
    TimesOfRounds(host, n, start, 1, q);
    TimesOfRounds(host, n, start + 59, 99, q);
    TimesOfRounds(host, n, start + 60, 100, q);
    assert seq(1, _ => start) == [start];
  }

  /** The messages come from the host's ports below `n`, and all are ignored. */
  ghost predicate Plain(events: seq<Event>, host: string, n: nat) {
    AllIgnored(events) && forall i :: 0 <= i < |events| ==> events[i].host == host && events[i].port < n
  }

  lemma {:induction false} RoundIsPlain(host: string, n: nat, m: nat, now: nat)
    requires n <= m
    ensures Plain(Round(host, n, now), host, m)
  {
    if n == 0 {
    } else {
      RoundIsPlain(host, n - 1, m, now);
    }
  }

  lemma {:induction false} RoundsArePlain(host: string, n: nat, now: nat, k: nat)
    ensures Plain(Rounds(host, n, now, k), host, n)
  {
    if k == 0 {
    } else {
      RoundsArePlain(host, n, now, k - 1);
      RoundIsPlain(host, n, n, now);
    }
  }

  function Ports(n: nat): seq<nat> {
    seq(n, i => i)
  }

  lemma {:induction false} FullRunReads(g: Setting, s: State, host: string, n: nat, k: nat, start: nat)
    requires Valid(g.cfg) && k <= n && Plain(FullRun(host, n, start), host, n)
    requires forall q: nat :: q < n ==> Address(host, q) !in s.trackers && Address(host, q) !in s.reputation
    ensures PortsRead(g, s, FullRun(host, n, start), host, Ports(k), start + 59, start + 61) == 199 * k
    decreases k
  {
    if k == 0 {
    } else {
      var events, address := FullRun(host, n, start), Address(host, k - 1);
      assert Ports(k)[..k - 1] == Ports(k - 1);
      FullRunReads(g, s, host, n, k - 1, start);
      IgnoredReach(g, s, events, address);
      FullRunTimes(host, n, start, k - 1);
      ReadsAreAdmissions(g, s, events, address, start + 59, start + 61);
      FullTimesAdmitted(start);
    }
  }

  /** The bound is exact: with `n` ports a host can have 199 messages per port read within two seconds. */
  lemma HostBoundIsReached(g: Setting, s: State, host: string, n: nat, start: nat)
    requires Valid(g.cfg)
    requires forall q: nat :: q < n ==> Address(host, q) !in s.trackers && Address(host, q) !in s.reputation
    ensures HostReadBetween(g, s, FullRun(host, n, start), host, start + 59, start + 61) == 199 * n
  {
    var events, ports := FullRun(host, n, start), Ports(n);
    RoundsArePlain(host, n, start, 1);
    RoundsArePlain(host, n, start + 59, 99);
    RoundsArePlain(host, n, start + 60, 100);
    assert Plain(events, host, n);
    forall i | 0 <= i < |events|
      ensures events[i].port in ports
    {
      assert ports[events[i].port] == events[i].port;
    }
    HostReadsAreSums(g, s, events, host, ports, start + 59, start + 61);
    FullRunReads(g, s, host, n, n, start);
  }

  // ----- A host has no limit of its own -----

  /** One message from each of `n` ports, starting at port `first`. */
  function FromPorts(host: string, first: nat, n: nat, m: Message, now: nat): seq<Event>
    decreases n
  {
    if n == 0 then [] else [Incoming(host, first, m, now)] + FromPorts(host, first + 1, n - 1, m, now)
  }

  /** No address of the host from this port on has been seen. */
  ghost predicate Unseen(s: State, host: string, first: nat) {
    forall q: nat :: q >= first ==> Address(host, q) !in s.trackers && Address(host, q) !in s.reputation
  }

  lemma UnseenStep(g: Setting, s: State, host: string, first: nat, m: Message, now: nat)
    requires Valid(g.cfg) && Unseen(s, host, first)
    ensures Unseen(Next(g, s, Incoming(host, first, m, now)), host, first + 1)
    ensures var a := Answer(g.p, s, Address(host, first), m, now);
            !a.LowReputation? && !a.RateLimited?
  {
    forall q: nat | q >= first + 1
      ensures Address(host, q) != Address(host, first)
    {
      if Address(host, q) == Address(host, first) {
        AddressInjective(host, q, first);
      }
    }
  }

  /** Any number of messages of one host are read in one second, each from a port of its own. */
  lemma {:induction false} HostIsUnlimited(g: Setting, s: State, host: string, first: nat, n: nat, m: Message, now: nat)
    requires Valid(g.cfg) && Unseen(s, host, first)
    ensures HostReadBetween(g, s, FromPorts(host, first, n, m, now), host, now, now + 1) == n
    decreases n
  {
    if n == 0 {
    } else {
      UnseenStep(g, s, host, first, m, now);
      HostIsUnlimited(g, Next(g, s, Incoming(host, first, m, now)), host, first + 1, n - 1, m, now);
      assert FromPorts(host, first, n, m, now)[1..] == FromPorts(host, first + 1, n - 1, m, now);
    }
  }

  /** Every event is a bad block that is looked at and held against its address. */
  ghost predicate AllPenalized(g: Setting, s: State, events: seq<Event>)
    requires Valid(g.cfg)
    decreases |events|
  {
    events == [] ||
    (Penalizes(g, s, events[0], Key(events[0])) && AllPenalized(g, Next(g, s, events[0]), events[1..]))
  }

  /** The block has a wrong hash or a wrong root. */
  ghost predicate IsBad(g: Setting, node: Node, b: Block) {
    var outcome := Receive(g.p, node.chain, b);
    outcome == BadHash || outcome == BadRoot
  }

  /** The first bad block is looked at and changes nothing for the next port. */
  lemma BadBlockStep(g: Setting, s: State, host: string, port: nat, b: Block, now: nat)
    returns (s1: State)
    requires Valid(g.cfg) && Unseen(s, host, port) && IsBad(g, s.node, b)
    ensures var e := Incoming(host, port, NewBlock(b), now);
            s1 == Next(g, s, e) && Penalizes(g, s, e, Key(e))
    ensures IsBad(g, s1.node, b) && Unseen(s1, host, port + 1)
  {
    s1 := Next(g, s, Incoming(host, port, NewBlock(b), now));
    UnseenStep(g, s, host, port, NewBlock(b), now);
  }

  lemma PenalizedFront(g: Setting, s: State, e: Event, rest: seq<Event>)
    requires Valid(g.cfg) && Penalizes(g, s, e, Key(e)) && AllPenalized(g, Next(g, s, e), rest)
    ensures AllPenalized(g, s, [e] + rest)
  {
    assert ([e] + rest)[1..] == rest;
  }

  /** Any number of bad blocks of one host are looked at, each from a port of its own. */
  lemma {:induction false} BadBlocksUnlimited(g: Setting, s: State, host: string, first: nat, n: nat, b: Block,
                                              now: nat)
    requires Valid(g.cfg) && Unseen(s, host, first) && IsBad(g, s.node, b)
    ensures |FromPorts(host, first, n, NewBlock(b), now)| == n
    ensures AllPenalized(g, s, FromPorts(host, first, n, NewBlock(b), now))
    decreases n
  {
    if n == 0 {
    } else {
      var e := Incoming(host, first, NewBlock(b), now);
      var s1 := BadBlockStep(g, s, host, first, b, now);
      BadBlocksUnlimited(g, s1, host, first + 1, n - 1, b, now);
      PenalizedFront(g, s, e, FromPorts(host, first + 1, n - 1, NewBlock(b), now));
    }
  }

  /** An address is the host, a colon and the port. */
  lemma AddressByPosition(host: string, port: nat)
    ensures var a, n := Address(host, port), |host|;
            && n < |a| && a[..n] == host && a[n] == ':'
            && Text.AllDigits(a[n + 1..]) && Text.Number(a[n + 1..]) == port
  {
    var a := Address(host, port);
    assert a == host + ":" + Text.Decimal(port);
    assert a[|host| + 1..] == Text.Decimal(port);
    Text.NumberOfDecimal(port);
  }
}
