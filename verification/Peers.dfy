/**
 A node facing its peers: reputation, message windows, received blocks and chain
 synchronisation, with every accepted block written to the store.
 */
module Peers {
  import opened Wrappers
  import opened Config
  import opened Blocks
  import opened Ledger
  import opened PeerWindow
  import Merkle
  import Text
  import Persistence
  import Selection

  const REPUTATION_REWARD := 1
  const REPUTATION_PENALTY := 5
  const MIN_REPUTATION_THRESHOLD := -10

  function Reputation(reputation: map<string, int>, peer: string): int {
    if peer in reputation then reputation[peer] else 0
  }

  /** How the outcome of a received block counts for its sender. */
  function Credit(outcome: Reception): int {
    match outcome
    case Appended => REPUTATION_REWARD
    case BadHash => -REPUTATION_PENALTY
    case BadRoot => -REPUTATION_PENALTY
    case _ => 0
  }

  datatype Message = NewBlock(block: Block) | RequestChain | OtherMessage

  datatype Connection =
    | LowReputation
    | RateLimited
    | Handled(outcome: Reception)
    | Sent(chain: seq<Block>)
    | Ignored

  datatype State = State(
    node: Node,
    store: Persistence.Store,
    reputation: map<string, int>,
    trackers: map<string, Tracker>)

  function TrackerOf(s: State, peer: string, now: nat): Tracker {
    if peer in s.trackers then s.trackers[peer] else NewTracker(now)
  }

  /** What becomes of a connection that carries the message. */
  function Answer(p: Primitives, s: State, peer: string, m: Message, now: nat): Connection {
    if Reputation(s.reputation, peer) < MIN_REPUTATION_THRESHOLD then LowReputation
    else if !Admits(TrackerOf(s, peer, now), now) then RateLimited
    else
      match m
      case NewBlock(b) => Handled(Receive(p, s.node.chain, b))
      case RequestChain => Sent(s.node.chain)
      case OtherMessage => Ignored
  }

  function Credited(reputation: map<string, int>, peer: string, credit: int): map<string, int> {
    if credit == 0 then reputation else reputation[peer := Reputation(reputation, peer) + credit]
  }

  /** The state once a peer's block has been looked at. */
  function AfterBlock(p: Primitives, s: State, peer: string, b: Block): State {
    var outcome := Receive(p, s.node.chain, b);
    s.(node := AfterReceive(p, s.node, b),
       store := if outcome == Appended then Persistence.Persist(s.store, b, true) else s.store,
       reputation := Credited(s.reputation, peer, Credit(outcome)))
  }

  function AfterMessage(p: Primitives, s: State, peer: string, m: Message, now: nat): State {
    var a := Answer(p, s, peer, m, now);
    if a.LowReputation? then s
    else
      var s1 := s.(trackers := s.trackers[peer := Counted(TrackerOf(s, peer, now), now)]);
      if a.Handled? && m.NewBlock? then AfterBlock(p, s1, peer, m.block) else s1
  }

  ghost function AfterSync(p: Primitives, cfg: ValidatorConfig, s: State, peer: string, theirs: seq<Block>,
                           now: nat): State
    requires Valid(cfg)
  {
    if Replace(p, cfg, s.node, theirs, now) == Replaced then
      s.(node := AfterReplace(p, cfg, s.node, theirs, now),
         reputation := Credited(s.reputation, peer, REPUTATION_REWARD))
    else s
  }

  // ----- The stateful node -----

  class P2PNode {
    const blockchain: Blockchain
    const store: Persistence.BlockchainStore
    var reputation: map<string, int>
    var trackers: map<string, Tracker>  // the map owns its trackers, so it holds their values

    constructor (blockchain: Blockchain, store: Persistence.BlockchainStore)
      ensures this.blockchain == blockchain && this.store == store
      ensures reputation == map[] && trackers == map[]
    {
      this.blockchain := blockchain;
      this.store := store;
      reputation, trackers := map[], map[];
    }

    ghost function Current(): State
      reads this, blockchain, store
    {
      State(blockchain.State(), store.State(), reputation, trackers)
    }

    /** Idempotence, sequence, linkage, hash and root, in this order. */
    method HandleNewBlock(peer: string, block: Block) returns (outcome: Reception)
      modifies this`reputation, blockchain`chain, store`blocks, store`length, store`checkpoints
      ensures outcome == Receive(blockchain.p, old(blockchain.chain), block)
      ensures blockchain.State() == AfterReceive(blockchain.p, old(blockchain.State()), block)
      ensures store.State() ==
              if outcome == Appended then Persistence.Persist(old(store.State()), block, true) else old(store.State())
      ensures reputation == Credited(old(reputation), peer, Credit(outcome))
    {
      var chain := blockchain.chain;
      if chain == [] {
        return NoChain;
      }
      var latest := chain[|chain| - 1];
      for i := 0 to |chain|
        invariant forall j :: 0 <= j < i ==> chain[j].hash != block.hash
      {
        if chain[i].hash == block.hash {
          return AlreadyKnown;
        }
      }
      if block.index != latest.index + 1 {
        return NonSequential;
      }
      if block.previousHash != latest.hash {
        return Diverged;
      }
      if block.hash != CalculateHash(blockchain.p, block) {
        reputation := reputation[peer := Reputation(reputation, peer) - REPUTATION_PENALTY];
        return BadHash;
      }
      var root := Merkle.CalculateMerkleRoot(blockchain.p.hash, block.data, block.blindIndexes);
      if block.merkleRoot != root {
        reputation := reputation[peer := Reputation(reputation, peer) - REPUTATION_PENALTY];
        return BadRoot;
      }
      Accept(peer, block);
      return Appended;
    }

    /** The block passed every check: append it, store it and reward its sender. */
    method Accept(peer: string, block: Block)
      modifies this`reputation, blockchain`chain, store`blocks, store`length, store`checkpoints
      ensures blockchain.State() == old(blockchain.State()).(chain := old(blockchain.chain) + [block])
      ensures store.State() == Persistence.Persist(old(store.State()), block, true)
      ensures reputation == Credited(old(reputation), peer, REPUTATION_REWARD)
    {
      blockchain.chain := blockchain.chain + [block];
      store.Save(block);
      if block.index % CHECKPOINT_INTERVAL == 0 {
        store.checkpoints := store.checkpoints[block.index := block.hash];
      }
      reputation := reputation[peer := Reputation(reputation, peer) + REPUTATION_REWARD];
    }

    method HandleConnection(peer: string, message: Message, now: nat) returns (c: Connection)
      modifies this, blockchain`chain, store`blocks, store`length, store`checkpoints
      ensures c == Answer(blockchain.p, old(Current()), peer, message, now)
      ensures Current() == AfterMessage(blockchain.p, old(Current()), peer, message, now)
    {
      if Reputation(reputation, peer) < MIN_REPUTATION_THRESHOLD {
        return LowReputation;
      }
      var tracker := if peer in trackers then trackers[peer] else NewTracker(now);
      trackers := trackers[peer := Counted(tracker, now)];
      if !Admits(tracker, now) {
        return RateLimited;
      }
      match message {
        case NewBlock(block) =>
          var outcome := HandleNewBlock(peer, block);
          return Handled(outcome);
        case RequestChain => return Sent(blockchain.chain);
        case OtherMessage => return Ignored;
      }
    }

    /** A peer's answer to a chain request; a replacement is rewarded but not stored. */
    method SyncWith(peer: string, theirs: seq<Block>, now: nat)
      requires Valid(blockchain.cfg)
      modifies this`reputation, blockchain
      ensures Current() == AfterSync(blockchain.p, blockchain.cfg, old(Current()), peer, theirs, now)
    {
      var r := blockchain.ReplaceChain(theirs, now);
      if r == Ok(true) {
        reputation := reputation[peer := Reputation(reputation, peer) + REPUTATION_REWARD];
      }
    }
  }

  // ----- Runs -----

  datatype Event =
    | Incoming(host: string, port: nat, message: Message, now: nat)  // each connection has a port of its own
    | Sync(name: string, theirs: seq<Block>, now: nat)               // with a configured address

  /** The socket address that reputation and window are kept under. */
  function Address(host: string, port: nat): string {
    host + ":" + Text.SignedDecimal(port)
  }

  function Key(e: Event): string {
    match e
    case Incoming(host, port, _, _) => Address(host, port)
    case Sync(name, _, _) => name
  }

  /** What is fixed while a node runs. */
  datatype Setting = Setting(p: Primitives, cfg: ValidatorConfig)

  ghost function Next(g: Setting, s: State, e: Event): State
    requires Valid(g.cfg)
  {
    match e
    case Incoming(host, port, m, now) => AfterMessage(g.p, s, Address(host, port), m, now)
    case Sync(name, theirs, now) => AfterSync(g.p, g.cfg, s, name, theirs, now)
  }

  ghost function Run(g: Setting, s: State, events: seq<Event>): State
    requires Valid(g.cfg)
    decreases |events|
  {
    if events == [] then s else Run(g, Next(g, s, events[0]), events[1..])
  }

  /** The event rewards the address: an appended block, or a chain taken over from a peer of that name. */
  ghost predicate Rewards(g: Setting, s: State, e: Event, address: string)
    requires Valid(g.cfg)
  {
    Key(e) == address &&
    match e
    case Incoming(_, _, m, now) => Answer(g.p, s, address, m, now) == Handled(Appended)
    case Sync(_, theirs, now) => Replace(g.p, g.cfg, s.node, theirs, now) == Replaced
  }

  predicate LooksBad(c: Connection) {
    c == Handled(BadHash) || c == Handled(BadRoot)
  }

  /** The event is a block from the address with a wrong hash or root. */
  ghost predicate Penalizes(g: Setting, s: State, e: Event, address: string) {
    Key(e) == address && e.Incoming? && LooksBad(Answer(g.p, s, address, e.message, e.now))
  }

  ghost function Good(g: Setting, s: State, events: seq<Event>, address: string): nat
    requires Valid(g.cfg)
    decreases |events|
  {
    if events == [] then 0
    else
      (if Rewards(g, s, events[0], address) then 1 else 0) + Good(g, Next(g, s, events[0]), events[1..], address)
  }

  ghost function Bad(g: Setting, s: State, events: seq<Event>, address: string): nat
    requires Valid(g.cfg)
    decreases |events|
  {
    if events == [] then 0
    else
      (if Penalizes(g, s, events[0], address) then 1 else 0) + Bad(g, Next(g, s, events[0]), events[1..], address)
  }

  lemma ReputationStep(g: Setting, s: State, e: Event, address: string)
    requires Valid(g.cfg)
    ensures Reputation(Next(g, s, e).reputation, address) ==
            Reputation(s.reputation, address) +
            (if Rewards(g, s, e, address) then REPUTATION_REWARD else 0) -
            (if Penalizes(g, s, e, address) then REPUTATION_PENALTY else 0)
    ensures Penalizes(g, s, e, address) ==> Reputation(s.reputation, address) >= MIN_REPUTATION_THRESHOLD
  {
  }

  /** An address's reputation is its record, and penalties stop fifteen below zero. */
  lemma {:induction false} ReputationIsRecord(g: Setting, s: State, events: seq<Event>, address: string)
    requires Valid(g.cfg)
    requires Reputation(s.reputation, address) >= -15
    ensures var r := Reputation(Run(g, s, events).reputation, address);
            && r == Reputation(s.reputation, address) + Good(g, s, events, address) - 5 * Bad(g, s, events, address)
            && r >= -15
    decreases |events|
  {
    if events == [] {
    } else {
      ReputationStep(g, s, events[0], address);
      ReputationIsRecord(g, Next(g, s, events[0]), events[1..], address);
    }
  }

  /** From a new address at most three bad blocks are looked at, plus one for every five good deeds. */
  lemma BadBlocksBounded(g: Setting, s: State, events: seq<Event>, address: string)
    requires Valid(g.cfg) && Reputation(s.reputation, address) == 0
    ensures 5 * Bad(g, s, events, address) <= 15 + Good(g, s, events, address)
  {
    ReputationIsRecord(g, s, events, address);
  }

  /** The run without the messages of one address. */
  ghost function Without(events: seq<Event>, address: string): seq<Event> {
    if events == [] then []
    else (if events[0].Incoming? && Key(events[0]) == address then [] else [events[0]]) + Without(events[1..], address)
  }

  /** Below the threshold an address is out: unless a chain is taken over from it, its messages change nothing. */
  lemma {:induction false} ExiledAddressHasNoEffect(g: Setting, s: State, events: seq<Event>, address: string)
    requires Valid(g.cfg) && Reputation(s.reputation, address) < -10
    requires Good(g, s, events, address) == 0
    ensures Run(g, s, events) == Run(g, s, Without(events, address))
    decreases |events|
  {
    if events == [] {
    } else {
      var e, rest := events[0], events[1..];
      ReputationStep(g, s, e, address);
      ExiledAddressHasNoEffect(g, Next(g, s, e), rest, address);
      if e.Incoming? && Key(e) == address {
        assert Without(events, address) == Without(rest, address);
      } else {
        assert Without(events, address)[1..] == Without(rest, address);
      }
    }
  }

  // ----- Message windows over a run -----

  /** The times at which the address's connections get as far as its tracker. */
  ghost function Reaching(g: Setting, s: State, events: seq<Event>, address: string): seq<nat>
    requires Valid(g.cfg)
    decreases |events|
  {
    if events == [] then []
    else
      (if Reaches(s, events[0], address) then [events[0].now] else []) +
      Reaching(g, Next(g, s, events[0]), events[1..], address)
  }

  predicate Reaches(s: State, e: Event, address: string) {
    e.Incoming? && Key(e) == address && Reputation(s.reputation, address) >= MIN_REPUTATION_THRESHOLD
  }

  /** A message of the address is read at a time from `from` up to, not including, `until`. */
  predicate Reads(g: Setting, s: State, e: Event, address: string, from: nat, until: nat) {
    && e.Incoming? && Key(e) == address && from <= e.now < until
    && !Answer(g.p, s, address, e.message, e.now).LowReputation?
    && !Answer(g.p, s, address, e.message, e.now).RateLimited?
  }

  ghost function ReadBetween(g: Setting, s: State, events: seq<Event>, address: string, from: nat, until: nat): nat
    requires Valid(g.cfg)
    decreases |events|
  {
    if events == [] then 0
    else
      (if Reads(g, s, events[0], address, from, until) then 1 else 0) +
      ReadBetween(g, Next(g, s, events[0]), events[1..], address, from, until)
  }

  /** Only connections that reach it move the address's tracker, each by one counted call. */
  lemma TrackerStep(g: Setting, s: State, e: Event, address: string)
    requires Valid(g.cfg)
    ensures var s' := Next(g, s, e);
            if Reaches(s, e, address) then
              address in s'.trackers && s'.trackers[address] == Counted(TrackerOf(s, address, e.now), e.now)
            else
              (address in s'.trackers <==> address in s.trackers) &&
              (address in s.trackers ==> s'.trackers[address] == s.trackers[address])
  {
  }

  /** The tracker that the address's first connection meets. */
  ghost function FirstTracker(s: State, times: seq<nat>, address: string): Tracker {
    TrackerOf(s, address, if times == [] then 0 else times[0])
  }

  lemma {:induction false} ReadsAreAdmissions(g: Setting, s: State, events: seq<Event>, address: string, from: nat,
                                              until: nat)
    requires Valid(g.cfg)
    ensures var times := Reaching(g, s, events, address);
            ReadBetween(g, s, events, address, from, until) ==
            AdmittedBetween(FirstTracker(s, times, address), times, from, until)
    decreases |events|
  {
    if events == [] {
    } else {
      var e, s', rest := events[0], Next(g, s, events[0]), events[1..];
      TrackerStep(g, s, e, address);
      ReadsAreAdmissions(g, s', rest, address, from, until);
      var times := Reaching(g, s, events, address);
      if Reaches(s, e, address) {
        assert times[1..] == Reaching(g, s', rest, address);
        assert FirstTracker(s', times[1..], address) == Counted(FirstTracker(s, times, address), times[0]);
      } else {
        assert times == Reaching(g, s', rest, address);
      }
    }
  }

  ghost predicate Ordered(events: seq<Event>) {
    forall i, j :: 0 <= i < j < |events| ==> events[i].now <= events[j].now
  }

  /** Nothing reaches the tracker before `since`, and times stay in order. */
  lemma {:induction false} ReachingOrdered(g: Setting, s: State, events: seq<Event>, address: string, since: nat)
    requires Valid(g.cfg) && Ordered(events)
    requires forall i :: 0 <= i < |events| ==> since <= events[i].now
    ensures Timely(Tracker(0, since), Reaching(g, s, events, address))
    decreases |events|
  {
    if events == [] {
    } else {
      ReachingOrdered(g, Next(g, s, events[0]), events[1..], address, events[0].now);
    }
  }

  /** In any span of sixty seconds at most two hundred messages from one address are read. */
  lemma AtMostTwoHundredRead(g: Setting, s: State, events: seq<Event>, address: string, from: nat, until: nat)
    requires Valid(g.cfg) && Ordered(events) && until <= from + WINDOW_SECONDS
    requires address in s.trackers ==>
               && s.trackers[address].count <= MAX_MESSAGES_PER_MINUTE
               && forall i :: 0 <= i < |events| ==> s.trackers[address].windowStart <= events[i].now
    ensures ReadBetween(g, s, events, address, from, until) <= 2 * MAX_MESSAGES_PER_MINUTE
  {
    var times := Reaching(g, s, events, address);
    ReadsAreAdmissions(g, s, events, address, from, until);
    ReachingOrdered(g, s, events, address, if address in s.trackers then s.trackers[address].windowStart else 0);
    SpanBound(FirstTracker(s, times, address), times, from, until);
  }

  /** From a new address one less: the message that opens a window lies outside the span of the next one. */
  lemma NewAddressBound(g: Setting, s: State, events: seq<Event>, address: string, from: nat, until: nat)
    requires Valid(g.cfg) && Ordered(events) && until <= from + WINDOW_SECONDS && address !in s.trackers
    ensures ReadBetween(g, s, events, address, from, until) <= 2 * MAX_MESSAGES_PER_MINUTE - 1
  {
    var times := Reaching(g, s, events, address);
    ReadsAreAdmissions(g, s, events, address, from, until);
    ReachingOrdered(g, s, events, address, 0);
    OpenedSpanBound(times, from, until);
  }

  // ----- Asking for a chain and taking it over -----

  /** A node in good standing that asks for the chain gets it, and synchronising with it has the full effect. */
  lemma RequestedChainIsTaken(g: Setting, asked: State, address: string, asking: State, name: string, now: nat)
    requires Valid(g.cfg) && Reputation(asked.reputation, address) >= -10
    requires Admits(TrackerOf(asked, address, now), now)
    ensures Answer(g.p, asked, address, RequestChain, now).Sent?
    ensures var chain := Answer(g.p, asked, address, RequestChain, now).chain;
            var asking' := AfterSync(g.p, g.cfg, asking, name, chain, now);
            var better := Prefers(g.cfg, asking.node.chain, asked.node.chain);
            var allowed := !CheckpointForbids(asking.node, asked.node.chain);
            && (ValidChain(g.p, g.cfg, asked.node.chain, now) && better && allowed ==>
                  asking'.node.chain == asked.node.chain)
            && (asking'.node.chain == asking.node.chain || asking'.node.chain == asked.node.chain)
            && asking'.store == asking.store
    ensures AfterMessage(g.p, asked, address, RequestChain, now).node == asked.node
  {
  }

  /** After the exchange the asked node's chain no longer outranks the asking node's. */
  lemma SyncSettlesRank(g: Setting, asked: State, address: string, asking: State, name: string, now: nat,
                        genesis: Block, chains: set<seq<Block>>)
    requires Valid(g.cfg) && Reputation(asked.reputation, address) >= -10
    requires Admits(TrackerOf(asked, address, now), now) && ValidChain(g.p, g.cfg, asked.node.chain, now)
    requires Selection.Kin(g.cfg, genesis, chains) && asked.node.chain in chains && asking.node.chain in chains
    ensures Answer(g.p, asked, address, RequestChain, now).Sent?
    ensures var chain := Answer(g.p, asked, address, RequestChain, now).chain;
            var after := AfterSync(g.p, g.cfg, asking, name, chain, now).node.chain;
            after in chains && !Selection.Outranks(g.cfg, asked.node.chain, after)
  {
    Selection.OfferTakesBetter(g.p, g.cfg, genesis, chains, asking.node, asked.node.chain, now);
    Selection.TiedIff(g.cfg, asked.node.chain, asked.node.chain);
  }
}
