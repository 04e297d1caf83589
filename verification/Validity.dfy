/**
 When a chain that a node built and received block by block passes `is_valid`.
 Creation and reception establish hashes, links and roots; what they do not look
 at decides.
 */
module Validity {
  import opened Wrappers
  import opened Config
  import opened Blocks
  import opened Ledger
  import Merkle
  import Conservation

  /** The checks that every appended block passes, however it came. */
  ghost predicate SealedAt(p: Primitives, chain: seq<Block>, i: nat)
    requires 1 <= i < |chain|
  {
    && chain[i].hash == CalculateHash(p, chain[i])
    && chain[i].previousHash == chain[i - 1].hash
    && chain[i].merkleRoot == Merkle.Root(p.hash, chain[i].data, chain[i].blindIndexes)
  }

  ghost predicate Sealed(p: Primitives, chain: seq<Block>) {
    forall i :: 1 <= i < |chain| ==> SealedAt(p, chain, i)
  }

  /** The checks that only `is_valid` makes. */
  ghost predicate AcceptableAt(p: Primitives, cfg: ValidatorConfig, chain: seq<Block>, i: nat, now: int)
    requires Valid(cfg) && 1 <= i < |chain|
  {
    && chain[i - 1].timestamp <= chain[i].timestamp <= now + 14400
    && DataVerifies(p, chain[i].data)
    && chain[i].validator == cfg.validators[chain[i].index % |cfg.validators|]
  }

  lemma NoFaultIff(p: Primitives, cfg: ValidatorConfig, chain: seq<Block>, i: nat, now: int)
    requires Valid(cfg) && 1 <= i < |chain|
    ensures FaultAt(p, cfg, chain, i, now).None? <==> SealedAt(p, chain, i) && AcceptableAt(p, cfg, chain, i, now)
  {
  }

  lemma SealedAppend(p: Primitives, chain: seq<Block>, b: Block)
    requires chain != [] && Sealed(p, chain) && SealedAt(p, chain + [b], |chain|)
    ensures Sealed(p, chain + [b])
  {
    forall i | 1 <= i < |chain + [b]|
      ensures SealedAt(p, chain + [b], i)
    {
      if i < |chain| {
        assert SealedAt(p, chain, i);
        assert (chain + [b])[i] == chain[i] && (chain + [b])[i - 1] == chain[i - 1];
      }
    }
  }

  lemma NewBlockIsSealed(p: Primitives, cfg: ValidatorConfig, s: Node, sealed: seq<AccountEnvelope>, d: Draw)
    requires Valid(cfg) && s.chain != []
    ensures SealedAt(p, s.chain + [NextBlock(p, cfg, s, sealed, d)], |s.chain|)
  {
    var b := NextBlock(p, cfg, s, sealed, d);
    assert HeaderText(b) == HeaderText(b.(hash := ""));
  }

  lemma NextKeepsSealed(p: Primitives, cfg: ValidatorConfig, id: string, s: Node, e: Conservation.Event)
    requires Valid(cfg) && s.chain != [] && Sealed(p, s.chain)
    ensures Conservation.Next(p, cfg, id, s, e).chain != [] && Sealed(p, Conservation.Next(p, cfg, id, s, e).chain)
  {
    match e {
      case SubmitCollection(_) =>
      case SubmitAccount(_) =>
      case Create(d) =>
        match CreateBlock(p, cfg, id, s, d) {
          case Err(_) =>
          case Ok(s') =>
            var sealed := SealAll(p, s.accounts, d.salt).value;
            NewBlockIsSealed(p, cfg, s, sealed, d);
            SealedAppend(p, s.chain, NextBlock(p, cfg, s, sealed, d));
        }
      case Arrive(b) =>
        if Receive(p, s.chain, b) == Appended {
          SealedAppend(p, s.chain, b);
        }
    }
  }

  lemma {:induction false} RunIsSealed(p: Primitives, cfg: ValidatorConfig, id: string, events: seq<Conservation.Event>)
    requires Valid(cfg)
    ensures Conservation.Run(p, cfg, id, events).chain != [] && Sealed(p, Conservation.Run(p, cfg, id, events).chain)
  {
    if events == [] {
    } else {
      var n := |events| - 1;
      RunIsSealed(p, cfg, id, events[..n]);
      NextKeepsSealed(p, cfg, id, Conservation.Run(p, cfg, id, events[..n]), events[n]);
    }
  }

  /**
   Over every run of own and received blocks the chain is valid if and only if the
   times ascend within the tolerance, the data verifies and the validators are due.
   */
  lemma RunValidIff(p: Primitives, cfg: ValidatorConfig, id: string, events: seq<Conservation.Event>, now: int)
    requires Valid(cfg)
    ensures var chain := Conservation.Run(p, cfg, id, events).chain;
            ValidChain(p, cfg, chain, now) <==>
            forall i :: 1 <= i < |chain| ==> AcceptableAt(p, cfg, chain, i, now)
  {
    RunIsSealed(p, cfg, id, events);
    SealedValidIff(p, cfg, Conservation.Run(p, cfg, id, events).chain, now);
  }

  lemma SealedValidIff(p: Primitives, cfg: ValidatorConfig, chain: seq<Block>, now: int)
    requires Valid(cfg) && Sealed(p, chain)
    ensures ValidChain(p, cfg, chain, now) <==>
            forall i :: 1 <= i < |chain| ==> AcceptableAt(p, cfg, chain, i, now)
  {
    forall i | 1 <= i < |chain|
      ensures FaultAt(p, cfg, chain, i, now).None? <==> AcceptableAt(p, cfg, chain, i, now)
    {
      assert SealedAt(p, chain, i);
      NoFaultIff(p, cfg, chain, i, now);
    }
  }

  // ----- One creation -----

  lemma ValidAppendIff(p: Primitives, cfg: ValidatorConfig, chain: seq<Block>, b: Block, now: int)
    requires Valid(cfg) && chain != [] && ValidChain(p, cfg, chain, now)
    ensures ValidChain(p, cfg, chain + [b], now) <==> FaultAt(p, cfg, chain + [b], |chain|, now).None?
  {
    forall i | 1 <= i < |chain|
      ensures FaultAt(p, cfg, chain + [b], i, now).None?
    {
      assert FaultAt(p, cfg, chain, i, now).None?;
      assert (chain + [b])[i] == chain[i] && (chain + [b])[i - 1] == chain[i - 1];
    }
  }

  /** A creation keeps a chain valid exactly when its time is in order and the queue verifies. */
  lemma CreateKeepsValidIff(p: Primitives, cfg: ValidatorConfig, id: string, s: Node, d: Draw, now: int)
    requires Valid(cfg) && Conservation.RoundTrips(p) && ValidChain(p, cfg, s.chain, now)
    requires CreateBlock(p, cfg, id, s, d).Ok?
    ensures var stamp := ObfuscateTimestamp(d.now, d.jitter);
            ValidChain(p, cfg, CreateBlock(p, cfg, id, s, d).value.chain, now) <==>
            && s.chain[|s.chain| - 1].timestamp <= stamp <= now + 14400
            && forall i :: 0 <= i < |s.collections| ==> (p.verifyCollection)(s.collections[i])
  {
    var sealed := SealAll(p, s.accounts, d.salt).value;
    var b := NextBlock(p, cfg, s, sealed, d);
    ValidAppendIff(p, cfg, s.chain, b, now);
    NewBlockIsSealed(p, cfg, s, sealed, d);
    NoFaultIff(p, cfg, s.chain + [b], |s.chain|, now);
    var c := Container(sealed, s.collections, b.validator);
    assert (p.decode)((p.encode)(c)) == Some(c);
  }

  // ----- Creation over every jitter -----

  /** The day that a clock reading is rounded to. */
  function Day(now: int): int {
    now - Remainder(now, TIMESTAMP_GRANULARITY)
  }

  predicate InJitter(jitter: int) {
    -14400 <= jitter <= 14400
  }

  /** The creation succeeds and its chain is valid. */
  ghost predicate CreatesValid(p: Primitives, cfg: ValidatorConfig, id: string, s: Node, d: Draw, now: int)
    requires Valid(cfg)
  {
    CreateBlock(p, cfg, id, s, d).Ok? && ValidChain(p, cfg, CreateBlock(p, cfg, id, s, d).value.chain, now)
  }

  ghost predicate QueueVerifies(p: Primitives, s: Node) {
    forall i :: 0 <= i < |s.collections| ==> (p.verifyCollection)(s.collections[i])
  }

  /** Jitter does not decide whether a creation succeeds. */
  lemma JitterIsHarmless(p: Primitives, cfg: ValidatorConfig, id: string, s: Node, d: Draw, jitter: int)
    requires Valid(cfg)
    ensures CreateBlock(p, cfg, id, s, d).Ok? <==> CreateBlock(p, cfg, id, s, d.(jitter := jitter)).Ok?
  {
  }

  /**
   Whatever jitter is drawn, a creation keeps a valid chain valid if and only if the
   last block is at least the jitter before today's midnight and the queue verifies.
   */
  lemma CreateAlwaysKeepsValidIff(p: Primitives, cfg: ValidatorConfig, id: string, s: Node, d: Draw, now: int)
    requires Valid(cfg) && Conservation.RoundTrips(p) && ValidChain(p, cfg, s.chain, now)
    requires CreateBlock(p, cfg, id, s, d).Ok? && 0 <= d.now <= now
    ensures (forall jitter :: InJitter(jitter) ==> CreatesValid(p, cfg, id, s, d.(jitter := jitter), now)) <==>
            s.chain[|s.chain| - 1].timestamp <= Day(d.now) - 14400 && QueueVerifies(p, s)
  {
    forall jitter
      ensures CreatesValid(p, cfg, id, s, d.(jitter := jitter), now) <==>
              && s.chain[|s.chain| - 1].timestamp <= Day(d.now) + jitter <= now + TIMESTAMP_TOLERANCE
              && QueueVerifies(p, s)
    {
      JitterIsHarmless(p, cfg, id, s, d, jitter);
      CreateKeepsValidIff(p, cfg, id, s, d.(jitter := jitter), now);
    }
    assert InJitter(-TIMESTAMP_JITTER);
    assert CreatesValid(p, cfg, id, s, d.(jitter := -TIMESTAMP_JITTER), now) ==>
             s.chain[|s.chain| - 1].timestamp <= Day(d.now) - TIMESTAMP_JITTER && QueueVerifies(p, s);
    assert Day(d.now) <= now;
  }

  /** Two creations of one day, the second with the smaller jitter: the chain fails its own check at any time. */
  lemma TwoCreationsOneDayFail(p: Primitives, cfg: ValidatorConfig, first: string, second: string, s: Node, d: Draw,
                               accounts: seq<PendingAccount>, collections: seq<Collection>, d': Draw, now: int)
    requires Valid(cfg) && CreateBlock(p, cfg, first, s, d).Ok?
    requires var queued := CreateBlock(p, cfg, first, s, d).value.(accounts := accounts, collections := collections);
             CreateBlock(p, cfg, second, queued, d').Ok?
    requires Day(d.now) == Day(d'.now) && d'.jitter < d.jitter
    ensures var queued := CreateBlock(p, cfg, first, s, d).value.(accounts := accounts, collections := collections);
            !ValidChain(p, cfg, CreateBlock(p, cfg, second, queued, d').value.chain, now)
  {
    var queued := CreateBlock(p, cfg, first, s, d).value.(accounts := accounts, collections := collections);
    var chain, n := CreateBlock(p, cfg, second, queued, d').value.chain, |s.chain|;
    assert chain[n].timestamp == Day(d.now) + d.jitter && chain[n + 1].timestamp == Day(d'.now) + d'.jitter;
    NoFaultIff(p, cfg, chain, n + 1, now);
  }

  // ----- Days -----

  ghost predicate AllInJitter(jitters: seq<int>) {
    forall i :: 0 <= i < |jitters| ==> InJitter(jitters[i])
  }

  lemma DaysApart(a: int, b: int)
    requires a % TIMESTAMP_GRANULARITY == 0 && b % TIMESTAMP_GRANULARITY == 0 && a < b
    ensures a + TIMESTAMP_JITTER <= b - TIMESTAMP_JITTER
  {
  }

  /** The midnight before a clock reading. */
  lemma DayIsWhole(now: int)
    requires now >= 0
    ensures Day(now) % 86400 == 0 && now - 86400 < Day(now) <= now
  {
  }

  lemma PrefixIsValid(p: Primitives, cfg: ValidatorConfig, chain: seq<Block>, longer: seq<Block>, now: int)
    requires Valid(cfg) && chain <= longer && ValidChain(p, cfg, longer, now)
    ensures ValidChain(p, cfg, chain, now)
  {
    forall i | 1 <= i < |chain|
      ensures FaultAt(p, cfg, chain, i, now).None?
    {
      assert FaultAt(p, cfg, longer, i, now).None?;
    }
  }

  lemma ValidLater(p: Primitives, cfg: ValidatorConfig, chain: seq<Block>, now: int, later: int)
    requires Valid(cfg) && ValidChain(p, cfg, chain, now) && now <= later
    ensures ValidChain(p, cfg, chain, later)
  {
    forall i | 1 <= i < |chain|
      ensures FaultAt(p, cfg, chain, i, later).None?
    {
      assert FaultAt(p, cfg, chain, i, now).None?;
    }
  }
}
