/**
 `replace_chain` as a selection rule: offered any finite collection of chains in
 any order, a node ends with the best one.
 */
module Selection {
  import opened Config
  import opened Blocks
  import opened Ledger
  import Text
  import HashChain

  ghost function Tip(c: seq<Block>): Block
    requires c != []
  {
    c[|c| - 1]
  }

  ghost predicate Proper(cfg: ValidatorConfig, c: seq<Block>)
    requires Valid(cfg) && c != []
  {
    Tip(c).validator == ValidatorFor(cfg, Tip(c).index)
  }

  /** The documented order: length, then a proper last validator, then the smaller last hash. */
  ghost predicate Outranks(cfg: ValidatorConfig, a: seq<Block>, b: seq<Block>)
    requires Valid(cfg) && a != [] && b != []
  {
    || |a| > |b|
    || (|a| == |b| && Proper(cfg, a) && !Proper(cfg, b))
    || (|a| == |b| && Proper(cfg, a) == Proper(cfg, b) && Text.LexLess(Tip(a).hash, Tip(b).hash))
  }

  ghost predicate WellFormed(genesis: Block, c: seq<Block>) {
    c != [] && c[0] == genesis && IndexIsPosition(c)
  }

  /**
   Chains over one genesis; equally long ones with one last hash name validators
   that are equally proper, as a hash that covers the validator makes sure.
   */
  ghost predicate Kin(cfg: ValidatorConfig, genesis: Block, chains: set<seq<Block>>)
    requires Valid(cfg)
  {
    && (forall c :: c in chains ==> WellFormed(genesis, c))
    && (forall a, b :: a in chains && b in chains && |a| == |b| && Tip(a).hash == Tip(b).hash ==>
                         (Proper(cfg, a) <==> Proper(cfg, b)))
  }

  /** Equally long chains are told apart by their last hash. */
  ghost predicate TipsTell(genesis: Block, chains: set<seq<Block>>) {
    forall a, b :: a in chains && b in chains && WellFormed(genesis, a) && WellFormed(genesis, b) ==>
                     (|a| == |b| && Tip(a).hash == Tip(b).hash ==> a == b)
  }

  lemma OutranksTransitive(cfg: ValidatorConfig, a: seq<Block>, b: seq<Block>, c: seq<Block>)
    requires Valid(cfg) && a != [] && b != [] && c != []
    requires Outranks(cfg, a, b) && Outranks(cfg, b, c)
    ensures Outranks(cfg, a, c)
  {
    if Text.LexLess(Tip(a).hash, Tip(b).hash) && Text.LexLess(Tip(b).hash, Tip(c).hash) {
      Text.LexTransitive(Tip(a).hash, Tip(b).hash, Tip(c).hash);
    }
  }

  lemma OutranksAsymmetric(cfg: ValidatorConfig, a: seq<Block>, b: seq<Block>)
    requires Valid(cfg) && a != [] && b != [] && Outranks(cfg, a, b)
    ensures !Outranks(cfg, b, a)
  {
    if Text.LexLess(Tip(a).hash, Tip(b).hash) {
      Text.LexAsymmetric(Tip(a).hash, Tip(b).hash);
    }
  }

  /** Neither chain outranks the other exactly when length, propriety and last hash agree. */
  lemma TiedIff(cfg: ValidatorConfig, a: seq<Block>, b: seq<Block>)
    requires Valid(cfg) && a != [] && b != []
    ensures !Outranks(cfg, a, b) && !Outranks(cfg, b, a) <==>
            |a| == |b| && (Proper(cfg, a) <==> Proper(cfg, b)) && Tip(a).hash == Tip(b).hash
  {
    Text.LexTotal(Tip(a).hash, Tip(b).hash);
    Text.LexIrreflexive(Tip(a).hash);
  }

  /** Whoever is outranked is outranked by everyone that is no worse. */
  lemma OutranksThrough(cfg: ValidatorConfig, a: seq<Block>, b: seq<Block>, c: seq<Block>)
    requires Valid(cfg) && a != [] && b != [] && c != []
    requires Outranks(cfg, a, c) && !Outranks(cfg, a, b)
    ensures Outranks(cfg, b, c)
  {
    TiedIff(cfg, a, b);
    if Outranks(cfg, b, a) {
      OutranksTransitive(cfg, b, a, c);
    }
  }

  /** The code's preference is the documented order. */
  lemma PrefersIsOutranks(cfg: ValidatorConfig, genesis: Block, chains: set<seq<Block>>,
                          ours: seq<Block>, theirs: seq<Block>)
    requires Valid(cfg) && Kin(cfg, genesis, chains) && ours in chains && theirs in chains
    ensures Prefers(cfg, ours, theirs) <==> Outranks(cfg, theirs, ours)
  {
    if |ours| == |theirs| {
      assert Tip(ours).index == Tip(theirs).index;
      Text.LexIrreflexive(Tip(ours).hash);
      if |ours| == 1 {
        assert ours == [genesis] == theirs;
      } else if SameHashes(ours, theirs) {
        assert Tip(ours).hash == Tip(theirs).hash;
      }
    }
  }

  /** The checkpoint guard never decides: whatever it forbids is shorter anyway. */
  lemma GuardNeverDecides(cfg: ValidatorConfig, s: Node, theirs: seq<Block>)
    requires Valid(cfg) && IndexIsPosition(s.chain) && CheckpointForbids(s, theirs)
    ensures !Prefers(cfg, s.chain, theirs)
  {
    var found := FindByHash(s.chain, s.checkpoints[|s.checkpoints| - 1]);
    var i :| 0 <= i < |s.chain| && s.chain[i] == found.value;
  }

  /** One offer: the better of the two chains, if the offered one is valid. */
  lemma OfferTakesBetter(p: Primitives, cfg: ValidatorConfig, genesis: Block, chains: set<seq<Block>>,
                         s: Node, theirs: seq<Block>, now: int)
    requires Valid(cfg) && Kin(cfg, genesis, chains) && s.chain in chains && theirs in chains
    ensures Replace(p, cfg, s, theirs, now) == Replaced <==>
            ValidChain(p, cfg, theirs, now) && Outranks(cfg, theirs, s.chain)
    ensures AfterReplace(p, cfg, s, theirs, now) ==
            if ValidChain(p, cfg, theirs, now) && Outranks(cfg, theirs, s.chain) then s.(chain := theirs) else s
  {
    PrefersIsOutranks(cfg, genesis, chains, s.chain, theirs);
    if CheckpointForbids(s, theirs) {
      GuardNeverDecides(cfg, s, theirs);
    }
  }

  // ----- Offering many chains -----

  ghost function Offered(p: Primitives, cfg: ValidatorConfig, s: Node, offers: seq<seq<Block>>, now: int): Node
    requires Valid(cfg)
  {
    if offers == [] then s
    else
      AfterReplace(p, cfg, Offered(p, cfg, s, offers[..|offers| - 1], now), offers[|offers| - 1], now)
  }

  /** The chains a node could end with: its own and the valid offers. */
  ghost function Eligible(p: Primitives, cfg: ValidatorConfig, own: seq<Block>, offers: seq<seq<Block>>, now: int)
    : set<seq<Block>>
    requires Valid(cfg)
  {
    {own} + set c | c in offers && ValidChain(p, cfg, c, now)
  }

  /** No eligible chain outranks this one. */
  ghost predicate Top(cfg: ValidatorConfig, chains: set<seq<Block>>, c: seq<Block>)
    requires Valid(cfg)
  {
    c in chains && c != [] && forall d :: d in chains ==> d == [] || !Outranks(cfg, d, c)
  }

  /**
   The node's chain and the valid offers are well formed, and a node's chain that ties
   with a valid offer has a proper last validator. Of invalid offers nothing is asked.
   */
  ghost predicate Fair(p: Primitives, cfg: ValidatorConfig, genesis: Block, own: seq<Block>, offers: seq<seq<Block>>,
                       now: int)
    requires Valid(cfg)
  {
    && WellFormed(genesis, own)
    && forall c :: c in offers && ValidChain(p, cfg, c, now) ==>
                     && WellFormed(genesis, c)
                     && (1 < |c| == |own| && Tip(c).hash == Tip(own).hash ==> Proper(cfg, own))
  }

  /** A valid chain of more than one block ends with a proper validator. */
  lemma ValidTipIsProper(p: Primitives, cfg: ValidatorConfig, c: seq<Block>, now: int)
    requires Valid(cfg) && ValidChain(p, cfg, c, now) && 1 < |c|
    ensures Proper(cfg, c)
  {
    assert FaultAt(p, cfg, c, |c| - 1, now).None?;
  }

  lemma FairIsKin(p: Primitives, cfg: ValidatorConfig, genesis: Block, own: seq<Block>, offers: seq<seq<Block>>,
                  now: int)
    requires Valid(cfg) && Fair(p, cfg, genesis, own, offers, now)
    ensures Kin(cfg, genesis, Eligible(p, cfg, own, offers, now))
  {
    var chains := Eligible(p, cfg, own, offers, now);
    forall a, b | a in chains && b in chains && |a| == |b| && Tip(a).hash == Tip(b).hash
      ensures Proper(cfg, a) <==> Proper(cfg, b)
    {
      if |a| == 1 {
        assert a == [genesis] == b;
      } else {
        if a != own {
          ValidTipIsProper(p, cfg, a, now);
        }
        if b != own {
          ValidTipIsProper(p, cfg, b, now);
        }
      }
    }
  }

  /** An invalid offer changes nothing. */
  lemma InvalidIsIgnored(p: Primitives, cfg: ValidatorConfig, s: Node, theirs: seq<Block>, now: int)
    requires Valid(cfg) && !ValidChain(p, cfg, theirs, now)
    ensures AfterReplace(p, cfg, s, theirs, now) == s
  {
  }

  lemma EligibleStep(p: Primitives, cfg: ValidatorConfig, own: seq<Block>, offers: seq<seq<Block>>,
                     c: seq<Block>, now: int)
    requires Valid(cfg)
    ensures Eligible(p, cfg, own, offers + [c], now) ==
            Eligible(p, cfg, own, offers, now) + if ValidChain(p, cfg, c, now) then {c} else {}
  {
    assert forall x :: x in offers + [c] <==> x in offers || x == c;
  }

  lemma TopAfterOffer(cfg: ValidatorConfig, chains: set<seq<Block>>, top: seq<Block>, c: seq<Block>)
    requires Valid(cfg) && Top(cfg, chains, top) && c != []
    ensures Top(cfg, chains + {c}, if Outranks(cfg, c, top) then c else top)
  {
    if Outranks(cfg, c, top) {
      OutranksAsymmetric(cfg, c, top);
      Text.LexIrreflexive(Tip(c).hash);
      forall d | d in chains && d != []
        ensures !Outranks(cfg, d, c)
      {
        if Outranks(cfg, d, c) {
          OutranksTransitive(cfg, d, c, top);
        }
      }
    }
  }

  /** The node holds an eligible chain that none outranks; the rest of it is untouched. */
  ghost predicate Settled(p: Primitives, cfg: ValidatorConfig, s: Node, offers: seq<seq<Block>>, now: int, s': Node)
    requires Valid(cfg)
  {
    Top(cfg, Eligible(p, cfg, s.chain, offers, now), s'.chain) && s' == s.(chain := s'.chain)
  }

  lemma SettledStep(p: Primitives, cfg: ValidatorConfig, genesis: Block, chains: set<seq<Block>>, s: Node,
                    offers: seq<seq<Block>>, c: seq<Block>, now: int, s1: Node)
    requires Valid(cfg) && Kin(cfg, genesis, chains) && s1.chain in chains
    requires ValidChain(p, cfg, c, now) ==> c in chains
    requires Settled(p, cfg, s, offers, now, s1)
    ensures Settled(p, cfg, s, offers + [c], now, AfterReplace(p, cfg, s1, c, now))
    ensures AfterReplace(p, cfg, s1, c, now).chain in chains
  {
    EligibleStep(p, cfg, s.chain, offers, c, now);
    if !ValidChain(p, cfg, c, now) {
      InvalidIsIgnored(p, cfg, s1, c, now);
    } else {
      OfferTakesBetter(p, cfg, genesis, chains, s1, c, now);
      TopAfterOffer(cfg, Eligible(p, cfg, s.chain, offers, now), s1.chain, c);
    }
  }

  /** Whatever the order of the offers, the node ends with an eligible chain that none outranks. */
  lemma {:induction false} EndsWithTop(
    p: Primitives, cfg: ValidatorConfig, genesis: Block, chains: set<seq<Block>>, s: Node,
    offers: seq<seq<Block>>, now: int)
    requires Valid(cfg) && Kin(cfg, genesis, chains) && s.chain in chains
    requires forall c :: c in offers && ValidChain(p, cfg, c, now) ==> c in chains
    ensures Settled(p, cfg, s, offers, now, Offered(p, cfg, s, offers, now))
    ensures Offered(p, cfg, s, offers, now).chain in chains
    decreases |offers|
  {
    if offers == [] {
      assert Eligible(p, cfg, s.chain, offers, now) == {s.chain};
      TiedIff(cfg, s.chain, s.chain);
    } else {
      var n := |offers| - 1;
      EndsWithTop(p, cfg, genesis, chains, s, offers[..n], now);
      SettledStep(p, cfg, genesis, chains, s, offers[..n], offers[n], now, Offered(p, cfg, s, offers[..n], now));
      assert offers == offers[..n] + [offers[n]];
    }
  }

  /** At most one eligible chain is at the top. */
  ghost predicate OneTop(cfg: ValidatorConfig, chains: set<seq<Block>>)
    requires Valid(cfg)
  {
    forall a, b :: Top(cfg, chains, a) && Top(cfg, chains, b) ==> a == b
  }

  lemma TipsTellOneTop(cfg: ValidatorConfig, genesis: Block, chains: set<seq<Block>>)
    requires Valid(cfg) && Kin(cfg, genesis, chains) && TipsTell(genesis, chains)
    ensures OneTop(cfg, chains)
  {
    forall a, b | Top(cfg, chains, a) && Top(cfg, chains, b)
      ensures a == b
    {
      TiedIff(cfg, a, b);
    }
  }

  /** With distinct last hashes the node ends with a chain that outranks every other eligible one. */
  lemma EndsWithBest(p: Primitives, cfg: ValidatorConfig, genesis: Block, s: Node, offers: seq<seq<Block>>, now: int)
    requires Valid(cfg) && Fair(p, cfg, genesis, s.chain, offers, now)
    requires TipsTell(genesis, Eligible(p, cfg, s.chain, offers, now))
    ensures var result := Offered(p, cfg, s, offers, now).chain;
            && result in Eligible(p, cfg, s.chain, offers, now)
            && forall c :: c in Eligible(p, cfg, s.chain, offers, now) && c != result ==>
                             c != [] && result != [] && Outranks(cfg, result, c)
  {
    var result := Offered(p, cfg, s, offers, now).chain;
    FairIsKin(p, cfg, genesis, s.chain, offers, now);
    EndsWithTop(p, cfg, genesis, Eligible(p, cfg, s.chain, offers, now), s, offers, now);
    forall c | c in Eligible(p, cfg, s.chain, offers, now) && c != result
      ensures c != [] && Outranks(cfg, result, c)
    {
      TiedIff(cfg, result, c);
    }
  }

  lemma OneOutcome(p: Primitives, cfg: ValidatorConfig, genesis: Block, s: Node, offers: seq<seq<Block>>,
                   others: seq<seq<Block>>, now: int)
    requires Valid(cfg) && Fair(p, cfg, genesis, s.chain, offers, now)
    requires forall c :: c in offers <==> c in others
    requires OneTop(cfg, Eligible(p, cfg, s.chain, offers, now))
    ensures Offered(p, cfg, s, offers, now) == Offered(p, cfg, s, others, now)
  {
    var chains := Eligible(p, cfg, s.chain, offers, now);
    FairIsKin(p, cfg, genesis, s.chain, offers, now);
    EndsWithTop(p, cfg, genesis, chains, s, offers, now);
    EndsWithTop(p, cfg, genesis, chains, s, others, now);
    assert Eligible(p, cfg, s.chain, offers, now) == Eligible(p, cfg, s.chain, others, now);
  }

  /** With distinct last hashes the outcome depends on the set of offers only. */
  lemma SelectionIsOrderIndependent(
    p: Primitives, cfg: ValidatorConfig, genesis: Block, s: Node, offers: seq<seq<Block>>,
    others: seq<seq<Block>>, now: int)
    requires Valid(cfg) && Fair(p, cfg, genesis, s.chain, offers, now)
    requires TipsTell(genesis, Eligible(p, cfg, s.chain, offers, now))
    requires forall c :: c in offers <==> c in others
    ensures Offered(p, cfg, s, offers, now) == Offered(p, cfg, s, others, now)
    ensures Settled(p, cfg, s, offers, now, Offered(p, cfg, s, offers, now))
  {
    var eligible := Eligible(p, cfg, s.chain, offers, now);
    FairIsKin(p, cfg, genesis, s.chain, offers, now);
    TipsTellOneTop(cfg, genesis, eligible);
    OneOutcome(p, cfg, genesis, s, offers, others, now);
    EndsWithTop(p, cfg, genesis, eligible, s, offers, now);
  }

  /** No offer ever lowers the rank of a node's chain. */
  lemma {:induction false} RankNeverDrops(
    p: Primitives, cfg: ValidatorConfig, genesis: Block, chains: set<seq<Block>>, s: Node,
    offers: seq<seq<Block>>, now: int)
    requires Valid(cfg) && Kin(cfg, genesis, chains) && s.chain in chains
    requires forall c :: c in offers && ValidChain(p, cfg, c, now) ==> c in chains
    ensures var result := Offered(p, cfg, s, offers, now).chain;
            result in chains && (result == s.chain || Outranks(cfg, result, s.chain))
    decreases |offers|
  {
    if offers == [] {
    } else {
      var n := |offers| - 1;
      RankNeverDrops(p, cfg, genesis, chains, s, offers[..n], now);
      var s1 := Offered(p, cfg, s, offers[..n], now);
      if !ValidChain(p, cfg, offers[n], now) {
        InvalidIsIgnored(p, cfg, s1, offers[n], now);
      } else {
        OfferTakesBetter(p, cfg, genesis, chains, s1, offers[n], now);
        if Outranks(cfg, offers[n], s1.chain) && Outranks(cfg, s1.chain, s.chain) {
          OutranksTransitive(cfg, offers[n], s1.chain, s.chain);
        }
      }
    }
  }

  // ----- Exactly when the order matters -----

  /** A chain at the top is never given up. */
  lemma TopStays(p: Primitives, cfg: ValidatorConfig, genesis: Block, chains: set<seq<Block>>, s: Node,
                 offers: seq<seq<Block>>, now: int)
    requires Valid(cfg) && Kin(cfg, genesis, chains) && s.chain in chains
    requires forall c :: c in offers && ValidChain(p, cfg, c, now) ==> c in chains
    requires Top(cfg, Eligible(p, cfg, s.chain, offers, now), s.chain)
    ensures Offered(p, cfg, s, offers, now) == s
  {
    EndsWithTop(p, cfg, genesis, chains, s, offers, now);
    RankNeverDrops(p, cfg, genesis, chains, s, offers, now);
  }

  lemma {:induction false} OfferedSplit(p: Primitives, cfg: ValidatorConfig, s: Node, a: seq<seq<Block>>,
                                        b: seq<seq<Block>>, now: int)
    requires Valid(cfg)
    ensures Offered(p, cfg, s, a + b, now) == Offered(p, cfg, Offered(p, cfg, s, a, now), b, now)
    decreases |b|
  {
    if b == [] {
      assert a + b == a;
    } else {
      assert (a + b)[..|a + b| - 1] == a + b[..|b| - 1];
      OfferedSplit(p, cfg, s, a, b[..|b| - 1], now);
    }
  }

  /** Of several chains at the top, the one offered first stays. */
  lemma FirstTopStays(p: Primitives, cfg: ValidatorConfig, genesis: Block, s: Node, t: seq<Block>,
                      rest: seq<seq<Block>>, now: int)
    requires Valid(cfg) && Fair(p, cfg, genesis, s.chain, [t] + rest, now)
    requires ValidChain(p, cfg, t, now) && Top(cfg, Eligible(p, cfg, s.chain, [t] + rest, now), t)
    requires !Top(cfg, Eligible(p, cfg, s.chain, [t] + rest, now), s.chain)
    ensures Offered(p, cfg, s, [t] + rest, now).chain == t
  {
    var eligible := Eligible(p, cfg, s.chain, [t] + rest, now);
    FairIsKin(p, cfg, genesis, s.chain, [t] + rest, now);
    assert t in [t] + rest && forall c :: c in rest ==> c in [t] + rest;
    var d :| d in eligible && d != [] && Outranks(cfg, d, s.chain);
    OutranksThrough(cfg, d, t, s.chain);
    OfferTakesBetter(p, cfg, genesis, eligible, s, t, now);
    assert [t][..0] == [];
    assert Offered(p, cfg, s, [], now) == s;
    var s1 := Offered(p, cfg, s, [t], now);
    assert s1 == s.(chain := t);
    OfferedSplit(p, cfg, s, [t], rest, now);
    assert Eligible(p, cfg, t, rest, now) <= eligible;
    TopStays(p, cfg, genesis, eligible, s1, rest, now);
  }

  /** The offers with the one at position `i` moved to the front. */
  ghost function Fronted(offers: seq<seq<Block>>, i: nat): seq<seq<Block>>
    requires i < |offers|
  {
    [offers[i]] + (offers[..i] + offers[i + 1..])
  }

  lemma FrontedIsPermutation(offers: seq<seq<Block>>, i: nat)
    requires i < |offers|
    ensures multiset(Fronted(offers, i)) == multiset(offers)
    ensures forall c :: c in Fronted(offers, i) <==> c in offers
  {
    assert offers == offers[..i] + [offers[i]] + offers[i + 1..];
    assert forall c :: c in Fronted(offers, i) <==> c in multiset(Fronted(offers, i));
    assert forall c :: c in offers <==> c in multiset(offers);
  }

  lemma FrontedTopStays(p: Primitives, cfg: ValidatorConfig, genesis: Block, s: Node, offers: seq<seq<Block>>,
                        t: seq<Block>, now: int)
    returns (others: seq<seq<Block>>)
    requires Valid(cfg) && Fair(p, cfg, genesis, s.chain, offers, now)
    requires Top(cfg, Eligible(p, cfg, s.chain, offers, now), t)
    requires !Top(cfg, Eligible(p, cfg, s.chain, offers, now), s.chain)
    ensures multiset(others) == multiset(offers) && Offered(p, cfg, s, others, now).chain == t
  {
    var i :| 0 <= i < |offers| && offers[i] == t;
    others := Fronted(offers, i);
    FrontedIsPermutation(offers, i);
    assert Eligible(p, cfg, s.chain, others, now) == Eligible(p, cfg, s.chain, offers, now);
    FirstTopStays(p, cfg, genesis, s, t, offers[..i] + offers[i + 1..], now);
  }

  /** Every order of the offers ends like this one. */
  ghost predicate OrderIrrelevant(p: Primitives, cfg: ValidatorConfig, s: Node, offers: seq<seq<Block>>, now: int)
    requires Valid(cfg)
  {
    forall others :: multiset(others) == multiset(offers) ==>
                       Offered(p, cfg, s, others, now) == Offered(p, cfg, s, offers, now)
  }

  lemma SameElements(offers: seq<seq<Block>>, others: seq<seq<Block>>)
    requires multiset(others) == multiset(offers)
    ensures forall c :: c in offers <==> c in others
  {
    assert forall c :: c in offers <==> c in multiset(offers);
    assert forall c :: c in others <==> c in multiset(others);
  }

  /**
   The order of the offers is irrelevant if and only if no eligible chain outranks
   the node's own, or only one eligible chain is at the top.
   */
  lemma OrderIrrelevantIff(p: Primitives, cfg: ValidatorConfig, genesis: Block, s: Node,
                           offers: seq<seq<Block>>, now: int)
    requires Valid(cfg) && Fair(p, cfg, genesis, s.chain, offers, now)
    ensures var eligible := Eligible(p, cfg, s.chain, offers, now);
            OrderIrrelevant(p, cfg, s, offers, now) <==> Top(cfg, eligible, s.chain) || OneTop(cfg, eligible)
  {
    var eligible := Eligible(p, cfg, s.chain, offers, now);
    FairIsKin(p, cfg, genesis, s.chain, offers, now);
    if Top(cfg, eligible, s.chain) || OneTop(cfg, eligible) {
      forall others | multiset(others) == multiset(offers)
        ensures Offered(p, cfg, s, others, now) == Offered(p, cfg, s, offers, now)
      {
        SameElements(offers, others);
        if OneTop(cfg, eligible) {
          OneOutcome(p, cfg, genesis, s, offers, others, now);
        } else {
          assert Eligible(p, cfg, s.chain, others, now) == eligible;
          TopStays(p, cfg, genesis, eligible, s, offers, now);
          TopStays(p, cfg, genesis, eligible, s, others, now);
        }
      }
    } else {
      var a, b :| Top(cfg, eligible, a) && Top(cfg, eligible, b) && a != b;
      var first := FrontedTopStays(p, cfg, genesis, s, offers, a, now);
      var second := FrontedTopStays(p, cfg, genesis, s, offers, b, now);
      assert Offered(p, cfg, s, first, now) != Offered(p, cfg, s, second, now);
    }
  }

  lemma LongerIsTaken(p: Primitives, cfg: ValidatorConfig, s: Node, c: seq<Block>, now: int)
    requires Valid(cfg) && IndexIsPosition(s.chain) && |s.chain| < |c| && ValidChain(p, cfg, c, now)
    ensures AfterReplace(p, cfg, s, c, now) == s.(chain := c)
  {
    if CheckpointForbids(s, c) {
      GuardNeverDecides(cfg, s, c);
    }
  }

  /** Chains that differ in a salt only share every hash, so the first one offered stays. */
  lemma SaltVariantsDependOnOrder(p: Primitives, cfg: ValidatorConfig, s: Node, c: seq<Block>, salt: string, now: int)
    requires Valid(cfg) && IndexIsPosition(s.chain) && IndexIsPosition(c)
    requires 1 < |c| && |s.chain| < |c| && ValidChain(p, cfg, c, now) && salt != Tip(c).salt
    ensures var d := c[|c| - 1 := Tip(c).(salt := salt)];
            && d != c
            && Offered(p, cfg, s, [c, d], now).chain == c
            && Offered(p, cfg, s, [d, c], now).chain == d
  {
    var d := c[|c| - 1 := Tip(c).(salt := salt)];
    assert Tip(d) != Tip(c);
    HashChain.SaltIsFree(p, cfg, c, now, |c| - 1, salt);
    FirstOfferStays(p, cfg, s, c, d, now);
    FirstOfferStays(p, cfg, s, d, c, now);
  }

  lemma FirstOfferStays(p: Primitives, cfg: ValidatorConfig, s: Node, c: seq<Block>, d: seq<Block>, now: int)
    requires Valid(cfg) && IndexIsPosition(s.chain) && |s.chain| < |c| && ValidChain(p, cfg, c, now)
    requires 1 < |c| == |d| && SameHashes(c, d)
    ensures Offered(p, cfg, s, [c, d], now).chain == c
  {
    LongerIsTaken(p, cfg, s, c, now);
    assert Offered(p, cfg, s, [], now) == s;
    assert [c][..0] == [] && [c, d][..1] == [c];
    assert Offered(p, cfg, s, [c], now) == s.(chain := c);
  }

  /**
   The tie-break by position: with equal lengths and equally proper last validators, the last hash
   with the smaller character at the first difference is taken over, and the other is not.
   */
  lemma TieGoesToSmallerHash(p: Primitives, cfg: ValidatorConfig, s: Node, theirs: seq<Block>, k: nat, now: int)
    requires Valid(cfg) && 1 < |s.chain| == |theirs| && IndexIsPosition(s.chain) && IndexIsPosition(theirs)
    requires Proper(cfg, s.chain) <==> Proper(cfg, theirs)
    requires Text.SmallerAt(Tip(theirs).hash, Tip(s.chain).hash, k)
    ensures ValidChain(p, cfg, theirs, now) ==> AfterReplace(p, cfg, s, theirs, now) == s.(chain := theirs)
    ensures AfterReplace(p, cfg, s.(chain := theirs), s.chain, now) == s.(chain := theirs)
  {
    Text.LexLessIff(Tip(theirs).hash, Tip(s.chain).hash);
    Text.LexAsymmetric(Tip(theirs).hash, Tip(s.chain).hash);
    Text.LexIrreflexive(Tip(theirs).hash);
    assert Prefers(cfg, s.chain, theirs) && !Prefers(cfg, theirs, s.chain);
    if CheckpointForbids(s, theirs) {
      GuardNeverDecides(cfg, s, theirs);
    }
  }

  /** Between equal lengths the chain that ends with the validator due by the list wins, whatever the hashes. */
  lemma DueTipWins(p: Primitives, cfg: ValidatorConfig, s: Node, theirs: seq<Block>, now: int)
    requires Valid(cfg) && 1 < |s.chain| == |theirs| && IndexIsPosition(s.chain) && IndexIsPosition(theirs)
    requires var due := cfg.validators[(|theirs| - 1) % |cfg.validators|];
             Tip(theirs).validator == due && Tip(s.chain).validator != due
    requires !SameHashes(s.chain, theirs)
    ensures ValidChain(p, cfg, theirs, now) ==> AfterReplace(p, cfg, s, theirs, now) == s.(chain := theirs)
    ensures AfterReplace(p, cfg, s.(chain := theirs), s.chain, now) == s.(chain := theirs)
  {
    assert Prefers(cfg, s.chain, theirs) && !Prefers(cfg, theirs, s.chain);
    if CheckpointForbids(s, theirs) {
      GuardNeverDecides(cfg, s, theirs);
    }
  }
}
