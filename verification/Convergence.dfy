/**
 Agreement: what becomes of a network with sole authors when its nodes ask the one with
 the longest chain. Every node then holds that chain, unless the chain fails the check.
 */
module Convergence {
  import opened Wrappers
  import opened Config
  import opened Blocks
  import opened Ledger
  import opened Network

  /** The nodes synchronise with the chain one after the other. */
  function SyncAll(order: seq<string>, chain: seq<Block>, now: int): seq<Step> {
    if order == [] then []
    else SyncAll(order[..|order| - 1], chain, now) + [Sync(order[|order| - 1], chain, now)]
  }

  ghost predicate Longest(net: Net, chain: seq<Block>) {
    forall id :: id in net.nodes ==> |net.nodes[id].chain| <= |chain|
  }

  /** A node on a part of the chain takes it over exactly when it is valid; no checkpoint is in the way. */
  lemma PartTakesWhole(p: Primitives, cfg: ValidatorConfig, s: Node, chain: seq<Block>, now: int)
    requires Valid(cfg) && IsPart(s.chain, chain) && IndexIsPosition(chain)
    ensures AfterReplace(p, cfg, s, chain, now) ==
            if ValidChain(p, cfg, chain, now) then s.(chain := chain) else s
  {
    if |s.chain| < |chain| {
      NoCheckpointForbidsLonger(s, chain);
    } else {
      assert s.chain == chain;
    }
  }

  lemma NoCheckpointForbidsLonger(s: Node, chain: seq<Block>)
    requires IndexIsPosition(s.chain) && |s.chain| < |chain|
    ensures !CheckpointForbids(s, chain)
  {
  }

  /** Node `id` holds the chain if it is valid, and otherwise what it held before. */
  ghost predicate Settled(before: Net, net: Net, id: string, chain: seq<Block>, valid: bool) {
    && id in before.nodes && id in net.nodes
    && net.nodes[id].chain == if valid then chain else before.nodes[id].chain
  }

  /** Part way through the synchronisations: those in `order` have asked. */
  ghost predicate Settling(ids: set<string>, before: Net, net: Net, order: seq<string>, chain: seq<Block>,
                           valid: bool) {
    && before.nodes.Keys == ids == net.nodes.Keys
    && chain in net.snapshots
    && (forall id :: id in ids && id in order ==> Settled(before, net, id, chain, valid))
    && (forall id :: id in ids && id !in order ==> net.nodes[id] == before.nodes[id])
  }

  lemma SettlingUpdate(ids: set<string>, before: Net, net: Net, order: seq<string>, id: string, s: Node,
                       chain: seq<Block>, valid: bool)
    requires Settling(ids, before, net, order, chain, valid) && id in ids
    requires s == if valid then net.nodes[id].(chain := chain) else net.nodes[id]
    ensures Settling(ids, before, Update(net, id, s), order + [id], chain, valid)
  {
    var net' := Update(net, id, s);
    assert Settled(before, net', id, chain, valid);
    forall other | other in ids && other != id && other in order
      ensures Settled(before, net', other, chain, valid)
    {
      assert Settled(before, net, other, chain, valid);
    }
  }

  /** The state after `order` has asked, reached from `before`. */
  ghost predicate Asked(p: Primitives, cfg: ValidatorConfig, ids: set<string>, before: Net, net: Net, all: seq<Block>,
                        order: seq<string>, chain: seq<Block>, now: int)
    requires Valid(cfg)
  {
    && Inv(p, cfg, ids, net, all) && Longest(net, chain)
    && Settling(ids, before, net, order, chain, ValidChain(p, cfg, chain, now))
  }

  lemma LongestUpdate(net: Net, id: string, s: Node, chain: seq<Block>)
    requires Longest(net, chain) && |s.chain| <= |chain|
    ensures Longest(Update(net, id, s), chain)
  {
  }

  lemma UnknownAsks(ids: set<string>, before: Net, net: Net, order: seq<string>, id: string, chain: seq<Block>,
                    valid: bool)
    requires Settling(ids, before, net, order, chain, valid) && id !in ids
    ensures Settling(ids, before, net, order + [id], chain, valid)
  {
  }

  /** One more node asks, perhaps again. */
  lemma SettlingStep(p: Primitives, cfg: ValidatorConfig, ids: set<string>, before: Net, net: Net, all: seq<Block>,
                     order: seq<string>, id: string, chain: seq<Block>, now: int)
    requires Valid(cfg) && Asked(p, cfg, ids, before, net, all, order, chain, now)
    ensures Asked(p, cfg, ids, before, Next(p, cfg, net, Sync(id, chain, now)), all, order + [id], chain, now)
  {
    var valid := ValidChain(p, cfg, chain, now);
    if id in net.nodes {
      var s := AfterReplace(p, cfg, net.nodes[id], chain, now);
      assert Next(p, cfg, net, Sync(id, chain, now)) == Update(net, id, s);
      AsksLongest(p, cfg, ids, net, all, id, chain, now);
      SyncKeepsInv(p, cfg, ids, net, all, id, chain, now);
      LongestUpdate(net, id, s, chain);
      SettlingUpdate(ids, before, net, order, id, s, chain, valid);
    } else {
      UnknownAsks(ids, before, net, order, id, chain, valid);
    }
  }

  lemma AsksLongest(p: Primitives, cfg: ValidatorConfig, ids: set<string>, net: Net, all: seq<Block>, id: string,
                    chain: seq<Block>, now: int)
    requires Valid(cfg) && Inv(p, cfg, ids, net, all) && Longest(net, chain) && chain in net.snapshots
    requires id in net.nodes
    ensures var s := net.nodes[id];
            AfterReplace(p, cfg, s, chain, now) == if ValidChain(p, cfg, chain, now) then s.(chain := chain) else s
  {
    assert IsPart(net.nodes[id].chain, all) && IsPart(chain, all);
    PartTakesWhole(p, cfg, net.nodes[id], chain, now);
  }

  lemma {:induction false} AskedRun(p: Primitives, cfg: ValidatorConfig, ids: set<string>, steps: seq<Step>,
                                    all: seq<Block>, order: seq<string>, chain: seq<Block>, now: int)
    requires Valid(cfg) && Asked(p, cfg, ids, Run(p, cfg, ids, steps), Run(p, cfg, ids, steps), all, [], chain, now)
    ensures Asked(p, cfg, ids, Run(p, cfg, ids, steps), Run(p, cfg, ids, steps + SyncAll(order, chain, now)), all,
                  order, chain, now)
    decreases |order|
  {
    if order == [] {
      assert steps + SyncAll(order, chain, now) == steps;
    } else {
      var n := |order| - 1;
      AskedRun(p, cfg, ids, steps, all, order[..n], chain, now);
      assert order == order[..n] + [order[n]];
      OneMoreAsks(p, cfg, ids, steps, order, chain, now);
      SettlingStep(p, cfg, ids, Run(p, cfg, ids, steps), Run(p, cfg, ids, steps + SyncAll(order[..n], chain, now)), all,
                   order[..n], order[n], chain, now);
    }
  }

  lemma OneMoreAsks(p: Primitives, cfg: ValidatorConfig, ids: set<string>, steps: seq<Step>, order: seq<string>,
                    chain: seq<Block>, now: int)
    requires Valid(cfg) && order != []
    ensures var n := |order| - 1;
            Run(p, cfg, ids, steps + SyncAll(order, chain, now)) ==
            Next(p, cfg, Run(p, cfg, ids, steps + SyncAll(order[..n], chain, now)), Sync(order[n], chain, now))
  {
    var n := |order| - 1;
    var some, last := steps + SyncAll(order[..n], chain, now), Sync(order[n], chain, now);
    assert steps + SyncAll(order, chain, now) == some + [last];
    assert (some + [last])[..|some|] == some;
  }

  /** All nodes hold the chain. */
  ghost predicate Agree(net: Net, chain: seq<Block>) {
    forall id :: id in net.nodes ==> net.nodes[id].chain == chain
  }

  /**
   From any reachable state of a network with sole authors, when all nodes ask the one with the
   longest chain, in any order, they all hold its chain if and only if it is valid or they did before.
   */
  lemma AgreementIff(p: Primitives, cfg: ValidatorConfig, ids: set<string>, steps: seq<Step>, a: string,
                     order: seq<string>, now: int)
    requires Valid(cfg) && SoleAuthors(cfg, ids) && forall id :: id in ids ==> id in order
    requires var net := Run(p, cfg, ids, steps);
             a in net.nodes && Longest(net, net.nodes[a].chain)
    ensures var net, chain := Run(p, cfg, ids, steps), Run(p, cfg, ids, steps).nodes[a].chain;
            Agree(Run(p, cfg, ids, steps + SyncAll(order, chain, now)), chain) <==>
            ValidChain(p, cfg, chain, now) || Agree(net, chain)
  {
    var net := Run(p, cfg, ids, steps);
    var chain := net.nodes[a].chain;
    var all := RunKeepsInv(p, cfg, ids, steps);
    HeldIsOnOffer(p, cfg, ids, steps, a);
    AskedRun(p, cfg, ids, steps, all, order, chain, now);
    SettledAgreeIff(ids, net, Run(p, cfg, ids, steps + SyncAll(order, chain, now)), order, chain,
                    ValidChain(p, cfg, chain, now));
  }

  lemma SettledAgreeIff(ids: set<string>, before: Net, net: Net, order: seq<string>, chain: seq<Block>, valid: bool)
    requires Settling(ids, before, net, order, chain, valid) && forall id :: id in ids ==> id in order
    ensures Agree(net, chain) <==> valid || Agree(before, chain)
  {
    assert forall id :: id in ids ==> Settled(before, net, id, chain, valid);
  }
}
