/**
 The Proof-of-Authority network as a step system. Honest nodes create blocks,
 receive any block ever created (in any order, again, or never) and synchronise
 with any chain some node has held. Nodes do not restart.
 */
module Network {
  import opened Wrappers
  import opened Config
  import opened Blocks
  import opened Ledger

  datatype Net = Net(
    nodes: map<string, Node>,
    sent: set<Block>,            // every block created so far
    snapshots: set<seq<Block>>)  // every chain held so far

  datatype Step =
    | SubmitCollection(id: string, collection: Collection)
    | SubmitAccount(id: string, account: PendingAccount)
    | Create(id: string, draw: Draw)
    | Deliver(id: string, block: Block)
    | Sync(id: string, chain: seq<Block>, now: int)

  ghost function Start(p: Primitives, cfg: ValidatorConfig, ids: set<string>): Net
    requires Valid(cfg)
  {
    Net(map id | id in ids :: InitialNode(p, cfg), {}, {[Genesis(p, cfg)]})
  }

  /** The network once node `id` has become `s`. */
  function Update(net: Net, id: string, s: Node): Net {
    net.(nodes := net.nodes[id := s], snapshots := net.snapshots + {s.chain})
  }

  function Created(p: Primitives, cfg: ValidatorConfig, net: Net, id: string, d: Draw): Net
    requires Valid(cfg) && id in net.nodes
  {
    match CreateBlock(p, cfg, id, net.nodes[id], d)
    case Err(_) => net
    case Ok(s) => Update(net, id, s).(sent := net.sent + {s.chain[|s.chain| - 1]})
  }

  /** A step of an unknown node, or of a message nobody sent, changes nothing. */
  ghost function Next(p: Primitives, cfg: ValidatorConfig, net: Net, step: Step): Net
    requires Valid(cfg)
  {
    if step.id !in net.nodes then net
    else
      var s := net.nodes[step.id];
      match step
      case SubmitCollection(id, c) => Update(net, id, s.(collections := s.collections + [c]))
      case SubmitAccount(id, a) => Update(net, id, s.(accounts := s.accounts + [a]))
      case Create(id, d) => Created(p, cfg, net, id, d)
      case Deliver(id, b) => if b in net.sent then Update(net, id, AfterReceive(p, s, b)) else net
      case Sync(id, chain, now) =>
        if chain in net.snapshots then Update(net, id, AfterReplace(p, cfg, s, chain, now)) else net
  }

  ghost function Run(p: Primitives, cfg: ValidatorConfig, ids: set<string>, steps: seq<Step>): Net
    requires Valid(cfg)
  {
    if steps == [] then Start(p, cfg, ids)
    else Next(p, cfg, Run(p, cfg, ids, steps[..|steps| - 1]), steps[|steps| - 1])
  }

  /** What the step submits to a node of the network. */
  function Brings(ids: set<string>, step: Step): multiset<Collection> {
    if step.SubmitCollection? && step.id in ids then multiset{step.collection} else multiset{}
  }

  function Submitted(ids: set<string>, steps: seq<Step>): multiset<Collection> {
    if steps == [] then multiset{}
    else Submitted(ids, steps[..|steps| - 1]) + Brings(ids, steps[|steps| - 1])
  }

  /** Of any two nodes, one chain is a prefix of the other. */
  ghost predicate NoFork(net: Net) {
    forall a, b :: a in net.nodes && b in net.nodes ==>
                     net.nodes[a].chain <= net.nodes[b].chain || net.nodes[b].chain <= net.nodes[a].chain
  }

  // ----- Who may create which height -----

  ghost predicate Staffed(cfg: ValidatorConfig, ids: set<string>, height: nat)
    requires Valid(cfg)
  {
    exists id :: id in ids && Authorized(cfg, id, height)
  }

  ghost predicate SoleAuthor(cfg: ValidatorConfig, ids: set<string>, height: nat)
    requires Valid(cfg)
  {
    forall a, b :: a in ids && b in ids && Authorized(cfg, a, height) && Authorized(cfg, b, height) ==> a == b
  }

  /** A height can be attempted only when some node may create each height below it. */
  ghost predicate Attainable(cfg: ValidatorConfig, ids: set<string>, height: nat)
    requires Valid(cfg)
  {
    1 <= height && forall g :: 1 <= g < height ==> Staffed(cfg, ids, g)
  }

  ghost predicate SoleAuthors(cfg: ValidatorConfig, ids: set<string>)
    requires Valid(cfg)
  {
    forall h :: Attainable(cfg, ids, h) ==> SoleAuthor(cfg, ids, h)
  }

  /** At most one node per validator name is more than enough. */
  lemma OneNodePerNameSuffices(cfg: ValidatorConfig, ids: set<string>)
    requires Valid(cfg)
    requires forall a, b | a in ids && b in ids && a in cfg.nodeToValidator && b in cfg.nodeToValidator ::
               cfg.nodeToValidator[a] == cfg.nodeToValidator[b] ==> a == b
    ensures SoleAuthors(cfg, ids)
  {
  }

  // ----- The invariant: one canonical chain holds everything -----

  ghost predicate Canonical(p: Primitives, cfg: ValidatorConfig, ids: set<string>, all: seq<Block>)
    requires Valid(cfg)
  {
    && all != [] && all[0] == Genesis(p, cfg)
    && IndexIsPosition(all)
    && forall h :: 1 <= h < |all| ==> Staffed(cfg, ids, h)
  }

  ghost predicate IsPart(chain: seq<Block>, all: seq<Block>) {
    chain != [] && chain <= all
  }

  /** Whoever may create a height that exists already holds it. */
  ghost predicate AuthorsKeepUp(cfg: ValidatorConfig, net: Net, all: seq<Block>)
    requires Valid(cfg)
  {
    forall id, h :: id in net.nodes && 1 <= h < |all| && Authorized(cfg, id, h) ==>
                      |net.nodes[id].chain| > h
  }

  ghost predicate Inv(p: Primitives, cfg: ValidatorConfig, ids: set<string>, net: Net, all: seq<Block>)
    requires Valid(cfg)
  {
    && net.nodes.Keys == ids
    && Canonical(p, cfg, ids, all)
    && (forall id :: id in net.nodes ==> IsPart(net.nodes[id].chain, all))
    && (forall c :: c in net.snapshots ==> IsPart(c, all))
    && (forall b :: b in net.sent ==> 1 <= b.index < |all| && all[b.index] == b)
    && AuthorsKeepUp(cfg, net, all)
  }

  /** A node may move along the canonical chain, never back. */
  lemma MoveKeepsInv(p: Primitives, cfg: ValidatorConfig, ids: set<string>, net: Net, all: seq<Block>,
                     id: string, s: Node)
    requires Valid(cfg) && Inv(p, cfg, ids, net, all) && id in net.nodes
    requires IsPart(s.chain, all) && |net.nodes[id].chain| <= |s.chain|
    ensures Inv(p, cfg, ids, Update(net, id, s), all)
  {
  }

  lemma DeliverKeepsInv(p: Primitives, cfg: ValidatorConfig, ids: set<string>, net: Net, all: seq<Block>,
                        id: string, b: Block)
    requires Valid(cfg) && Inv(p, cfg, ids, net, all) && id in net.nodes && b in net.sent
    ensures Inv(p, cfg, ids, Update(net, id, AfterReceive(p, net.nodes[id], b)), all)
  {
    var s := net.nodes[id];
    assert IsPart(s.chain, all);
    if Receive(p, s.chain, b) == Appended {
      assert s.chain[|s.chain| - 1].index == |s.chain| - 1;
      assert s.chain + [b] == all[..|s.chain| + 1];
    }
    MoveKeepsInv(p, cfg, ids, net, all, id, AfterReceive(p, s, b));
  }

  lemma SyncKeepsInv(p: Primitives, cfg: ValidatorConfig, ids: set<string>, net: Net, all: seq<Block>,
                     id: string, chain: seq<Block>, now: int)
    requires Valid(cfg) && Inv(p, cfg, ids, net, all) && id in net.nodes && chain in net.snapshots
    ensures Inv(p, cfg, ids, Update(net, id, AfterReplace(p, cfg, net.nodes[id], chain, now)), all)
  {
    MoveKeepsInv(p, cfg, ids, net, all, id, AfterReplace(p, cfg, net.nodes[id], chain, now));
  }

  /** An author creates only at the tip of the canonical chain. */
  lemma CreatesAtTip(p: Primitives, cfg: ValidatorConfig, ids: set<string>, net: Net, all: seq<Block>, id: string)
    requires Valid(cfg) && Inv(p, cfg, ids, net, all) && id in net.nodes
    requires var chain := net.nodes[id].chain;
             Authorized(cfg, id, chain[|chain| - 1].index + 1)
    ensures net.nodes[id].chain == all
  {
    var chain := net.nodes[id].chain;
    assert IsPart(chain, all) && chain[|chain| - 1] == all[|chain| - 1];
  }

  lemma CanonicalGrows(p: Primitives, cfg: ValidatorConfig, ids: set<string>, all: seq<Block>, b: Block, id: string)
    requires Valid(cfg) && Canonical(p, cfg, ids, all) && SoleAuthors(cfg, ids)
    requires b.index == |all| && id in ids && Authorized(cfg, id, |all|)
    ensures Canonical(p, cfg, ids, all + [b])
    ensures forall other :: other in ids && Authorized(cfg, other, |all|) ==> other == id
  {
    assert Attainable(cfg, ids, |all|);
    assert SoleAuthor(cfg, ids, |all|);
  }

  lemma AuthorsStillKeepUp(cfg: ValidatorConfig, ids: set<string>, net: Net, all: seq<Block>, id: string, b: Block,
                           s: Node)
    requires Valid(cfg) && AuthorsKeepUp(cfg, net, all) && net.nodes.Keys == ids && id in ids
    requires net.nodes[id].chain == all && s.chain == all + [b]
    requires forall other :: other in ids && Authorized(cfg, other, |all|) ==> other == id
    ensures AuthorsKeepUp(cfg, Update(net, id, s).(sent := net.sent + {b}), all + [b])
  {
  }

  /** A creation at the tip extends the canonical chain. */
  lemma CreateExtends(p: Primitives, cfg: ValidatorConfig, ids: set<string>, net: Net, all: seq<Block>,
                      id: string, b: Block, s: Node)
    requires Valid(cfg) && Inv(p, cfg, ids, net, all) && SoleAuthors(cfg, ids) && id in net.nodes
    requires net.nodes[id].chain == all && s.chain == all + [b]
    requires b.index == |all| && Authorized(cfg, id, |all|)
    ensures Inv(p, cfg, ids, Update(net, id, s).(sent := net.sent + {b}), all + [b])
  {
    CanonicalGrows(p, cfg, ids, all, b, id);
    AuthorsStillKeepUp(cfg, ids, net, all, id, b, s);
  }

  lemma CreateKeepsInv(p: Primitives, cfg: ValidatorConfig, ids: set<string>, net: Net, all: seq<Block>,
                       id: string, d: Draw)
    returns (all': seq<Block>)
    requires Valid(cfg) && Inv(p, cfg, ids, net, all) && SoleAuthors(cfg, ids) && id in net.nodes
    ensures all <= all' && Inv(p, cfg, ids, Created(p, cfg, net, id, d), all')
    ensures match CreateBlock(p, cfg, id, net.nodes[id], d)
            case Err(_) => all' == all
            case Ok(s) => net.nodes[id].chain == all && s.chain == all'
  {
    all' := all;
    match CreateBlock(p, cfg, id, net.nodes[id], d) {
      case Err(_) =>
      case Ok(s) =>
        var b := s.chain[|s.chain| - 1];
        CreatesAtTip(p, cfg, ids, net, all, id);
        CreateExtends(p, cfg, ids, net, all, id, b, s);
        all' := all + [b];
    }
  }

  lemma StepKeepsInv(p: Primitives, cfg: ValidatorConfig, ids: set<string>, net: Net, all: seq<Block>, step: Step)
    returns (all': seq<Block>)
    requires Valid(cfg) && Inv(p, cfg, ids, net, all) && SoleAuthors(cfg, ids)
    ensures all <= all' && Inv(p, cfg, ids, Next(p, cfg, net, step), all')
    ensures if step.Create? && step.id in net.nodes && CreateBlock(p, cfg, step.id, net.nodes[step.id], step.draw).Ok?
            then && net.nodes[step.id].chain == all
                 && CreateBlock(p, cfg, step.id, net.nodes[step.id], step.draw).value.chain == all'
            else all' == all
  {
    all' := all;
    if step.id in net.nodes {
      var s := net.nodes[step.id];
      match step {
        case SubmitCollection(id, c) =>
          MoveKeepsInv(p, cfg, ids, net, all, id, s.(collections := s.collections + [c]));
        case SubmitAccount(id, a) =>
          MoveKeepsInv(p, cfg, ids, net, all, id, s.(accounts := s.accounts + [a]));
        case Create(id, d) => all' := CreateKeepsInv(p, cfg, ids, net, all, id, d);
        case Deliver(id, b) =>
          if b in net.sent {
            DeliverKeepsInv(p, cfg, ids, net, all, id, b);
          }
        case Sync(id, chain, now) =>
          if chain in net.snapshots {
            SyncKeepsInv(p, cfg, ids, net, all, id, chain, now);
          }
      }
    }
  }

  lemma {:induction false} RunKeepsInv(p: Primitives, cfg: ValidatorConfig, ids: set<string>, steps: seq<Step>)
    returns (all: seq<Block>)
    requires Valid(cfg) && SoleAuthors(cfg, ids)
    ensures Inv(p, cfg, ids, Run(p, cfg, ids, steps), all)
    decreases |steps|
  {
    if steps == [] {
      all := [Genesis(p, cfg)];
    } else {
      var n := |steps| - 1;
      all := RunKeepsInv(p, cfg, ids, steps[..n]);
      all := StepKeepsInv(p, cfg, ids, Run(p, cfg, ids, steps[..n]), all, steps[n]);
    }
  }

  // ----- Main results -----

  /** In every reachable state all chains are prefixes of one another. */
  lemma NoForks(p: Primitives, cfg: ValidatorConfig, ids: set<string>, steps: seq<Step>)
    requires Valid(cfg) && SoleAuthors(cfg, ids)
    ensures NoFork(Run(p, cfg, ids, steps))
  {
    var all := RunKeepsInv(p, cfg, ids, steps);
    var net := Run(p, cfg, ids, steps);
    forall a, b | a in net.nodes && b in net.nodes
      ensures net.nodes[a].chain <= net.nodes[b].chain || net.nodes[b].chain <= net.nodes[a].chain
    {
      assert IsPart(net.nodes[a].chain, all) && IsPart(net.nodes[b].chain, all);
    }
  }

  /** The node's chain in the first network is a prefix of its chain in the second. */
  ghost predicate Extended(net: Net, net': Net, id: string) {
    id in net.nodes && id in net'.nodes && net.nodes[id].chain <= net'.nodes[id].chain
  }

  lemma PartsExtend(part: seq<Block>, longer: seq<Block>, all: seq<Block>)
    requires IsPart(part, all) && IsPart(longer, all) && |part| <= |longer|
    ensures part <= longer
  {
  }

  lemma NeverShorter(p: Primitives, cfg: ValidatorConfig, net: Net, step: Step, id: string)
    requires Valid(cfg) && id in net.nodes
    ensures id in Next(p, cfg, net, step).nodes
    ensures |net.nodes[id].chain| <= |Next(p, cfg, net, step).nodes[id].chain|
  {
  }

  lemma StepExtendsChains(p: Primitives, cfg: ValidatorConfig, ids: set<string>, net: Net, all: seq<Block>,
                          step: Step, id: string)
    requires Valid(cfg) && Inv(p, cfg, ids, net, all) && SoleAuthors(cfg, ids) && id in ids
    ensures Extended(net, Next(p, cfg, net, step), id)
  {
    var all' := StepKeepsInv(p, cfg, ids, net, all, step);
    NeverShorter(p, cfg, net, step, id);
    assert IsPart(net.nodes[id].chain, all) && IsPart(net.nodes[id].chain, all');
    PartsExtend(net.nodes[id].chain, Next(p, cfg, net, step).nodes[id].chain, all');
  }

  lemma RunStep(p: Primitives, cfg: ValidatorConfig, ids: set<string>, steps: seq<Step>, j: nat)
    requires Valid(cfg) && j < |steps|
    ensures Run(p, cfg, ids, steps[..j + 1]) == Next(p, cfg, Run(p, cfg, ids, steps[..j]), steps[j])
  {
    assert steps[..j + 1][..j] == steps[..j];
  }

  /** No reorganisation: what a node once holds it holds forever, at the same position. */
  lemma {:induction false} ChainsOnlyGrow(
    p: Primitives, cfg: ValidatorConfig, ids: set<string>, steps: seq<Step>, i: nat, j: nat, id: string)
    requires Valid(cfg) && SoleAuthors(cfg, ids) && i <= j <= |steps| && id in ids
    ensures Extended(Run(p, cfg, ids, steps[..i]), Run(p, cfg, ids, steps[..j]), id)
    decreases j
  {
    if i == j {
      var all := RunKeepsInv(p, cfg, ids, steps[..i]);
    } else {
      ChainsOnlyGrow(p, cfg, ids, steps, i, j - 1, id);
      var all := RunKeepsInv(p, cfg, ids, steps[..j - 1]);
      RunStep(p, cfg, ids, steps, j - 1);
      var net := Run(p, cfg, ids, steps[..j - 1]);
      StepExtendsChains(p, cfg, ids, net, all, steps[j - 1], id);
      ExtendedFurther(Run(p, cfg, ids, steps[..i]), net, Next(p, cfg, net, steps[j - 1]), id);
    }
  }

  lemma ExtendedFurther(a: Net, b: Net, c: Net, id: string)
    requires Extended(a, b, id) && Extended(b, c, id)
    ensures Extended(a, c, id)
  {
  }

  // ----- Whose blocks a run shows -----

  /** Every block at its height names the validator that is due there. */
  ghost predicate Rotated(cfg: ValidatorConfig, chain: seq<Block>)
    requires Valid(cfg)
  {
    IndexIsPosition(chain) && forall i :: 0 <= i < |chain| ==> chain[i].validator == ValidatorFor(cfg, i)
  }

  ghost predicate AllRotated(cfg: ValidatorConfig, net: Net)
    requires Valid(cfg)
  {
    && (forall id :: id in net.nodes ==> net.nodes[id].chain != [] && Rotated(cfg, net.nodes[id].chain))
    && (forall c :: c in net.snapshots ==> c != [] && Rotated(cfg, c))
    && (forall b :: b in net.sent ==> b.validator == ValidatorFor(cfg, b.index))
  }

  lemma CreatedIsRotated(p: Primitives, cfg: ValidatorConfig, id: string, s: Node, d: Draw)
    requires Valid(cfg) && s.chain != [] && Rotated(cfg, s.chain) && CreateBlock(p, cfg, id, s, d).Ok?
    ensures var chain := CreateBlock(p, cfg, id, s, d).value.chain;
            && chain != [] && Rotated(cfg, chain)
            && chain[|chain| - 1].validator == ValidatorFor(cfg, chain[|chain| - 1].index)
  {
    assert s.chain[|s.chain| - 1].index + 1 == |s.chain|;
  }

  lemma ReceivedIsRotated(p: Primitives, cfg: ValidatorConfig, s: Node, b: Block)
    requires Valid(cfg) && s.chain != [] && Rotated(cfg, s.chain) && b.validator == ValidatorFor(cfg, b.index)
    ensures AfterReceive(p, s, b).chain != [] && Rotated(cfg, AfterReceive(p, s, b).chain)
  {
    assert s.chain[|s.chain| - 1].index + 1 == |s.chain|;
  }

  lemma UpdateRotated(cfg: ValidatorConfig, net: Net, id: string, s: Node)
    requires Valid(cfg) && AllRotated(cfg, net) && s.chain != [] && Rotated(cfg, s.chain)
    ensures AllRotated(cfg, Update(net, id, s))
  {
  }

  lemma StepKeepsRotation(p: Primitives, cfg: ValidatorConfig, net: Net, step: Step)
    requires Valid(cfg) && AllRotated(cfg, net)
    ensures AllRotated(cfg, Next(p, cfg, net, step))
  {
    if step.id in net.nodes {
      var s := net.nodes[step.id];
      match step {
        case SubmitCollection(id, c) => UpdateRotated(cfg, net, id, s.(collections := s.collections + [c]));
        case SubmitAccount(id, a) => UpdateRotated(cfg, net, id, s.(accounts := s.accounts + [a]));
        case Create(id, d) =>
          match CreateBlock(p, cfg, id, s, d) {
            case Err(_) =>
            case Ok(s') =>
              CreatedIsRotated(p, cfg, id, s, d);
              UpdateRotated(cfg, net, id, s');
          }
        case Deliver(id, b) =>
          if b in net.sent {
            ReceivedIsRotated(p, cfg, s, b);
            UpdateRotated(cfg, net, id, AfterReceive(p, s, b));
          }
        case Sync(id, chain, now) =>
          if chain in net.snapshots {
            UpdateRotated(cfg, net, id, AfterReplace(p, cfg, s, chain, now));
          }
      }
    }
  }

  lemma {:induction false} RunKeepsRotation(p: Primitives, cfg: ValidatorConfig, ids: set<string>, steps: seq<Step>)
    requires Valid(cfg)
    ensures AllRotated(cfg, Run(p, cfg, ids, steps))
  {
    if steps == [] {
    } else {
      var n := |steps| - 1;
      RunKeepsRotation(p, cfg, ids, steps[..n]);
      StepKeepsRotation(p, cfg, Run(p, cfg, ids, steps[..n]), steps[n]);
    }
  }

  /** The block at height `h` names the validator as listed, or the one a whole round earlier. */
  ghost predicate InOrderAt(cfg: ValidatorConfig, chain: seq<Block>, h: nat)
    requires Valid(cfg) && h < |chain|
  {
    var n := |cfg.validators|;
    chain[h].validator == if h < n then cfg.validators[h] else chain[h - n].validator
  }

  lemma RotatedIsInOrder(cfg: ValidatorConfig, chain: seq<Block>, h: nat)
    requires Valid(cfg) && Rotated(cfg, chain) && h < |chain|
    ensures InOrderAt(cfg, chain, h)
  {
    HeightInOrder(cfg, h);
  }

  /**
   In every reachable chain the blocks name the validators in configured order, the genesis
   block the first one, and after the last one over again; sole authors or not.
   */
  lemma ChainsFollowRotation(p: Primitives, cfg: ValidatorConfig, ids: set<string>, steps: seq<Step>, id: string,
                             h: nat)
    requires Valid(cfg) && id in Run(p, cfg, ids, steps).nodes && h < |Run(p, cfg, ids, steps).nodes[id].chain|
    ensures InOrderAt(cfg, Run(p, cfg, ids, steps).nodes[id].chain, h)
  {
    RunKeepsRotation(p, cfg, ids, steps);
    RotatedIsInOrder(cfg, Run(p, cfg, ids, steps).nodes[id].chain, h);
  }

  /** What a node answers to a chain request is on offer for synchronisation. */
  lemma {:induction false} HeldIsOnOffer(p: Primitives, cfg: ValidatorConfig, ids: set<string>, steps: seq<Step>,
                                         id: string)
    requires Valid(cfg) && id in Run(p, cfg, ids, steps).nodes
    ensures Run(p, cfg, ids, steps).nodes[id].chain in Run(p, cfg, ids, steps).snapshots
    decreases |steps|
  {
    if steps == [] {
    } else {
      var n := |steps| - 1;
      var net := Run(p, cfg, ids, steps[..n]);
      if id in net.nodes {
        HeldIsOnOffer(p, cfg, ids, steps[..n], id);
      }
      StepOffers(p, cfg, net, steps[n], id);
    }
  }

  lemma StepOffers(p: Primitives, cfg: ValidatorConfig, net: Net, step: Step, id: string)
    requires Valid(cfg) && id in Next(p, cfg, net, step).nodes
    requires id in net.nodes ==> net.nodes[id].chain in net.snapshots
    ensures Next(p, cfg, net, step).nodes[id].chain in Next(p, cfg, net, step).snapshots
  {
  }
}
