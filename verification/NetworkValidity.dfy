/**
 When the chains of a network pass `is_valid`. Timestamps are rounded to days and
 jittered at creation, so the same moves of the nodes give different blocks for
 different jitters. Moves therefore name blocks by height and chains by length.
 */
module NetworkValidity {
  import opened Wrappers
  import opened Config
  import opened Blocks
  import opened Ledger
  import opened Network
  import opened Validity
  import Conservation
  import Selection
  import Forks

  datatype Act =
    | Submit(collection: Collection)
    | Register(account: PendingAccount)
    | Make(salt: string)      // create a block, with whatever jitter is drawn
    | Pass(height: nat)       // receive the block of this height, if it was made
    | Fetch(length: nat)      // synchronise with a chain of this length, if one was held

  datatype Move = Move(id: string, clock: int, act: Act)

  ghost function SentAt(net: Net, height: nat): Option<Block> {
    if b :| b in net.sent && b.index == height then Some(b) else None
  }

  ghost function HeldWith(net: Net, length: nat): Option<seq<Block>> {
    if c :| c in net.snapshots && |c| == length then Some(c) else None
  }

  /** The network step that the move is, if it is one. */
  ghost function StepOf(net: Net, m: Move, jitter: int): Option<Step> {
    match m.act
    case Submit(c) => Some(SubmitCollection(m.id, c))
    case Register(a) => Some(SubmitAccount(m.id, a))
    case Make(salt) => Some(Create(m.id, Draw(salt, m.clock, jitter)))
    case Pass(h) => (match SentAt(net, h) case None => None case Some(b) => Some(Deliver(m.id, b)))
    case Fetch(n) => (match HeldWith(net, n) case None => None case Some(c) => Some(Sync(m.id, c, m.clock)))
  }

  ghost function Play(p: Primitives, cfg: ValidatorConfig, net: Net, m: Move, jitter: int): Net
    requires Valid(cfg)
  {
    match StepOf(net, m, jitter)
    case None => net
    case Some(step) => Next(p, cfg, net, step)
  }

  ghost function Played(p: Primitives, cfg: ValidatorConfig, ids: set<string>, moves: seq<Move>, jitters: seq<int>): Net
    requires Valid(cfg) && |jitters| == |moves|
    decreases |moves|
  {
    if moves == [] then Start(p, cfg, ids)
    else
      var n := |moves| - 1;
      Play(p, cfg, Played(p, cfg, ids, moves[..n], jitters[..n]), moves[n], jitters[n])
  }

  /** Whatever the jitters, playing moves is a run of the network. */
  lemma {:induction false} PlayedIsRun(p: Primitives, cfg: ValidatorConfig, ids: set<string>, moves: seq<Move>,
                                       jitters: seq<int>)
    returns (steps: seq<Step>)
    requires Valid(cfg) && |jitters| == |moves|
    ensures Run(p, cfg, ids, steps) == Played(p, cfg, ids, moves, jitters)
    decreases |moves|
  {
    if moves == [] {
      steps := [];
    } else {
      var n := |moves| - 1;
      steps := PlayedIsRun(p, cfg, ids, moves[..n], jitters[..n]);
      var step := StepOf(Run(p, cfg, ids, steps), moves[n], jitters[n]);
      if step.Some? {
        var more := steps + [step.value];
        assert more[..|steps|] == steps;
        steps := more;
      }
    }
  }

  // ----- The canonical chain and what is on offer -----

  /** The move makes a block; the jitter has no say in it. */
  ghost predicate Makes(p: Primitives, cfg: ValidatorConfig, net: Net, m: Move)
    requires Valid(cfg)
  {
    m.act.Make? && m.id in net.nodes &&
    CreateBlock(p, cfg, m.id, net.nodes[m.id], Draw(m.act.salt, m.clock, 0)).Ok?
  }

  /** Every block and every part of the canonical chain is on offer. */
  ghost predicate OnOffer(net: Net, all: seq<Block>) {
    && (forall h :: 1 <= h < |all| ==> all[h] in net.sent)
    && (forall n :: 1 <= n <= |all| ==> all[..n] in net.snapshots)
  }

  ghost predicate Whole(p: Primitives, cfg: ValidatorConfig, ids: set<string>, net: Net, all: seq<Block>)
    requires Valid(cfg)
  {
    Inv(p, cfg, ids, net, all) && OnOffer(net, all)
  }

  lemma SentIsCanonical(p: Primitives, cfg: ValidatorConfig, ids: set<string>, net: Net, all: seq<Block>, h: nat)
    requires Valid(cfg) && Whole(p, cfg, ids, net, all)
    ensures SentAt(net, h) == if 1 <= h < |all| then Some(all[h]) else None
  {
    assert 1 <= h < |all| ==> all[h] in net.sent && all[h].index == h;
    var sent := SentAt(net, h);
    if sent.Some? {
      assert sent.value in net.sent && sent.value.index == h;
    }
  }

  lemma HeldIsCanonical(p: Primitives, cfg: ValidatorConfig, ids: set<string>, net: Net, all: seq<Block>, n: nat)
    requires Valid(cfg) && Whole(p, cfg, ids, net, all)
    ensures HeldWith(net, n) == if 1 <= n <= |all| then Some(all[..n]) else None
  {
    var held := HeldWith(net, n);
    if held.Some? {
      PartIsPrefix(held.value, all);
    } else if 1 <= n <= |all| {
      OfferHas(net, all, n);
    }
  }

  lemma PartIsPrefix(c: seq<Block>, all: seq<Block>)
    requires IsPart(c, all)
    ensures 1 <= |c| <= |all| && c == all[..|c|]
  {
  }

  lemma OfferHas(net: Net, all: seq<Block>, n: nat)
    requires OnOffer(net, all) && 1 <= n <= |all|
    ensures HeldWith(net, n).Some?
  {
    var c := all[..n];
    assert c in net.snapshots && |c| == n;
  }

  /** What a move makes of the canonical chain. */
  ghost function Grown(p: Primitives, cfg: ValidatorConfig, net: Net, all: seq<Block>, m: Move, jitter: int): seq<Block>
    requires Valid(cfg)
  {
    if Makes(p, cfg, net, m) then
      match CreateBlock(p, cfg, m.id, net.nodes[m.id], Draw(m.act.salt, m.clock, jitter))
      case Ok(s) => s.chain
      case Err(_) => all
    else all
  }

  lemma OfferGrows(net: Net, all: seq<Block>, net': Net, all': seq<Block>)
    requires OnOffer(net, all) && net.sent <= net'.sent && net.snapshots <= net'.snapshots
    requires all' == all || (|all'| == |all| + 1 && all <= all' && all'[|all|] in net'.sent && all' in net'.snapshots)
    ensures OnOffer(net', all')
  {
    forall n | 1 <= n <= |all'|
      ensures all'[..n] in net'.snapshots
    {
      if n <= |all| {
        assert all'[..n] == all[..n];
      } else {
        assert all'[..n] == all';
      }
    }
  }

  lemma OffersStay(p: Primitives, cfg: ValidatorConfig, net: Net, step: Step)
    requires Valid(cfg)
    ensures net.sent <= Next(p, cfg, net, step).sent && net.snapshots <= Next(p, cfg, net, step).snapshots
  {
  }

  lemma MakeKeepsWhole(p: Primitives, cfg: ValidatorConfig, ids: set<string>, net: Net, all: seq<Block>, id: string,
                       d: Draw)
    requires Valid(cfg) && SoleAuthors(cfg, ids) && Whole(p, cfg, ids, net, all) && id in net.nodes
    requires CreateBlock(p, cfg, id, net.nodes[id], d).Ok?
    ensures var all' := CreateBlock(p, cfg, id, net.nodes[id], d).value.chain;
            net.nodes[id].chain == all && all <= all' && Whole(p, cfg, ids, Created(p, cfg, net, id, d), all')
  {
    var all' := CreateKeepsInv(p, cfg, ids, net, all, id, d);
    assert Created(p, cfg, net, id, d) == Next(p, cfg, net, Create(id, d));
    OffersStay(p, cfg, net, Create(id, d));
    OfferGrows(net, all, Created(p, cfg, net, id, d), all');
  }

  lemma OtherKeepsWhole(p: Primitives, cfg: ValidatorConfig, ids: set<string>, net: Net, all: seq<Block>, step: Step)
    requires Valid(cfg) && SoleAuthors(cfg, ids) && Whole(p, cfg, ids, net, all)
    requires step.Create? && step.id in net.nodes ==> CreateBlock(p, cfg, step.id, net.nodes[step.id], step.draw).Err?
    ensures Whole(p, cfg, ids, Next(p, cfg, net, step), all)
  {
    var all' := StepKeepsInv(p, cfg, ids, net, all, step);
    OffersStay(p, cfg, net, step);
    OfferGrows(net, all, Next(p, cfg, net, step), all);
  }

  lemma PlayKeepsWhole(p: Primitives, cfg: ValidatorConfig, ids: set<string>, net: Net, all: seq<Block>, m: Move,
                       jitter: int)
    requires Valid(cfg) && SoleAuthors(cfg, ids) && Whole(p, cfg, ids, net, all)
    ensures Whole(p, cfg, ids, Play(p, cfg, net, m, jitter), Grown(p, cfg, net, all, m, jitter))
    ensures all <= Grown(p, cfg, net, all, m, jitter)
    ensures Makes(p, cfg, net, m) ==> net.nodes[m.id].chain == all
  {
    if m.act.Make? && m.id in net.nodes {
      JitterIsHarmless(p, cfg, m.id, net.nodes[m.id], Draw(m.act.salt, m.clock, 0), jitter);
    }
    if Makes(p, cfg, net, m) {
      MakeKeepsWhole(p, cfg, ids, net, all, m.id, Draw(m.act.salt, m.clock, jitter));
      MakesIsCreated(p, cfg, net, all, m, jitter);
    } else {
      assert Grown(p, cfg, net, all, m, jitter) == all;
      if StepOf(net, m, jitter).Some? {
        OtherKeepsWhole(p, cfg, ids, net, all, StepOf(net, m, jitter).value);
      }
    }
  }

  lemma MakesIsCreated(p: Primitives, cfg: ValidatorConfig, net: Net, all: seq<Block>, m: Move, jitter: int)
    requires Valid(cfg) && Makes(p, cfg, net, m)
    ensures var d := Draw(m.act.salt, m.clock, jitter);
            && CreateBlock(p, cfg, m.id, net.nodes[m.id], d).Ok?
            && Play(p, cfg, net, m, jitter) == Created(p, cfg, net, m.id, d)
            && Grown(p, cfg, net, all, m, jitter) == CreateBlock(p, cfg, m.id, net.nodes[m.id], d).value.chain
  {
    JitterIsHarmless(p, cfg, m.id, net.nodes[m.id], Draw(m.act.salt, m.clock, 0), jitter);
  }

  // ----- What a move does, whatever the jitters were -----

  /** No two different blocks made so far share a hash, the genesis block included. */
  ghost predicate Told(p: Primitives, cfg: ValidatorConfig, net: Net)
    requires Valid(cfg)
  {
    forall a, b :: a in net.sent + {Genesis(p, cfg)} && b in net.sent + {Genesis(p, cfg)} && a.hash == b.hash ==> a == b
  }

  /** Whole, valid at the clock and told apart. */
  ghost predicate Steady(p: Primitives, cfg: ValidatorConfig, ids: set<string>, net: Net, all: seq<Block>, clock: int)
    requires Valid(cfg)
  {
    Whole(p, cfg, ids, net, all) && ValidChain(p, cfg, all, clock)
  }

  /** The length of a node's chain after a move that makes no block. */
  function Reached(length: nat, total: nat, act: Act): nat {
    match act
    case Pass(h) => if h == length < total then length + 1 else length
    case Fetch(n) => if length < n <= total then n else length
    case _ => length
  }

  /** A node on the first `k` blocks takes block `k` and no other. */
  lemma PassOnPrefix(p: Primitives, cfg: ValidatorConfig, all: seq<Block>, s: Node, h: nat, clock: int)
    requires Valid(cfg) && ValidChain(p, cfg, all, clock) && IndexIsPosition(all) && 1 <= h < |all|
    requires IsPart(s.chain, all) && (h == |s.chain| ==> !Knows(all[..h], all[h].hash))
    ensures AfterReceive(p, s, all[h]) == s.(chain := all[..Reached(|s.chain|, |all|, Pass(h))])
  {
    var k := |s.chain|;
    PartIsPrefix(s.chain, all);
    assert s.chain[k - 1].index == k - 1;
    if h == k {
      NextIsAppended(p, cfg, all, k, clock);
      assert all[..k + 1] == s.chain + [all[k]];
    } else {
      WrongHeight(p, s.chain, all[h]);
    }
  }

  lemma PassReaches(p: Primitives, cfg: ValidatorConfig, ids: set<string>, net: Net, all: seq<Block>, id: string,
                    h: nat, clock: int)
    requires Valid(cfg) && Steady(p, cfg, ids, net, all, clock) && Told(p, cfg, net) && id in ids && 1 <= h < |all|
    ensures var s := net.nodes[id];
            Reached(|s.chain|, |all|, Pass(h)) <= |all| &&
            AfterReceive(p, s, all[h]) == s.(chain := all[..Reached(|s.chain|, |all|, Pass(h))])
  {
    var s := net.nodes[id];
    PartIsPrefix(s.chain, all);
    NextIsUnknown(p, cfg, ids, net, all, h);
    PassOnPrefix(p, cfg, all, s, h, clock);
  }

  lemma WrongHeight(p: Primitives, chain: seq<Block>, b: Block)
    requires chain != [] && b.index != chain[|chain| - 1].index + 1
    ensures Receive(p, chain, b) != Appended
  {
  }

  lemma NextIsAppended(p: Primitives, cfg: ValidatorConfig, all: seq<Block>, k: nat, clock: int)
    requires Valid(cfg) && ValidChain(p, cfg, all, clock) && IndexIsPosition(all) && 1 <= k < |all|
    requires !Knows(all[..k], all[k].hash)
    ensures Receive(p, all[..k], all[k]) == Appended
  {
    assert FaultAt(p, cfg, all, k, clock).None?;
    NoFaultIff(p, cfg, all, k, clock);
  }

  lemma NextIsUnknown(p: Primitives, cfg: ValidatorConfig, ids: set<string>, net: Net, all: seq<Block>, k: nat)
    requires Valid(cfg) && Whole(p, cfg, ids, net, all) && Told(p, cfg, net) && 1 <= k < |all|
    ensures !Knows(all[..k], all[k].hash)
  {
    assert all[k] in net.sent;
    forall i | 0 <= i < k
      ensures all[..k][i].hash != all[k].hash
    {
      assert i == 0 || all[i] in net.sent;
      assert all[i].index != all[k].index;
    }
  }

  lemma FetchReaches(p: Primitives, cfg: ValidatorConfig, ids: set<string>, net: Net, all: seq<Block>, id: string,
                     n: nat, clock: int)
    requires Valid(cfg) && Steady(p, cfg, ids, net, all, clock) && id in ids && 1 <= n <= |all|
    ensures var s := net.nodes[id];
            AfterReplace(p, cfg, s, all[..n], clock) == s.(chain := all[..Reached(|s.chain|, |all|, Fetch(n))])
  {
    var s := net.nodes[id];
    assert IsPart(s.chain, all);
    var k := |s.chain|;
    assert s.chain == all[..k] && IndexIsPosition(s.chain);
    PrefixIsValid(p, cfg, all[..n], all, clock);
    if CheckpointForbids(s, all[..n]) {
      Selection.GuardNeverDecides(cfg, s, all[..n]);
    }
  }

  function AccountsAfter(accounts: seq<PendingAccount>, act: Act): seq<PendingAccount> {
    if act.Register? then accounts + [act.account] else accounts
  }

  function CollectionsAfter(collections: seq<Collection>, act: Act): seq<Collection> {
    if act.Submit? then collections + [act.collection] else collections
  }

  /** What a move that makes no block does to its node; the jitters have no say in it. */
  ghost predicate QuietlyMoved(s: Node, s': Node, total: nat, act: Act) {
    && s'.accounts == AccountsAfter(s.accounts, act)
    && s'.collections == CollectionsAfter(s.collections, act)
    && |s'.chain| == Reached(|s.chain|, total, act)
  }

  /** The move changed its node, quietly, and no other. */
  ghost predicate MovedQuietly(net: Net, net': Net, id: string, total: nat, act: Act) {
    && id in net.nodes && id in net'.nodes && net'.nodes == net.nodes[id := net'.nodes[id]]
    && QuietlyMoved(net.nodes[id], net'.nodes[id], total, act)
  }

  lemma UpdatedQuietly(net: Net, id: string, s: Node, total: nat, act: Act)
    requires id in net.nodes && QuietlyMoved(net.nodes[id], s, total, act)
    ensures MovedQuietly(net, Update(net, id, s), id, total, act)
  {
  }

  lemma UnchangedQuietly(net: Net, id: string, total: nat, act: Act)
    requires id in net.nodes && QuietlyMoved(net.nodes[id], net.nodes[id], total, act)
    ensures MovedQuietly(net, net, id, total, act)
  {
    assert net.nodes == net.nodes[id := net.nodes[id]];
  }

  lemma QuietPass(p: Primitives, cfg: ValidatorConfig, ids: set<string>, net: Net, all: seq<Block>, m: Move,
                  jitter: int)
    requires Valid(cfg) && Steady(p, cfg, ids, net, all, m.clock) && Told(p, cfg, net) && m.act.Pass? && m.id in ids
    ensures MovedQuietly(net, Play(p, cfg, net, m, jitter), m.id, |all|, m.act)
  {
    var h := m.act.height;
    SentIsCanonical(p, cfg, ids, net, all, h);
    if 1 <= h < |all| {
      var s := AfterReceive(p, net.nodes[m.id], all[h]);
      PassedQuietly(p, cfg, ids, net, all, m.id, h, m.clock);
      UpdatedQuietly(net, m.id, s, |all|, m.act);
      assert all[h] in net.sent && Play(p, cfg, net, m, jitter) == Update(net, m.id, s);
    } else {
      assert IsPart(net.nodes[m.id].chain, all);
      UnchangedQuietly(net, m.id, |all|, m.act);
    }
  }

  lemma PassedQuietly(p: Primitives, cfg: ValidatorConfig, ids: set<string>, net: Net, all: seq<Block>, id: string,
                      h: nat, clock: int)
    requires Valid(cfg) && Steady(p, cfg, ids, net, all, clock) && Told(p, cfg, net) && id in ids && 1 <= h < |all|
    ensures QuietlyMoved(net.nodes[id], AfterReceive(p, net.nodes[id], all[h]), |all|, Pass(h))
  {
    PassReaches(p, cfg, ids, net, all, id, h, clock);
  }

  lemma QuietFetch(p: Primitives, cfg: ValidatorConfig, ids: set<string>, net: Net, all: seq<Block>, m: Move,
                   jitter: int)
    requires Valid(cfg) && Steady(p, cfg, ids, net, all, m.clock) && m.act.Fetch? && m.id in ids
    ensures MovedQuietly(net, Play(p, cfg, net, m, jitter), m.id, |all|, m.act)
  {
    var n := m.act.length;
    assert IsPart(net.nodes[m.id].chain, all);
    HeldIsCanonical(p, cfg, ids, net, all, n);
    if 1 <= n <= |all| {
      FetchReaches(p, cfg, ids, net, all, m.id, n, m.clock);
      var s := AfterReplace(p, cfg, net.nodes[m.id], all[..n], m.clock);
      UpdatedQuietly(net, m.id, s, |all|, m.act);
      assert Play(p, cfg, net, m, jitter) == Update(net, m.id, s);
    } else {
      UnchangedQuietly(net, m.id, |all|, m.act);
    }
  }

  lemma QuietMove(p: Primitives, cfg: ValidatorConfig, ids: set<string>, net: Net, all: seq<Block>, m: Move,
                  jitter: int)
    requires Valid(cfg) && Steady(p, cfg, ids, net, all, m.clock) && Told(p, cfg, net)
    requires !Makes(p, cfg, net, m) && m.id in ids
    ensures MovedQuietly(net, Play(p, cfg, net, m, jitter), m.id, |all|, m.act)
  {
    match m.act {
      case Submit(_) =>
      case Register(_) =>
      case Make(salt) =>
        JitterIsHarmless(p, cfg, m.id, net.nodes[m.id], Draw(salt, m.clock, 0), jitter);
        UnchangedQuietly(net, m.id, |all|, m.act);
      case Pass(h) => QuietPass(p, cfg, ids, net, all, m, jitter);
      case Fetch(n) => QuietFetch(p, cfg, ids, net, all, m, jitter);
    }
  }

  /** Networks that differ in times, and in the hashes that cover them, only. */
  ghost predicate SameShape(ids: set<string>, net: Net, all: seq<Block>, net': Net, all': seq<Block>) {
    && net.nodes.Keys == ids == net'.nodes.Keys && |all| == |all'|
    && forall id :: id in ids ==> SameNode(net.nodes[id], net'.nodes[id])
  }

  ghost predicate SameNode(s: Node, s': Node) {
    s.accounts == s'.accounts && s.collections == s'.collections && |s.chain| == |s'.chain|
  }

  // ----- The same moves with other jitters -----

  /** All that decides whether a creation succeeds. */
  ghost predicate CanCreate(p: Primitives, cfg: ValidatorConfig, id: string, accounts: seq<PendingAccount>,
                            collections: seq<Collection>, height: nat, salt: string)
    requires Valid(cfg)
  {
    && (accounts != [] || collections != [])
    && Authorized(cfg, id, height) && SealAll(p, accounts, salt).Some?
  }

  lemma CreatesIff(p: Primitives, cfg: ValidatorConfig, id: string, s: Node, d: Draw)
    requires Valid(cfg) && s.chain != [] && s.chain[|s.chain| - 1].index == |s.chain| - 1
    ensures CreateBlock(p, cfg, id, s, d).Ok? <==>
            CanCreate(p, cfg, id, s.accounts, s.collections, |s.chain|, d.salt)
  {
  }

  lemma MakesIff(p: Primitives, cfg: ValidatorConfig, ids: set<string>, net: Net, all: seq<Block>, m: Move)
    requires Valid(cfg) && Inv(p, cfg, ids, net, all) && m.act.Make? && m.id in ids
    ensures Makes(p, cfg, net, m) <==>
            CanCreate(p, cfg, m.id, net.nodes[m.id].accounts, net.nodes[m.id].collections, |net.nodes[m.id].chain|,
                      m.act.salt)
  {
    TipIndex(p, cfg, ids, net, all, m.id);
    CreatesIff(p, cfg, m.id, net.nodes[m.id], Draw(m.act.salt, m.clock, 0));
  }

  lemma SameNodeMakes(p: Primitives, cfg: ValidatorConfig, ids: set<string>, net: Net, all: seq<Block>,
                      net': Net, all': seq<Block>, m: Move)
    requires Valid(cfg) && Inv(p, cfg, ids, net, all) && Inv(p, cfg, ids, net', all')
    requires SameShape(ids, net, all, net', all')
    ensures Makes(p, cfg, net, m) <==> Makes(p, cfg, net', m)
  {
    if m.act.Make? && m.id in ids {
      assert SameNode(net.nodes[m.id], net'.nodes[m.id]);
      MakesIff(p, cfg, ids, net, all, m);
      MakesIff(p, cfg, ids, net', all', m);
    }
  }

  lemma TipIndex(p: Primitives, cfg: ValidatorConfig, ids: set<string>, net: Net, all: seq<Block>, id: string)
    requires Valid(cfg) && Inv(p, cfg, ids, net, all) && id in ids
    ensures var chain := net.nodes[id].chain;
            chain != [] && chain[|chain| - 1].index == |chain| - 1
  {
    assert IsPart(net.nodes[id].chain, all);
  }

  lemma MadeShape(p: Primitives, cfg: ValidatorConfig, net: Net, all: seq<Block>, m: Move, jitter: int)
    requires Valid(cfg) && Makes(p, cfg, net, m) && net.nodes[m.id].chain == all
    ensures var net', all' := Play(p, cfg, net, m, jitter), Grown(p, cfg, net, all, m, jitter);
            && m.id in net'.nodes && net'.nodes == net.nodes[m.id := net'.nodes[m.id]]
            && net'.nodes[m.id].accounts == [] && net'.nodes[m.id].collections == []
            && net'.nodes[m.id].chain == all' && |all'| == |all| + 1
            && all'[|all|].timestamp == Day(m.clock) + jitter
  {
    MakesIsCreated(p, cfg, net, all, m, jitter);
    assert net.nodes[m.id].chain[|all| - 1].index + 1 != 0;
  }

  lemma ShapeAfter(ids: set<string>, a: Net, b: Net, a': Net, b': Net, id: string)
    requires a.nodes.Keys == ids == b.nodes.Keys && id in ids && id in a'.nodes && id in b'.nodes
    requires forall x :: x in ids ==> SameNode(a.nodes[x], b.nodes[x])
    requires a'.nodes == a.nodes[id := a'.nodes[id]] && b'.nodes == b.nodes[id := b'.nodes[id]]
    requires SameNode(a'.nodes[id], b'.nodes[id])
    ensures a'.nodes.Keys == ids == b'.nodes.Keys && forall x :: x in ids ==> SameNode(a'.nodes[x], b'.nodes[x])
  {
  }

  /** A move keeps the shape, whatever jitters were and are drawn. */
  lemma ShapePlay(p: Primitives, cfg: ValidatorConfig, ids: set<string>, a: Net, all: seq<Block>, b: Net,
                  base: seq<Block>, m: Move, j: int, j': int)
    requires Valid(cfg) && SoleAuthors(cfg, ids) && SameShape(ids, a, all, b, base)
    requires Steady(p, cfg, ids, a, all, m.clock) && Told(p, cfg, a)
    requires Steady(p, cfg, ids, b, base, m.clock) && Told(p, cfg, b)
    ensures SameShape(ids, Play(p, cfg, a, m, j), Grown(p, cfg, a, all, m, j),
                      Play(p, cfg, b, m, j'), Grown(p, cfg, b, base, m, j'))
  {
    SameNodeMakes(p, cfg, ids, a, all, b, base, m);
    if m.id !in ids {
      StrangerMoves(p, cfg, a, m, j);
      StrangerMoves(p, cfg, b, m, j');
    } else if Makes(p, cfg, a, m) {
      PlayKeepsWhole(p, cfg, ids, a, all, m, j);
      PlayKeepsWhole(p, cfg, ids, b, base, m, j');
      MadeShape(p, cfg, a, all, m, j);
      MadeShape(p, cfg, b, base, m, j');
      ShapeAfter(ids, a, b, Play(p, cfg, a, m, j), Play(p, cfg, b, m, j'), m.id);
    } else {
      QuietMove(p, cfg, ids, a, all, m, j);
      QuietMove(p, cfg, ids, b, base, m, j');
      assert SameNode(a.nodes[m.id], b.nodes[m.id]);
      ShapeAfter(ids, a, b, Play(p, cfg, a, m, j), Play(p, cfg, b, m, j'), m.id);
    }
  }

  lemma StrangerMoves(p: Primitives, cfg: ValidatorConfig, net: Net, m: Move, jitter: int)
    requires Valid(cfg) && m.id !in net.nodes
    ensures Play(p, cfg, net, m, jitter) == net
  {
  }

  // ----- Validity along a run -----

  ghost function LastTime(all: seq<Block>): int {
    if all == [] then 0 else all[|all| - 1].timestamp
  }

  /** The canonical chain stays valid, and its last time is that of the last block made. */
  lemma PlaySteady(p: Primitives, cfg: ValidatorConfig, ids: set<string>, net: Net, all: seq<Block>, m: Move,
                   jitter: int)
    requires Valid(cfg) && SoleAuthors(cfg, ids) && Conservation.RoundTrips(p)
    requires Steady(p, cfg, ids, net, all, m.clock) && InJitter(jitter) && 0 <= m.clock
    requires Makes(p, cfg, net, m) ==>
               QueueVerifies(p, net.nodes[m.id]) && LastTime(all) <= Day(m.clock) - TIMESTAMP_JITTER
    ensures Steady(p, cfg, ids, Play(p, cfg, net, m, jitter), Grown(p, cfg, net, all, m, jitter), m.clock)
    ensures LastTime(Grown(p, cfg, net, all, m, jitter)) ==
            if Makes(p, cfg, net, m) then Day(m.clock) + jitter else LastTime(all)
  {
    PlayKeepsWhole(p, cfg, ids, net, all, m, jitter);
    if Makes(p, cfg, net, m) {
      MakesIsCreated(p, cfg, net, all, m, jitter);
      MadeInOrder(p, cfg, m.id, net.nodes[m.id], Draw(m.act.salt, m.clock, jitter));
    }
  }

  lemma MadeInOrder(p: Primitives, cfg: ValidatorConfig, id: string, s: Node, d: Draw)
    requires Valid(cfg) && Conservation.RoundTrips(p) && ValidChain(p, cfg, s.chain, d.now) && 0 <= d.now
    requires CreateBlock(p, cfg, id, s, d).Ok? && InJitter(d.jitter)
    requires QueueVerifies(p, s) && LastTime(s.chain) <= Day(d.now) - TIMESTAMP_JITTER
    ensures ValidChain(p, cfg, CreateBlock(p, cfg, id, s, d).value.chain, d.now)
    ensures LastTime(CreateBlock(p, cfg, id, s, d).value.chain) == Day(d.now) + d.jitter
  {
    DayIsWhole(d.now);
    CreateKeepsValidIff(p, cfg, id, s, d, d.now);
  }

  function Zeros(n: nat): seq<int> {
    seq(n, _ => 0)
  }

  /** The moves without jitter. */
  ghost function Base(p: Primitives, cfg: ValidatorConfig, ids: set<string>, moves: seq<Move>): Net
    requires Valid(cfg)
  {
    Played(p, cfg, ids, moves, Zeros(|moves|))
  }

  lemma BaseStep(p: Primitives, cfg: ValidatorConfig, ids: set<string>, moves: seq<Move>)
    requires Valid(cfg) && moves != []
    ensures Base(p, cfg, ids, moves) ==
            Play(p, cfg, Base(p, cfg, ids, moves[..|moves| - 1]), moves[|moves| - 1], 0)
  {
    assert Zeros(|moves|)[..|moves| - 1] == Zeros(|moves| - 1);
  }

  /** The day of the last block made; the genesis block counts for its own day. */
  ghost function LastDay(p: Primitives, cfg: ValidatorConfig, ids: set<string>, moves: seq<Move>): int
    requires Valid(cfg)
  {
    if moves == [] then GENESIS_TIMESTAMP
    else
      var n := |moves| - 1;
      if Makes(p, cfg, Base(p, cfg, ids, moves[..n]), moves[n]) then Day(moves[n].clock)
      else LastDay(p, cfg, ids, moves[..n])
  }

  /** The move, should it make a block, does so on a later day and from a queue that verifies. */
  ghost predicate Advances(p: Primitives, cfg: ValidatorConfig, ids: set<string>, moves: seq<Move>, m: Move)
    requires Valid(cfg)
  {
    Makes(p, cfg, Base(p, cfg, ids, moves), m) ==>
      && LastDay(p, cfg, ids, moves) < Day(m.clock)
      && QueueVerifies(p, Base(p, cfg, ids, moves).nodes[m.id])
  }

  /** Every block is made on a later day than the one before it in the network, from a queue that verifies. */
  ghost predicate LaterDays(p: Primitives, cfg: ValidatorConfig, ids: set<string>, moves: seq<Move>)
    requires Valid(cfg)
  {
    moves == [] ||
    var n := |moves| - 1;
    LaterDays(p, cfg, ids, moves[..n]) && Advances(p, cfg, ids, moves[..n], moves[n])
  }

  /** One clock for all: readings are not negative, in order and no later than `now`. */
  ghost predicate Clocked(moves: seq<Move>, now: int) {
    && (forall i :: 0 <= i < |moves| ==> 0 <= moves[i].clock <= now)
    && (forall i, j :: 0 <= i < j < |moves| ==> moves[i].clock <= moves[j].clock)
  }

  /** Whatever the jitters, different blocks have different hashes. */
  ghost predicate AlwaysTold(p: Primitives, cfg: ValidatorConfig, ids: set<string>, moves: seq<Move>)
    requires Valid(cfg)
  {
    forall jitters :: |jitters| == |moves| && AllInJitter(jitters) ==>
                        Told(p, cfg, Played(p, cfg, ids, moves, jitters))
  }

  lemma SentGrows(p: Primitives, cfg: ValidatorConfig, net: Net, m: Move, jitter: int)
    requires Valid(cfg)
    ensures net.sent <= Play(p, cfg, net, m, jitter).sent
  {
    if StepOf(net, m, jitter).Some? {
      OffersStay(p, cfg, net, StepOf(net, m, jitter).value);
    }
  }

  lemma AlwaysToldBefore(p: Primitives, cfg: ValidatorConfig, ids: set<string>, moves: seq<Move>)
    requires Valid(cfg) && moves != [] && AlwaysTold(p, cfg, ids, moves)
    ensures AlwaysTold(p, cfg, ids, moves[..|moves| - 1])
  {
    var n := |moves| - 1;
    forall jitters | |jitters| == n && AllInJitter(jitters)
      ensures Told(p, cfg, Played(p, cfg, ids, moves[..n], jitters))
    {
      var more := jitters + [0];
      assert more[..n] == jitters && AllInJitter(more);
      assert Told(p, cfg, Played(p, cfg, ids, moves, more));
      SentGrows(p, cfg, Played(p, cfg, ids, moves[..n], jitters), moves[n], 0);
    }
  }

  /** Steady, with the last block within the jitter of the day. */
  ghost predicate OnDay(p: Primitives, cfg: ValidatorConfig, ids: set<string>, net: Net, all: seq<Block>, clock: int,
                        day: int)
    requires Valid(cfg)
  {
    && Steady(p, cfg, ids, net, all, clock) && day % TIMESTAMP_GRANULARITY == 0
    && day - TIMESTAMP_JITTER <= LastTime(all) <= day + TIMESTAMP_JITTER
  }

  lemma PlayOnDay(p: Primitives, cfg: ValidatorConfig, ids: set<string>, net: Net, all: seq<Block>, m: Move,
                  jitter: int, day: int)
    requires Valid(cfg) && SoleAuthors(cfg, ids) && Conservation.RoundTrips(p)
    requires OnDay(p, cfg, ids, net, all, m.clock, day) && InJitter(jitter) && 0 <= m.clock
    requires Makes(p, cfg, net, m) ==> QueueVerifies(p, net.nodes[m.id]) && day < Day(m.clock)
    ensures OnDay(p, cfg, ids, Play(p, cfg, net, m, jitter), Grown(p, cfg, net, all, m, jitter), m.clock,
                  if Makes(p, cfg, net, m) then Day(m.clock) else day)
    ensures LastTime(Grown(p, cfg, net, all, m, jitter)) ==
            if Makes(p, cfg, net, m) then Day(m.clock) + jitter else LastTime(all)
  {
    DayIsWhole(m.clock);
    if Makes(p, cfg, net, m) {
      DaysApart(day, Day(m.clock));
    }
    PlaySteady(p, cfg, ids, net, all, m, jitter);
  }

  lemma OnDayLater(p: Primitives, cfg: ValidatorConfig, ids: set<string>, net: Net, all: seq<Block>, clock: int,
                   later: int, day: int)
    requires Valid(cfg) && OnDay(p, cfg, ids, net, all, clock, day) && clock <= later
    ensures OnDay(p, cfg, ids, net, all, later, day)
  {
    ValidLater(p, cfg, all, clock, later);
  }

  /** A run and the same run without jitter, side by side. */
  ghost predicate SideBySide(p: Primitives, cfg: ValidatorConfig, ids: set<string>, a: Net, all: seq<Block>, b: Net,
                             base: seq<Block>, clock: int, day: int, early: bool)
    requires Valid(cfg)
  {
    && OnDay(p, cfg, ids, a, all, clock, day) && OnDay(p, cfg, ids, b, base, clock, day)
    && SameShape(ids, a, all, b, base) && (early || day <= LastTime(all))
  }

  lemma SideBySideStep(p: Primitives, cfg: ValidatorConfig, ids: set<string>, a: Net, all: seq<Block>, b: Net,
                       base: seq<Block>, day: int, early: bool, m: Move, jitter: int)
    requires Valid(cfg) && SoleAuthors(cfg, ids) && Conservation.RoundTrips(p)
    requires SideBySide(p, cfg, ids, a, all, b, base, m.clock, day, early) && Told(p, cfg, a) && Told(p, cfg, b)
    requires InJitter(jitter) && 0 <= m.clock && (early || 0 <= jitter)
    requires Makes(p, cfg, b, m) ==> QueueVerifies(p, b.nodes[m.id]) && day < Day(m.clock)
    ensures SideBySide(p, cfg, ids, Play(p, cfg, a, m, jitter), Grown(p, cfg, a, all, m, jitter),
                       Play(p, cfg, b, m, 0), Grown(p, cfg, b, base, m, 0), m.clock,
                       if Makes(p, cfg, b, m) then Day(m.clock) else day, early)
  {
    SameNodeMakes(p, cfg, ids, a, all, b, base, m);
    assert m.id in ids ==> SameNode(a.nodes[m.id], b.nodes[m.id]);
    PlayOnDay(p, cfg, ids, a, all, m, jitter, day);
    PlayOnDay(p, cfg, ids, b, base, m, 0, day);
    ShapePlay(p, cfg, ids, a, all, b, base, m, jitter, 0);
  }

  lemma StartSideBySide(p: Primitives, cfg: ValidatorConfig, ids: set<string>, clock: int)
    requires Valid(cfg)
    ensures var net, all := Start(p, cfg, ids), [Genesis(p, cfg)];
            SideBySide(p, cfg, ids, net, all, net, all, clock, GENESIS_TIMESTAMP, false)
  {
    var net, all := Start(p, cfg, ids), [Genesis(p, cfg)];
    assert all[..1] == all;
    assert OnOffer(net, all);
    assert GENESIS_TIMESTAMP % TIMESTAMP_GRANULARITY == 0;
  }

  lemma SideBySideLater(p: Primitives, cfg: ValidatorConfig, ids: set<string>, a: Net, all: seq<Block>, b: Net,
                        base: seq<Block>, clock: int, later: int, day: int, early: bool)
    requires Valid(cfg) && SideBySide(p, cfg, ids, a, all, b, base, clock, day, early) && clock <= later
    ensures SideBySide(p, cfg, ids, a, all, b, base, later, day, true)
    ensures SideBySide(p, cfg, ids, a, all, b, base, later, day, early)
  {
    OnDayLater(p, cfg, ids, a, all, clock, later, day);
    OnDayLater(p, cfg, ids, b, base, clock, later, day);
  }

  /** The moves played with the jitters, beside the moves played without. */
  ghost predicate PlayedSideBySide(p: Primitives, cfg: ValidatorConfig, ids: set<string>, moves: seq<Move>,
                                   jitters: seq<int>, all: seq<Block>, base: seq<Block>, now: int, early: bool)
    requires Valid(cfg) && |jitters| == |moves|
  {
    SideBySide(p, cfg, ids, Played(p, cfg, ids, moves, jitters), all, Base(p, cfg, ids, moves), base, now,
               LastDay(p, cfg, ids, moves), early)
  }

  /** The premises of all results below. */
  ghost predicate Premises(p: Primitives, cfg: ValidatorConfig, ids: set<string>, moves: seq<Move>, now: int)
    requires Valid(cfg)
  {
    && SoleAuthors(cfg, ids) && Conservation.RoundTrips(p)
    && Clocked(moves, now) && AlwaysTold(p, cfg, ids, moves)
  }

  ghost predicate Setting(p: Primitives, cfg: ValidatorConfig, ids: set<string>, moves: seq<Move>, now: int)
    requires Valid(cfg)
  {
    Premises(p, cfg, ids, moves, now) && LaterDays(p, cfg, ids, moves)
  }

  lemma PremisesBefore(p: Primitives, cfg: ValidatorConfig, ids: set<string>, moves: seq<Move>, now: int)
    requires Valid(cfg) && Premises(p, cfg, ids, moves, now) && moves != []
    ensures Premises(p, cfg, ids, moves[..|moves| - 1], now)
    ensures Premises(p, cfg, ids, moves[..|moves| - 1], moves[|moves| - 1].clock)
    ensures moves[|moves| - 1].clock <= now
  {
    AlwaysToldBefore(p, cfg, ids, moves);
  }

  ghost predicate Drawable(moves: seq<Move>, jitters: seq<int>, early: bool) {
    |jitters| == |moves| && AllInJitter(jitters) && (early || forall i :: 0 <= i < |jitters| ==> 0 <= jitters[i])
  }

  lemma SettingBefore(p: Primitives, cfg: ValidatorConfig, ids: set<string>, moves: seq<Move>, jitters: seq<int>,
                      now: int, early: bool)
    requires Valid(cfg) && Setting(p, cfg, ids, moves, now) && Drawable(moves, jitters, early) && moves != []
    ensures Setting(p, cfg, ids, moves[..|moves| - 1], moves[|moves| - 1].clock)
    ensures Drawable(moves[..|moves| - 1], jitters[..|moves| - 1], early)
  {
    PremisesBefore(p, cfg, ids, moves, now);
  }

  lemma {:induction false} RunSideBySide(p: Primitives, cfg: ValidatorConfig, ids: set<string>, moves: seq<Move>,
                                         jitters: seq<int>, now: int, early: bool)
    returns (all: seq<Block>, base: seq<Block>)
    requires Valid(cfg) && Setting(p, cfg, ids, moves, now) && Drawable(moves, jitters, early)
    ensures PlayedSideBySide(p, cfg, ids, moves, jitters, all, base, now, early)
    decreases |moves|
  {
    if moves == [] {
      all, base := [Genesis(p, cfg)], [Genesis(p, cfg)];
      NothingPlayed(p, cfg, ids, now, early);
    } else {
      var n := |moves| - 1;
      SettingBefore(p, cfg, ids, moves, jitters, now, early);
      var all0, base0 := RunSideBySide(p, cfg, ids, moves[..n], jitters[..n], moves[n].clock, early);
      all, base := OneMoveSideBySide(p, cfg, ids, moves, jitters, all0, base0, now, early);
    }
  }

  lemma NothingPlayed(p: Primitives, cfg: ValidatorConfig, ids: set<string>, now: int, early: bool)
    requires Valid(cfg)
    ensures PlayedSideBySide(p, cfg, ids, [], [], [Genesis(p, cfg)], [Genesis(p, cfg)], now, early)
  {
    StartSideBySide(p, cfg, ids, now);
  }

  lemma BothTold(p: Primitives, cfg: ValidatorConfig, ids: set<string>, moves: seq<Move>, jitters: seq<int>)
    requires Valid(cfg) && AlwaysTold(p, cfg, ids, moves) && |jitters| == |moves| && AllInJitter(jitters)
    ensures Told(p, cfg, Played(p, cfg, ids, moves, jitters)) && Told(p, cfg, Base(p, cfg, ids, moves))
  {
    assert AllInJitter(Zeros(|moves|));
  }

  lemma OneMoveSideBySide(p: Primitives, cfg: ValidatorConfig, ids: set<string>, moves: seq<Move>, jitters: seq<int>,
                          all: seq<Block>, base: seq<Block>, now: int, early: bool)
    returns (all': seq<Block>, base': seq<Block>)
    requires Valid(cfg) && Setting(p, cfg, ids, moves, now) && Drawable(moves, jitters, early) && moves != []
    requires PlayedSideBySide(p, cfg, ids, moves[..|moves| - 1], jitters[..|moves| - 1], all, base,
                              moves[|moves| - 1].clock, early)
    ensures PlayedSideBySide(p, cfg, ids, moves, jitters, all', base', now, early)
  {
    var n, m := |moves| - 1, moves[|moves| - 1];
    var a, b := Played(p, cfg, ids, moves[..n], jitters[..n]), Base(p, cfg, ids, moves[..n]);
    SettingBefore(p, cfg, ids, moves, jitters, now, early);
    BothTold(p, cfg, ids, moves[..n], jitters[..n]);
    SideBySideStep(p, cfg, ids, a, all, b, base, LastDay(p, cfg, ids, moves[..n]), early, m, jitters[n]);
    BaseStep(p, cfg, ids, moves);
    all', base' := Grown(p, cfg, a, all, m, jitters[n]), Grown(p, cfg, b, base, m, 0);
    SideBySideLater(p, cfg, ids, Play(p, cfg, a, m, jitters[n]), all', Play(p, cfg, b, m, 0), base', m.clock, now,
                    LastDay(p, cfg, ids, moves), early);
  }

  // ----- Exactly when every jitter gives valid chains -----

  ghost predicate AllValid(p: Primitives, cfg: ValidatorConfig, net: Net, now: int)
    requires Valid(cfg)
  {
    forall id :: id in net.nodes ==> ValidChain(p, cfg, net.nodes[id].chain, now)
  }

  /** Whatever jitters are drawn, every node's chain is valid at the end. */
  ghost predicate AlwaysValid(p: Primitives, cfg: ValidatorConfig, ids: set<string>, moves: seq<Move>, now: int)
    requires Valid(cfg)
  {
    forall jitters :: |jitters| == |moves| && AllInJitter(jitters) ==>
                        AllValid(p, cfg, Played(p, cfg, ids, moves, jitters), now)
  }

  lemma LaterDaysAreValid(p: Primitives, cfg: ValidatorConfig, ids: set<string>, moves: seq<Move>, now: int)
    requires Valid(cfg) && Setting(p, cfg, ids, moves, now)
    ensures AlwaysValid(p, cfg, ids, moves, now)
  {
    forall jitters | |jitters| == |moves| && AllInJitter(jitters)
      ensures AllValid(p, cfg, Played(p, cfg, ids, moves, jitters), now)
    {
      var all, base := RunSideBySide(p, cfg, ids, moves, jitters, now, true);
      PartsAreValid(p, cfg, ids, Played(p, cfg, ids, moves, jitters), all, now);
    }
  }

  lemma PartsAreValid(p: Primitives, cfg: ValidatorConfig, ids: set<string>, net: Net, all: seq<Block>, now: int)
    requires Valid(cfg) && Steady(p, cfg, ids, net, all, now)
    ensures AllValid(p, cfg, net, now)
  {
    forall id | id in net.nodes
      ensures ValidChain(p, cfg, net.nodes[id].chain, now)
    {
      assert IsPart(net.nodes[id].chain, all);
      PrefixIsValid(p, cfg, net.nodes[id].chain, all, now);
    }
  }

  lemma PlayExtends(p: Primitives, cfg: ValidatorConfig, ids: set<string>, net: Net, all: seq<Block>, m: Move,
                    jitter: int, now: int)
    requires Valid(cfg) && SoleAuthors(cfg, ids) && Inv(p, cfg, ids, net, all)
    requires AllValid(p, cfg, Play(p, cfg, net, m, jitter), now)
    ensures AllValid(p, cfg, net, now)
  {
    var step := StepOf(net, m, jitter);
    if step.Some? {
      forall id | id in net.nodes
        ensures ValidChain(p, cfg, net.nodes[id].chain, now)
      {
        StepExtendsChains(p, cfg, ids, net, all, step.value, id);
        PrefixIsValid(p, cfg, net.nodes[id].chain, Next(p, cfg, net, step.value).nodes[id].chain, now);
      }
    }
  }

  lemma AlwaysValidBefore(p: Primitives, cfg: ValidatorConfig, ids: set<string>, moves: seq<Move>, now: int)
    requires Valid(cfg) && SoleAuthors(cfg, ids) && moves != [] && AlwaysValid(p, cfg, ids, moves, now)
    ensures AlwaysValid(p, cfg, ids, moves[..|moves| - 1], now)
  {
    var n := |moves| - 1;
    forall jitters | |jitters| == n && AllInJitter(jitters)
      ensures AllValid(p, cfg, Played(p, cfg, ids, moves[..n], jitters), now)
    {
      var more := jitters + [0];
      assert more[..n] == jitters && AllInJitter(more);
      assert AllValid(p, cfg, Played(p, cfg, ids, moves, more), now);
      var steps := PlayedIsRun(p, cfg, ids, moves[..n], jitters);
      var all := RunKeepsInv(p, cfg, ids, steps);
      PlayExtends(p, cfg, ids, Played(p, cfg, ids, moves[..n], jitters), all, moves[n], 0, now);
    }
  }

  /** A block made as early as the jitter allows is in order only when the day advanced. */
  lemma EarlyBlockShowsDay(p: Primitives, cfg: ValidatorConfig, ids: set<string>, a: Net, all: seq<Block>, b: Net,
                           base: seq<Block>, m: Move, day: int, now: int)
    requires Valid(cfg) && SoleAuthors(cfg, ids) && Conservation.RoundTrips(p) && m.clock <= now
    requires SideBySide(p, cfg, ids, a, all, b, base, m.clock, day, false) && Makes(p, cfg, b, m)
    requires AllValid(p, cfg, Play(p, cfg, a, m, -TIMESTAMP_JITTER), now)
    ensures day < Day(m.clock) && QueueVerifies(p, b.nodes[m.id])
  {
    var d := Draw(m.act.salt, m.clock, -TIMESTAMP_JITTER);
    SameNodeMakes(p, cfg, ids, a, all, b, base, m);
    PlayKeepsWhole(p, cfg, ids, a, all, m, -TIMESTAMP_JITTER);
    MakesIsCreated(p, cfg, a, all, m, -TIMESTAMP_JITTER);
    assert SameNode(a.nodes[m.id], b.nodes[m.id]);
    ValidLater(p, cfg, all, m.clock, now);
    assert CreatesValid(p, cfg, m.id, a.nodes[m.id], d, now);
    CreatedInOrder(p, cfg, m.id, a.nodes[m.id], d, now);
  }

  lemma CreatedInOrder(p: Primitives, cfg: ValidatorConfig, id: string, s: Node, d: Draw, now: int)
    requires Valid(cfg) && Conservation.RoundTrips(p) && ValidChain(p, cfg, s.chain, now)
    requires CreatesValid(p, cfg, id, s, d, now)
    ensures LastTime(s.chain) <= Day(d.now) + d.jitter && QueueVerifies(p, s)
  {
    CreateKeepsValidIff(p, cfg, id, s, d, now);
  }

  /** Blocks as late as the jitter allows. */
  lemma LateRun(p: Primitives, cfg: ValidatorConfig, ids: set<string>, moves: seq<Move>, now: int)
    returns (late: seq<int>, all: seq<Block>, base: seq<Block>)
    requires Valid(cfg) && Setting(p, cfg, ids, moves, now)
    ensures |late| == |moves| && AllInJitter(late)
    ensures PlayedSideBySide(p, cfg, ids, moves, late, all, base, now, false)
  {
    late := seq(|moves|, _ => TIMESTAMP_JITTER);
    assert Drawable(moves, late, false);
    all, base := RunSideBySide(p, cfg, ids, moves, late, now, false);
  }

  lemma EarlyMoveIsValid(p: Primitives, cfg: ValidatorConfig, ids: set<string>, moves: seq<Move>, late: seq<int>,
                         now: int)
    requires Valid(cfg) && moves != [] && AlwaysValid(p, cfg, ids, moves, now)
    requires |late| == |moves| - 1 && AllInJitter(late)
    ensures AllValid(p, cfg, Play(p, cfg, Played(p, cfg, ids, moves[..|moves| - 1], late), moves[|moves| - 1],
                                  -TIMESTAMP_JITTER), now)
  {
    var jitters := late + [-TIMESTAMP_JITTER];
    assert jitters[..|late|] == late && AllInJitter(jitters);
    assert AllValid(p, cfg, Played(p, cfg, ids, moves, jitters), now);
  }

  /** Late blocks before and an early one now: the jitters that show whether the day advanced. */
  lemma LastMoveAdvances(p: Primitives, cfg: ValidatorConfig, ids: set<string>, moves: seq<Move>, now: int)
    requires Valid(cfg) && moves != [] && moves[|moves| - 1].clock <= now && AlwaysValid(p, cfg, ids, moves, now)
    requires Setting(p, cfg, ids, moves[..|moves| - 1], moves[|moves| - 1].clock)
    ensures Advances(p, cfg, ids, moves[..|moves| - 1], moves[|moves| - 1])
  {
    var before, m := moves[..|moves| - 1], moves[|moves| - 1];
    var late, all, base := LateRun(p, cfg, ids, before, m.clock);
    EarlyMoveIsValid(p, cfg, ids, moves, late, now);
    if Makes(p, cfg, Base(p, cfg, ids, before), m) {
      EarlyBlockShowsDay(p, cfg, ids, Played(p, cfg, ids, before, late), all, Base(p, cfg, ids, before), base, m,
                         LastDay(p, cfg, ids, before), now);
    }
  }

  lemma {:induction false} AlwaysValidAdvances(p: Primitives, cfg: ValidatorConfig, ids: set<string>, moves: seq<Move>,
                                               now: int)
    requires Valid(cfg) && Premises(p, cfg, ids, moves, now) && AlwaysValid(p, cfg, ids, moves, now)
    ensures LaterDays(p, cfg, ids, moves)
    decreases |moves|
  {
    if moves == [] {
    } else {
      var before, m := moves[..|moves| - 1], moves[|moves| - 1];
      PremisesBefore(p, cfg, ids, moves, now);
      AlwaysValidBefore(p, cfg, ids, moves, now);
      AlwaysValidAdvances(p, cfg, ids, before, now);
      LastMoveAdvances(p, cfg, ids, moves, now);
    }
  }

  /**
   In a network with sole authors the chains are valid whatever jitters are drawn if and
   only if every block is made on a later day than the one before it in the network (the
   genesis day included) and from a queue that verifies.
   */
  lemma AlwaysValidIff(p: Primitives, cfg: ValidatorConfig, ids: set<string>, moves: seq<Move>, now: int)
    requires Valid(cfg) && Premises(p, cfg, ids, moves, now)
    ensures AlwaysValid(p, cfg, ids, moves, now) <==> LaterDays(p, cfg, ids, moves)
  {
    if LaterDays(p, cfg, ids, moves) {
      LaterDaysAreValid(p, cfg, ids, moves, now);
    } else if AlwaysValid(p, cfg, ids, moves, now) {
      AlwaysValidAdvances(p, cfg, ids, moves, now);
    }
  }

  // ----- A run that fails -----

  /** The authors of heights 1 and 2 make their blocks on one day, the second with the smaller jitter. */
  function OneDaySteps(p: Primitives, cfg: ValidatorConfig, a: string, b: string, x: Collection, clock: int,
                       first: seq<Block>): seq<Step> {
    [SubmitCollection(a, x)] + [Create(a, Draw("", clock, TIMESTAMP_JITTER))] + [Sync(b, first, clock)] +
    [SubmitCollection(b, x)] + [Create(b, Draw("", clock, -TIMESTAMP_JITTER))]
  }

  lemma OneDayStepsInRange(p: Primitives, cfg: ValidatorConfig, a: string, b: string, x: Collection, clock: int,
                           first: seq<Block>)
    ensures var steps := OneDaySteps(p, cfg, a, b, x, clock, first);
            forall i :: 0 <= i < |steps| && steps[i].Create? ==>
                          steps[i].draw.now == clock && InJitter(steps[i].draw.jitter)
  {
    assert OneDaySteps(p, cfg, a, b, x, clock, first) ==
           [SubmitCollection(a, x), Create(a, Draw("", clock, TIMESTAMP_JITTER)), Sync(b, first, clock),
            SubmitCollection(b, x), Create(b, Draw("", clock, -TIMESTAMP_JITTER))];
  }

  /** A fresh node that has submitted `x` and made a block of it. */
  ghost function FirstMaker(p: Primitives, cfg: ValidatorConfig, a: string, x: Collection, clock: int): Node
    requires Valid(cfg)
  {
    var queued := InitialNode(p, cfg).(collections := [x]);
    match CreateBlock(p, cfg, a, queued, Draw("", clock, TIMESTAMP_JITTER))
    case Ok(s) => s
    case Err(_) => queued
  }

  lemma FirstIsMade(p: Primitives, cfg: ValidatorConfig, a: string, x: Collection, clock: int)
    requires Valid(cfg) && Forks.Usable(p, x) && Authorized(cfg, a, 1) && GENESIS_TIMESTAMP <= clock
    ensures var queued, s := InitialNode(p, cfg).(collections := [x]), FirstMaker(p, cfg, a, x, clock);
            && CreateBlock(p, cfg, a, queued, Draw("", clock, TIMESTAMP_JITTER)) == Ok(s)
            && |s.chain| == 2 && s.chain[1].index == 1 && s == Node(s.chain, [], [], [])
            && ValidChain(p, cfg, s.chain, clock)
  {
    var queued, d := InitialNode(p, cfg).(collections := [x]), Draw("", clock, TIMESTAMP_JITTER);
    assert SealAll(p, [], "") == Some([]);
    assert queued.chain == [Genesis(p, cfg)] && Genesis(p, cfg).index == 0;
    CreatesIff(p, cfg, a, queued, d);
    CreatedNode(p, cfg, a, queued, d);
    FirstIsValid(p, cfg, a, queued, d);
  }

  /** The node after a creation at a height without a checkpoint. */
  lemma CreatedNode(p: Primitives, cfg: ValidatorConfig, id: string, s: Node, d: Draw)
    requires Valid(cfg) && CreateBlock(p, cfg, id, s, d).Ok?
    requires (s.chain[|s.chain| - 1].index + 1) % CHECKPOINT_INTERVAL != 0
    ensures var s' := CreateBlock(p, cfg, id, s, d).value;
            && |s'.chain| == |s.chain| + 1 && s'.chain[|s.chain|].index == s.chain[|s.chain| - 1].index + 1
            && s' == Node(s'.chain, s.checkpoints, [], [])
  {
  }

  lemma FirstIsValid(p: Primitives, cfg: ValidatorConfig, a: string, s: Node, d: Draw)
    requires Valid(cfg) && Conservation.RoundTrips(p) && CreateBlock(p, cfg, a, s, d).Ok? && QueueVerifies(p, s)
    requires s.chain == [Genesis(p, cfg)] && GENESIS_TIMESTAMP <= d.now && d.jitter == TIMESTAMP_JITTER
    ensures ValidChain(p, cfg, CreateBlock(p, cfg, a, s, d).value.chain, d.now)
  {
    DayAfterGenesis(d.now);
    assert Genesis(p, cfg).timestamp == GENESIS_TIMESTAMP;
    CreateKeepsValidIff(p, cfg, a, s, d, d.now);
  }

  lemma DayAfterGenesis(now: int)
    requires GENESIS_TIMESTAMP <= now
    ensures GENESIS_TIMESTAMP <= Day(now) <= now
  {
  }

  lemma SecondJoins(p: Primitives, cfg: ValidatorConfig, s: Node, first: seq<Block>, clock: int)
    requires Valid(cfg) && |first| == 2 && ValidChain(p, cfg, first, clock)
    requires s == InitialNode(p, cfg) || s == Node(first, [], [], [])
    ensures AfterReplace(p, cfg, s, first, clock) == Node(first, [], [], [])
  {
  }

  /** The first author makes a block and the second takes the chain over. */
  lemma SecondIsReady(p: Primitives, cfg: ValidatorConfig, ids: set<string>, a: string, b: string, x: Collection,
                      clock: int)
    requires Valid(cfg) && a in ids && b in ids && Forks.Usable(p, x) && GENESIS_TIMESTAMP <= clock
    requires Authorized(cfg, a, 1)
    ensures var first := FirstMaker(p, cfg, a, x, clock).chain;
            var net := Run(p, cfg, ids, [SubmitCollection(a, x)] + [Create(a, Draw("", clock, TIMESTAMP_JITTER))] +
                                        [Sync(b, first, clock)]);
            b in net.nodes && net.nodes[b] == Node(first, [], [], [])
  {
    var s := FirstMaker(p, cfg, a, x, clock);
    FirstIsMade(p, cfg, a, x, clock);
    var e1, e2, e3 := SubmitCollection(a, x), Create(a, Draw("", clock, TIMESTAMP_JITTER)), Sync(b, s.chain, clock);
    Forks.RunAppend(p, cfg, ids, [], e1);
    assert [] + [e1] == [e1] && [] + [x] == [x];
    Forks.RunAppend(p, cfg, ids, [e1], e2);
    Forks.RunAppend(p, cfg, ids, [e1] + [e2], e3);
    var n2 := Run(p, cfg, ids, [e1] + [e2]);
    assert n2.nodes[a] == s && s.chain in n2.snapshots;
    SecondJoins(p, cfg, n2.nodes[b], s.chain, clock);
  }

  lemma OneDayRun(p: Primitives, cfg: ValidatorConfig, ids: set<string>, a: string, b: string, x: Collection,
                  clock: int)
    requires Valid(cfg) && a in ids && b in ids && Forks.Usable(p, x) && GENESIS_TIMESTAMP <= clock
    requires Authorized(cfg, a, 1)
    ensures var first := FirstMaker(p, cfg, a, x, clock).chain;
            var before := Node(first, [], [], [x]);
            var net := Run(p, cfg, ids, OneDaySteps(p, cfg, a, b, x, clock, first));
            b in net.nodes && match CreateBlock(p, cfg, b, before, Draw("", clock, -TIMESTAMP_JITTER))
                              case Ok(s) => net.nodes[b] == s
                              case Err(_) => true
  {
    var first := FirstMaker(p, cfg, a, x, clock).chain;
    SecondIsReady(p, cfg, ids, a, b, x, clock);
    var three := [SubmitCollection(a, x)] + [Create(a, Draw("", clock, TIMESTAMP_JITTER))] + [Sync(b, first, clock)];
    var e4, e5 := SubmitCollection(b, x), Create(b, Draw("", clock, -TIMESTAMP_JITTER));
    Forks.RunAppend(p, cfg, ids, three, e4);
    Forks.RunAppend(p, cfg, ids, three + [e4], e5);
    assert [] + [x] == [x];
  }

  /**
   Whatever the rotation, when the authors of heights 1 and 2 make their blocks on one day the
   second author can end with a chain that fails its own check at any time.
   */
  lemma OneDayFails(p: Primitives, cfg: ValidatorConfig, ids: set<string>, a: string, b: string, x: Collection,
                    clock: int, now: int)
    returns (steps: seq<Step>)
    requires Valid(cfg) && a in ids && b in ids && Forks.Usable(p, x) && GENESIS_TIMESTAMP <= clock
    requires Authorized(cfg, a, 1) && Authorized(cfg, b, 2)
    ensures forall i :: 0 <= i < |steps| && steps[i].Create? ==>
                          steps[i].draw.now == clock && InJitter(steps[i].draw.jitter)
    ensures var net := Run(p, cfg, ids, steps);
            b in net.nodes && |net.nodes[b].chain| == 3 && !ValidChain(p, cfg, net.nodes[b].chain, now)
  {
    var s := FirstMaker(p, cfg, a, x, clock);
    steps := OneDaySteps(p, cfg, a, b, x, clock, s.chain);
    FirstIsMade(p, cfg, a, x, clock);
    OneDayRun(p, cfg, ids, a, b, x, clock);
    var queued, d' := Node(s.chain, [], [], [x]), Draw("", clock, -TIMESTAMP_JITTER);
    assert SealAll(p, [], "") == Some([]);
    assert queued.chain[|queued.chain| - 1].index == 1;
    OneDayStepsInRange(p, cfg, a, b, x, clock, s.chain);
    CreatesIff(p, cfg, b, queued, d');
    CreatedNode(p, cfg, b, queued, d');
    TwoCreationsOneDayFail(p, cfg, a, b, InitialNode(p, cfg).(collections := [x]),
                           Draw("", clock, TIMESTAMP_JITTER), [], [x], d', now);
  }
}
