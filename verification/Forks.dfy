/**
 The converse of fork freedom: whenever two nodes may create the same attainable
 height, some run of honest nodes ends in a fork.
 */
module Forks {
  import opened Wrappers
  import opened Config
  import opened Blocks
  import opened Ledger
  import opened Network
  import Conservation

  /** The clock at which the constructed runs take place. */
  const RUN_CLOCK := GENESIS_TIMESTAMP

  const PLAIN_DRAW := Draw("", RUN_CLOCK, 0)

  /** Nodes decode what they encode, and `c` is a collection with a good signature. */
  ghost predicate Usable(p: Primitives, c: Collection) {
    (forall x: Container :: (p.decode)((p.encode)(x)) == Some(x)) && (p.verifyCollection)(c)
  }

  /** All nodes hold parts of one valid chain that is on offer, and nothing is pending. */
  ghost predicate Staged(p: Primitives, cfg: ValidatorConfig, ids: set<string>, net: Net, c: seq<Block>)
    requires Valid(cfg)
  {
    && net.nodes.Keys == ids && c in net.snapshots
    && c != [] && IndexIsPosition(c) && ValidChain(p, cfg, c, RUN_CLOCK)
    && c[|c| - 1].timestamp == RUN_CLOCK
    && forall id :: id in net.nodes ==> Waiting(net.nodes[id], c)
  }

  ghost predicate Waiting(s: Node, c: seq<Block>) {
    IsPart(s.chain, c) && s.accounts == [] && s.collections == []
  }

  ghost predicate Ready(p: Primitives, cfg: ValidatorConfig, ids: set<string>, net: Net, c: seq<Block>, id: string)
    requires Valid(cfg)
  {
    Staged(p, cfg, ids, net, c) && id in ids && net.nodes[id].chain == c
  }

  lemma SyncAdopts(p: Primitives, cfg: ValidatorConfig, s: Node, c: seq<Block>)
    requires Valid(cfg) && c != [] && IndexIsPosition(c) && ValidChain(p, cfg, c, RUN_CLOCK) && Waiting(s, c)
    ensures AfterReplace(p, cfg, s, c, RUN_CLOCK) == s.(chain := c)
  {
    if |s.chain| == |c| {
      assert s.chain == c;
    } else if s.checkpoints != [] {
      var found := FindByHash(s.chain, s.checkpoints[|s.checkpoints| - 1]);
      if found.Some? {
        var i :| 0 <= i < |s.chain| && s.chain[i] == found.value;
        assert c[i] == s.chain[i];
      }
    }
  }

  lemma SyncReadies(p: Primitives, cfg: ValidatorConfig, ids: set<string>, net: Net, c: seq<Block>, id: string)
    requires Valid(cfg) && Staged(p, cfg, ids, net, c) && id in ids
    ensures Ready(p, cfg, ids, Next(p, cfg, net, Sync(id, c, RUN_CLOCK)), c, id)
    ensures forall other :: Ready(p, cfg, ids, net, c, other) ==>
                              Ready(p, cfg, ids, Next(p, cfg, net, Sync(id, c, RUN_CLOCK)), c, other)
  {
    SyncAdopts(p, cfg, net.nodes[id], c);
  }

  /** The block a node makes of `items` on top of `c`. */
  ghost function Made(p: Primitives, cfg: ValidatorConfig, c: seq<Block>, items: seq<Collection>): Block
    requires Valid(cfg) && c != []
  {
    NextBlock(p, cfg, Node(c, [], [], items), [], PLAIN_DRAW)
  }

  lemma MadeDiffers(p: Primitives, cfg: ValidatorConfig, c: seq<Block>, x: Collection)
    requires Valid(cfg) && c != [] && Usable(p, x)
    ensures Made(p, cfg, c, [x]) != Made(p, cfg, c, [x, x])
  {
    var v := ValidatorFor(cfg, c[|c| - 1].index + 1);
    assert (p.decode)((p.encode)(Container([], [x], v))) == Some(Container([], [x], v));
    assert (p.decode)((p.encode)(Container([], [x, x], v))) == Some(Container([], [x, x], v));
    assert |[x]| != |[x, x]|;
  }

  /** Submitting `items` and then creating leaves the made block on the chain. */
  lemma CreateMakes(p: Primitives, cfg: ValidatorConfig, id: string, s: Node, items: seq<Collection>)
    requires Valid(cfg) && s.chain != [] && s.accounts == [] && s.collections == items != []
    requires Authorized(cfg, id, s.chain[|s.chain| - 1].index + 1)
    ensures CreateBlock(p, cfg, id, s, PLAIN_DRAW) == Ok(WithBlock(s, Made(p, cfg, s.chain, items)))
  {
    assert SealAll(p, s.accounts, PLAIN_DRAW.salt) == Some([]);
    var b := NextBlock(p, cfg, s, [], PLAIN_DRAW);
    assert b == Made(p, cfg, s.chain, items);
    assert CreateBlock(p, cfg, id, s, PLAIN_DRAW) == Ok(WithBlock(s, b));
  }

  lemma MadeIsValid(p: Primitives, cfg: ValidatorConfig, c: seq<Block>, x: Collection)
    requires Valid(cfg) && c != [] && IndexIsPosition(c) && ValidChain(p, cfg, c, RUN_CLOCK)
    requires c[|c| - 1].timestamp == RUN_CLOCK && Usable(p, x)
    ensures var b := Made(p, cfg, c, [x]);
            b.index == |c| && b.timestamp == RUN_CLOCK && ValidChain(p, cfg, c + [b], RUN_CLOCK)
  {
    var b := Made(p, cfg, c, [x]);
    assert RUN_CLOCK % TIMESTAMP_GRANULARITY == 0;
    assert DataVerifies(p, b.data);
    assert HeaderText(b) == HeaderText(b.(hash := ""));
    forall i | 1 <= i < |c + [b]|
      ensures FaultAt(p, cfg, c + [b], i, RUN_CLOCK).None?
    {
      if i < |c| {
        assert FaultAt(p, cfg, c, i, RUN_CLOCK).None?;
        assert (c + [b])[i] == c[i] && (c + [b])[i - 1] == c[i - 1];
      }
    }
  }

  lemma RunAppend(p: Primitives, cfg: ValidatorConfig, ids: set<string>, steps: seq<Step>, step: Step)
    requires Valid(cfg)
    ensures Run(p, cfg, ids, steps + [step]) == Next(p, cfg, Run(p, cfg, ids, steps), step)
  {
    assert (steps + [step])[..|steps|] == steps;
  }

  /** What submitting one collection and creating does to a ready author. */
  lemma AuthorCreates(p: Primitives, cfg: ValidatorConfig, net: Net, c: seq<Block>, id: string, x: Collection)
    requires Valid(cfg) && c != [] && IndexIsPosition(c) && id in net.nodes
    requires net.nodes[id].chain == c && net.nodes[id].accounts == [] && net.nodes[id].collections == []
    requires Authorized(cfg, id, |c|)
    ensures var b := Made(p, cfg, c, [x]);
            var net' := Next(p, cfg, Next(p, cfg, net, SubmitCollection(id, x)), Create(id, PLAIN_DRAW));
            && net'.nodes == net.nodes[id := net'.nodes[id]]
            && c + [b] in net'.snapshots
            && net'.nodes[id].chain == c + [b]
            && net'.nodes[id].accounts == [] && net'.nodes[id].collections == []
  {
    var s := net.nodes[id].(collections := [x]);
    assert net.nodes[id].collections + [x] == [x];
    assert Next(p, cfg, net, SubmitCollection(id, x)) == Update(net, id, s);
    CreateMakes(p, cfg, id, s, [x]);
    assert (c + [Made(p, cfg, c, [x])])[|c|] == Made(p, cfg, c, [x]);
  }

  /** From a staged network an author can take the chain one height further. */
  lemma Advance(p: Primitives, cfg: ValidatorConfig, ids: set<string>, net: Net, c: seq<Block>, id: string,
                x: Collection)
    requires Valid(cfg) && Ready(p, cfg, ids, net, c, id) && Authorized(cfg, id, |c|) && Usable(p, x)
    ensures var net' := Next(p, cfg, Next(p, cfg, net, SubmitCollection(id, x)), Create(id, PLAIN_DRAW));
            Staged(p, cfg, ids, net', c + [Made(p, cfg, c, [x])])
  {
    MadeIsValid(p, cfg, c, x);
    AuthorCreates(p, cfg, net, c, id, x);
    var net' := Next(p, cfg, Next(p, cfg, net, SubmitCollection(id, x)), Create(id, PLAIN_DRAW));
    forall other | other in ids
      ensures Waiting(net'.nodes[other], c + [Made(p, cfg, c, [x])])
    {
      assert Waiting(net.nodes[other], c);
    }
  }

  /** The chain holds what was submitted, all of it copies of `x`. */
  ghost predicate Carries(p: Primitives, ids: set<string>, steps: seq<Step>, c: seq<Block>, x: Collection) {
    && multiset(Conservation.CollectionsIn(p, c)) == Submitted(ids, steps)
    && forall e :: e in Conservation.CollectionsIn(p, c) ==> e == x
  }

  ghost predicate StagedAfter(p: Primitives, cfg: ValidatorConfig, ids: set<string>, steps: seq<Step>, c: seq<Block>,
                              x: Collection)
    requires Valid(cfg)
  {
    Staged(p, cfg, ids, Run(p, cfg, ids, steps), c) && Carries(p, ids, steps, c, x)
  }

  lemma MadeHolds(p: Primitives, cfg: ValidatorConfig, c: seq<Block>, items: seq<Collection>, x: Collection)
    requires Valid(cfg) && c != [] && Usable(p, x)
    ensures CollectionsOf(p, Made(p, cfg, c, items)) == items
    ensures Conservation.CollectionsIn(p, c + [Made(p, cfg, c, items)]) == Conservation.CollectionsIn(p, c) + items
  {
    var held := Container([], items, ValidatorFor(cfg, c[|c| - 1].index + 1));
    assert (p.decode)((p.encode)(held)) == Some(held);
    Conservation.CollectionsInAppend(p, c, Made(p, cfg, c, items));
  }

  lemma StartIsStaged(p: Primitives, cfg: ValidatorConfig, ids: set<string>, x: Collection)
    requires Valid(cfg) && Usable(p, x)
    ensures StagedAfter(p, cfg, ids, [], [Genesis(p, cfg)], x)
  {
    GenesisIsEmpty(p, cfg, x);
  }

  lemma GenesisIsEmpty(p: Primitives, cfg: ValidatorConfig, x: Collection)
    requires Valid(cfg) && Usable(p, x)
    ensures Conservation.CollectionsIn(p, [Genesis(p, cfg)]) == []
  {
    var held := Container([], [], ValidatorFor(cfg, 0));
    assert (p.decode)((p.encode)(held)) == Some(held);
    assert [] + [Genesis(p, cfg)] == [Genesis(p, cfg)];
    assert Conservation.CollectionsIn(p, []) == [];
    Conservation.CollectionsInAppend(p, [], Genesis(p, cfg));
  }

  /** Every staffed height can be reached with all nodes on parts of one chain. */
  lemma {:induction false} Reach(p: Primitives, cfg: ValidatorConfig, ids: set<string>, x: Collection, height: nat)
    returns (steps: seq<Step>, c: seq<Block>)
    requires Valid(cfg) && Usable(p, x) && Attainable(cfg, ids, height)
    ensures |c| == height && StagedAfter(p, cfg, ids, steps, c, x)
  {
    if height == 1 {
      steps, c := [], [Genesis(p, cfg)];
      StartIsStaged(p, cfg, ids, x);
    } else {
      steps, c := Reach(p, cfg, ids, x, height - 1);
      assert Staffed(cfg, ids, height - 1);
      var id :| id in ids && Authorized(cfg, id, height - 1);
      steps, c := OneHigher(p, cfg, ids, x, steps, c, id);
    }
  }

  lemma SubmittedAppend(ids: set<string>, steps: seq<Step>, step: Step)
    ensures Submitted(ids, steps + [step]) == Submitted(ids, steps) + Brings(ids, step)
  {
    assert (steps + [step])[..|steps|] == steps;
  }

  /** One submission and one creation after the steps. */
  function ThenMakes(steps: seq<Step>, id: string, x: Collection): seq<Step> {
    steps + [SubmitCollection(id, x)] + [Create(id, PLAIN_DRAW)]
  }

  lemma ThenMakesRun(p: Primitives, cfg: ValidatorConfig, ids: set<string>, steps: seq<Step>, id: string, x: Collection)
    requires Valid(cfg) && id in ids
    ensures Run(p, cfg, ids, ThenMakes(steps, id, x)) ==
            Next(p, cfg, Next(p, cfg, Run(p, cfg, ids, steps), SubmitCollection(id, x)), Create(id, PLAIN_DRAW))
    ensures Submitted(ids, ThenMakes(steps, id, x)) == Submitted(ids, steps) + multiset{x}
  {
    var submitted := steps + [SubmitCollection(id, x)];
    RunAppend(p, cfg, ids, steps, SubmitCollection(id, x));
    RunAppend(p, cfg, ids, submitted, Create(id, PLAIN_DRAW));
    ThenMakesSubmits(ids, steps, id, x);
  }

  lemma ThenMakesSubmits(ids: set<string>, steps: seq<Step>, id: string, x: Collection)
    requires id in ids
    ensures Submitted(ids, ThenMakes(steps, id, x)) == Submitted(ids, steps) + multiset{x}
  {
    var submitted := steps + [SubmitCollection(id, x)];
    SubmittedAppend(ids, steps, SubmitCollection(id, x));
    SubmittedAppend(ids, submitted, Create(id, PLAIN_DRAW));
  }

  /** Synchronising a node of a staged network makes it ready and submits nothing. */
  lemma ThenSyncs(p: Primitives, cfg: ValidatorConfig, ids: set<string>, steps: seq<Step>, c: seq<Block>, id: string)
    requires Valid(cfg) && Staged(p, cfg, ids, Run(p, cfg, ids, steps), c) && id in ids
    ensures var net, net' := Run(p, cfg, ids, steps), Run(p, cfg, ids, steps + [Sync(id, c, RUN_CLOCK)]);
            && Ready(p, cfg, ids, net', c, id)
            && forall other :: Ready(p, cfg, ids, net, c, other) ==> Ready(p, cfg, ids, net', c, other)
    ensures Submitted(ids, steps + [Sync(id, c, RUN_CLOCK)]) == Submitted(ids, steps)
  {
    RunAppend(p, cfg, ids, steps, Sync(id, c, RUN_CLOCK));
    SyncReadies(p, cfg, ids, Run(p, cfg, ids, steps), c, id);
    SubmittedAppend(ids, steps, Sync(id, c, RUN_CLOCK));
  }

  lemma OneHigher(p: Primitives, cfg: ValidatorConfig, ids: set<string>, x: Collection, steps: seq<Step>,
                  c: seq<Block>, id: string)
    returns (more: seq<Step>, longer: seq<Block>)
    requires Valid(cfg) && Usable(p, x) && StagedAfter(p, cfg, ids, steps, c, x)
    requires id in ids && Authorized(cfg, id, |c|)
    ensures |longer| == |c| + 1 && StagedAfter(p, cfg, ids, more, longer, x)
  {
    var synced := steps + [Sync(id, c, RUN_CLOCK)];
    ThenSyncs(p, cfg, ids, steps, c, id);
    more := ThenMakes(synced, id, x);
    ThenMakesRun(p, cfg, ids, synced, id, x);
    longer := c + [Made(p, cfg, c, [x])];
    Advance(p, cfg, ids, Run(p, cfg, ids, synced), c, id, x);
    CarriesMore(p, cfg, ids, steps, more, c, x);
  }

  lemma CarriesMore(p: Primitives, cfg: ValidatorConfig, ids: set<string>, steps: seq<Step>, more: seq<Step>,
                    c: seq<Block>, x: Collection)
    requires Valid(cfg) && c != [] && Usable(p, x) && Carries(p, ids, steps, c, x)
    requires Submitted(ids, more) == Submitted(ids, steps) + multiset{x}
    ensures Carries(p, ids, more, c + [Made(p, cfg, c, [x])], x)
  {
    MadeHolds(p, cfg, c, [x], x);
    OneMoreCopy(Conservation.CollectionsIn(p, c), x);
  }

  lemma OneMoreCopy(held: seq<Collection>, x: Collection)
    requires forall e :: e in held ==> e == x
    ensures multiset(held + [x]) == multiset(held) + multiset{x}
    ensures forall e :: e in held + [x] ==> e == x
  {
  }

  lemma ThreeCopies(held: multiset<Collection>, x: Collection)
    ensures held + multiset{x} + multiset{x} + multiset{x} == held + multiset{x, x, x}
  {
  }

  // ----- Two authors of one height -----

  /** Two authors ready at a height that both may create. */
  ghost predicate Rivals(p: Primitives, cfg: ValidatorConfig, ids: set<string>, steps: seq<Step>, c: seq<Block>,
                         x: Collection, a: string, b: string)
    requires Valid(cfg)
  {
    && a != b && Carries(p, ids, steps, c, x)
    && Ready(p, cfg, ids, Run(p, cfg, ids, steps), c, a) && Ready(p, cfg, ids, Run(p, cfg, ids, steps), c, b)
    && Authorized(cfg, a, |c|) && Authorized(cfg, b, |c|)
  }

  lemma FindRivals(p: Primitives, cfg: ValidatorConfig, ids: set<string>, x: Collection)
    returns (steps: seq<Step>, c: seq<Block>, a: string, b: string)
    requires Valid(cfg) && Usable(p, x) && !SoleAuthors(cfg, ids)
    ensures Rivals(p, cfg, ids, steps, c, x, a, b)
  {
    var h :| Attainable(cfg, ids, h) && !SoleAuthor(cfg, ids, h);
    a, b :| a in ids && b in ids && Authorized(cfg, a, h) && Authorized(cfg, b, h) && a != b;
    steps, c := Reach(p, cfg, ids, x, h);
    ThenSyncs(p, cfg, ids, steps, c, a);
    steps := steps + [Sync(a, c, RUN_CLOCK)];
    ThenSyncs(p, cfg, ids, steps, c, b);
    steps := steps + [Sync(b, c, RUN_CLOCK)];
  }

  /** Two nodes hold different blocks on top of `c`, the others hold parts of `c`; nothing is queued. */
  ghost predicate Split(net: Net, ids: set<string>, c: seq<Block>, a: string, one: Block, b: string, other: Block) {
    && net.nodes.Keys == ids && a in ids && b in ids && a != b
    && net.nodes[a].chain == c + [one] && net.nodes[b].chain == c + [other]
    && (forall id :: id in ids && id != a && id != b ==> IsPart(net.nodes[id].chain, c))
    && (forall id :: id in ids ==> net.nodes[id].accounts == [] && net.nodes[id].collections == [])
  }

  lemma OtherAuthorCreates(p: Primitives, cfg: ValidatorConfig, net: Net, c: seq<Block>, id: string, x: Collection)
    requires Valid(cfg) && c != [] && IndexIsPosition(c) && id in net.nodes
    requires net.nodes[id].chain == c && net.nodes[id].accounts == [] && net.nodes[id].collections == []
    requires Authorized(cfg, id, |c|)
    ensures var two := Next(p, cfg, Next(p, cfg, net, SubmitCollection(id, x)), SubmitCollection(id, x));
            var net' := Next(p, cfg, two, Create(id, PLAIN_DRAW));
            && net'.nodes == net.nodes[id := net'.nodes[id]]
            && net'.nodes[id].chain == c + [Made(p, cfg, c, [x, x])]
            && net'.nodes[id].accounts == [] && net'.nodes[id].collections == []
  {
    var s := net.nodes[id].(collections := [x, x]);
    assert net.nodes[id].collections + [x] + [x] == [x, x];
    var two := Next(p, cfg, Next(p, cfg, net, SubmitCollection(id, x)), SubmitCollection(id, x));
    assert two.nodes == net.nodes[id := s];
    CreateMakes(p, cfg, id, s, [x, x]);
  }

  /** One node has put a block on top of `c`; the rest of the network is as before. */
  ghost predicate Packed(net: Net, net': Net, c: seq<Block>, a: string, block: Block) {
    && a in net'.nodes && net'.nodes == net.nodes[a := net'.nodes[a]]
    && net'.nodes[a].chain == c + [block] && c + [block] in net'.snapshots
    && net'.nodes[a].accounts == [] && net'.nodes[a].collections == []
  }

  /** The first author packs one collection. */
  lemma FirstPacks(p: Primitives, cfg: ValidatorConfig, ids: set<string>, steps: seq<Step>, c: seq<Block>,
                   x: Collection, a: string, b: string, y: Collection)
    requires Valid(cfg) && Rivals(p, cfg, ids, steps, c, x, a, b)
    ensures Packed(Run(p, cfg, ids, steps), Run(p, cfg, ids, ThenMakes(steps, a, y)), c, a, Made(p, cfg, c, [y]))
    ensures Submitted(ids, ThenMakes(steps, a, y)) == Submitted(ids, steps) + multiset{y}
  {
    ThenMakesRun(p, cfg, ids, steps, a, y);
    assert Waiting(Run(p, cfg, ids, steps).nodes[a], c);
    AuthorCreates(p, cfg, Run(p, cfg, ids, steps), c, a, y);
  }

  /** One author packs one copy and the other two: the chains differ, and three copies were submitted. */
  lemma ForkRun(p: Primitives, cfg: ValidatorConfig, ids: set<string>, x: Collection)
    returns (steps: seq<Step>, c: seq<Block>, a: string, b: string)
    requires Valid(cfg) && Usable(p, x) && !SoleAuthors(cfg, ids)
    ensures c != [] && Split(Run(p, cfg, ids, steps), ids, c, a, Made(p, cfg, c, [x]), b, Made(p, cfg, c, [x, x]))
    ensures Submitted(ids, steps) == multiset(Conservation.CollectionsIn(p, c)) + multiset{x, x, x}
  {
    var start: seq<Step>;
    start, c, a, b := FindRivals(p, cfg, ids, x);
    steps := ForkSteps(start, a, b, x);
    ForkSubmits(ids, start, a, b, x);
    ForkSplits(p, cfg, ids, start, c, x, a, b);
  }

  /** One copy of `x` for one author, two for the other. */
  function ForkSteps(start: seq<Step>, a: string, b: string, x: Collection): seq<Step> {
    ThenMakes(ThenMakes(start, a, x) + [SubmitCollection(b, x)], b, x)
  }

  lemma ForkSubmits(ids: set<string>, start: seq<Step>, a: string, b: string, x: Collection)
    requires a in ids && b in ids
    ensures Submitted(ids, ForkSteps(start, a, b, x)) == Submitted(ids, start) + multiset{x, x, x}
  {
    var first := ThenMakes(start, a, x);
    ThenMakesSubmits(ids, start, a, x);
    SubmittedAppend(ids, first, SubmitCollection(b, x));
    ThenMakesSubmits(ids, first + [SubmitCollection(b, x)], b, x);
    ThreeCopies(Submitted(ids, start), x);
  }

  lemma ForkSplits(p: Primitives, cfg: ValidatorConfig, ids: set<string>, start: seq<Step>, c: seq<Block>,
                   x: Collection, a: string, b: string)
    requires Valid(cfg) && Rivals(p, cfg, ids, start, c, x, a, b)
    ensures Split(Run(p, cfg, ids, ForkSteps(start, a, b, x)), ids, c, a, Made(p, cfg, c, [x]),
                  b, Made(p, cfg, c, [x, x]))
  {
    var first := ThenMakes(start, a, x);
    FirstPacks(p, cfg, ids, start, c, x, a, b, x);
    RunAppend(p, cfg, ids, first, SubmitCollection(b, x));
    ThenMakesRun(p, cfg, ids, first + [SubmitCollection(b, x)], b, x);
    SecondPacks(p, cfg, ids, Run(p, cfg, ids, start), Run(p, cfg, ids, first), c, x, a, b);
  }

  lemma SecondPacks(p: Primitives, cfg: ValidatorConfig, ids: set<string>, net: Net, one: Net, c: seq<Block>,
                    x: Collection, a: string, b: string)
    requires Valid(cfg) && a != b && Ready(p, cfg, ids, net, c, a) && Ready(p, cfg, ids, net, c, b)
    requires Authorized(cfg, b, |c|) && Packed(net, one, c, a, Made(p, cfg, c, [x]))
    ensures var two := Next(p, cfg, Next(p, cfg, one, SubmitCollection(b, x)), SubmitCollection(b, x));
            Split(Next(p, cfg, two, Create(b, PLAIN_DRAW)), ids, c, a, Made(p, cfg, c, [x]), b, Made(p, cfg, c, [x, x]))
  {
    OtherAuthorCreates(p, cfg, one, c, b, x);
    var two := Next(p, cfg, Next(p, cfg, one, SubmitCollection(b, x)), SubmitCollection(b, x));
    SplitAfter(p, cfg, ids, net, one, Next(p, cfg, two, Create(b, PLAIN_DRAW)), c, a, Made(p, cfg, c, [x]), b,
               Made(p, cfg, c, [x, x]));
  }

  lemma SplitAfter(p: Primitives, cfg: ValidatorConfig, ids: set<string>, net: Net, one: Net, last: Net, c: seq<Block>,
                   a: string, first: Block, b: string, second: Block)
    requires Valid(cfg) && a != b && Staged(p, cfg, ids, net, c) && a in ids && b in ids
    requires Packed(net, one, c, a, first)
    requires b in last.nodes && last.nodes == one.nodes[b := last.nodes[b]] && last.nodes[b].chain == c + [second]
    requires last.nodes[b].accounts == [] && last.nodes[b].collections == []
    ensures Split(last, ids, c, a, first, b, second)
  {
    assert forall id :: id in ids ==> Waiting(net.nodes[id], c);
  }

  lemma Fork(p: Primitives, cfg: ValidatorConfig, ids: set<string>, x: Collection) returns (steps: seq<Step>)
    requires Valid(cfg) && Usable(p, x) && !SoleAuthors(cfg, ids)
    ensures !NoFork(Run(p, cfg, ids, steps))
  {
    var c, a, b;
    steps, c, a, b := ForkRun(p, cfg, ids, x);
    MadeDiffers(p, cfg, c, x);
    var net := Run(p, cfg, ids, steps);
    assert net.nodes[a].chain[|c|] == Made(p, cfg, c, [x]);
    assert net.nodes[b].chain[|c|] == Made(p, cfg, c, [x, x]);
  }

  /** Honest runs never fork exactly when every attainable height has one author. */
  lemma ForkFreeIffSoleAuthors(p: Primitives, cfg: ValidatorConfig, ids: set<string>, x: Collection)
    requires Valid(cfg) && Usable(p, x)
    ensures (forall steps :: NoFork(Run(p, cfg, ids, steps))) <==> SoleAuthors(cfg, ids)
  {
    if SoleAuthors(cfg, ids) {
      forall steps
        ensures NoFork(Run(p, cfg, ids, steps))
      {
        NoForks(p, cfg, ids, steps);
      }
    } else {
      var steps := Fork(p, cfg, ids, x);
    }
  }
}
