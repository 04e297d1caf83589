/**
 Conservation across the whole network, synchronisation included: where heights have
 sole authors, the longest chain and all queues together hold what was submitted.
 */
module NetworkConservation {
  import opened Wrappers
  import opened Config
  import opened Blocks
  import opened Ledger
  import opened Network
  import Conservation
  import Forks
  import Selection
  import Text

  // ----- The queues of all nodes -----

  ghost function Queued(nodes: map<string, Node>, ids: set<string>): multiset<Collection>
    requires ids <= nodes.Keys
  {
    if ids == {} then multiset{}
    else
      var id :| id in ids;
      multiset(nodes[id].collections) + Queued(nodes, ids - {id})
  }

  lemma {:induction false} QueuedSplit(nodes: map<string, Node>, ids: set<string>, id: string)
    requires ids <= nodes.Keys && id in ids
    ensures Queued(nodes, ids) == multiset(nodes[id].collections) + Queued(nodes, ids - {id})
    decreases |ids|
  {
    var first :| first in ids &&
                 Queued(nodes, ids) == multiset(nodes[first].collections) + Queued(nodes, ids - {first});
    if first != id {
      QueuedSplit(nodes, ids - {first}, id);
      QueuedSplit(nodes, ids - {id}, first);
      assert ids - {first} - {id} == ids - {id} - {first};
    }
  }

  lemma {:induction false} QueuedAgree(a: map<string, Node>, b: map<string, Node>, ids: set<string>)
    requires ids <= a.Keys && ids <= b.Keys
    requires forall id :: id in ids ==> a[id].collections == b[id].collections
    ensures Queued(a, ids) == Queued(b, ids)
    decreases |ids|
  {
    if ids == {} {
    } else {
      var id :| id in ids;
      QueuedSplit(a, ids, id);
      QueuedSplit(b, ids, id);
      QueuedAgree(a, b, ids - {id});
    }
  }

  /** Changing one node exchanges its queue in the total. */
  lemma QueuedUpdate(nodes: map<string, Node>, ids: set<string>, id: string, s: Node)
    requires ids == nodes.Keys && id in ids
    ensures Queued(nodes, ids) == Queued(nodes, ids - {id}) + multiset(nodes[id].collections)
    ensures Queued(nodes[id := s], ids) == Queued(nodes, ids - {id}) + multiset(s.collections)
  {
    QueuedSplit(nodes, ids, id);
    QueuedSplit(nodes[id := s], ids, id);
    QueuedAgree(nodes, nodes[id := s], ids - {id});
  }

  // ----- Runs -----

  /** The canonical chain and all queues hold exactly these collections. */
  ghost predicate Holds(p: Primitives, net: Net, ids: set<string>, all: seq<Block>, total: multiset<Collection>)
    requires net.nodes.Keys == ids
  {
    multiset(Conservation.CollectionsIn(p, all)) + Queued(net.nodes, ids) == total
  }

  lemma CreateConserves(p: Primitives, cfg: ValidatorConfig, ids: set<string>, net: Net, all: seq<Block>,
                        id: string, d: Draw, total: multiset<Collection>)
    requires Valid(cfg) && Conservation.RoundTrips(p) && net.nodes.Keys == ids && id in ids
    requires Holds(p, net, ids, all, total) && net.nodes[id].chain == all
    requires CreateBlock(p, cfg, id, net.nodes[id], d).Ok?
    ensures Created(p, cfg, net, id, d).nodes.Keys == ids
    ensures Holds(p, Created(p, cfg, net, id, d), ids, CreateBlock(p, cfg, id, net.nodes[id], d).value.chain, total)
  {
    var s := CreateBlock(p, cfg, id, net.nodes[id], d).value;
    Conservation.CreateMovesPending(p, cfg, id, net.nodes[id], d);
    EmptiedQueueConserves(p, ids, net, all, id, s, total);
    assert Created(p, cfg, net, id, d).nodes == net.nodes[id := s];
  }

  /** A queue that moves into the chain as a whole changes nothing in total. */
  lemma EmptiedQueueConserves(p: Primitives, ids: set<string>, net: Net, all: seq<Block>, id: string, s: Node,
                              total: multiset<Collection>)
    requires net.nodes.Keys == ids && id in ids && Holds(p, net, ids, all, total) && s.collections == []
    requires Conservation.CollectionsIn(p, s.chain) == Conservation.CollectionsIn(p, all) + net.nodes[id].collections
    ensures multiset(Conservation.CollectionsIn(p, s.chain)) + Queued(net.nodes[id := s], ids) == total
  {
    QueuedUpdate(net.nodes, ids, id, s);
    assert multiset(Conservation.CollectionsIn(p, s.chain)) ==
           multiset(Conservation.CollectionsIn(p, all)) + multiset(net.nodes[id].collections);
  }

  /** A node that moves along the canonical chain keeps its queue, and a submission lengthens it. */
  lemma QuietConserves(p: Primitives, ids: set<string>, net: Net, all: seq<Block>, id: string, s: Node,
                       more: seq<Collection>, total: multiset<Collection>)
    requires net.nodes.Keys == ids && id in ids && Holds(p, net, ids, all, total)
    requires s.collections == net.nodes[id].collections + more
    ensures Holds(p, Update(net, id, s), ids, all, total + multiset(more))
  {
    QueuedUpdate(net.nodes, ids, id, s);
    assert multiset(s.collections) == multiset(net.nodes[id].collections) + multiset(more);
  }

  lemma StepConserves(p: Primitives, cfg: ValidatorConfig, ids: set<string>, net: Net, all: seq<Block>, step: Step,
                      total: multiset<Collection>)
    returns (all': seq<Block>)
    requires Valid(cfg) && Conservation.RoundTrips(p) && SoleAuthors(cfg, ids)
    requires Inv(p, cfg, ids, net, all) && Holds(p, net, ids, all, total)
    ensures Inv(p, cfg, ids, Next(p, cfg, net, step), all')
    ensures Holds(p, Next(p, cfg, net, step), ids, all', total + Brings(ids, step))
  {
    all' := StepKeepsInv(p, cfg, ids, net, all, step);
    if step.Create? {
      CreateStepConserves(p, cfg, ids, net, all, all', step, total);
    } else {
      OtherStepConserves(p, cfg, ids, net, all, step, total);
    }
  }

  lemma CreateStepConserves(p: Primitives, cfg: ValidatorConfig, ids: set<string>, net: Net, all: seq<Block>,
                            all': seq<Block>, step: Step, total: multiset<Collection>)
    requires Valid(cfg) && Conservation.RoundTrips(p) && step.Create? && net.nodes.Keys == ids
    requires Holds(p, net, ids, all, total)
    requires if step.id in net.nodes && CreateBlock(p, cfg, step.id, net.nodes[step.id], step.draw).Ok?
             then && net.nodes[step.id].chain == all
                  && CreateBlock(p, cfg, step.id, net.nodes[step.id], step.draw).value.chain == all'
             else all' == all
    ensures Next(p, cfg, net, step).nodes.Keys == ids
    ensures Holds(p, Next(p, cfg, net, step), ids, all', total + Brings(ids, step))
  {
    assert total + multiset{} == total;
    if step.id in net.nodes && CreateBlock(p, cfg, step.id, net.nodes[step.id], step.draw).Ok? {
      CreateConserves(p, cfg, ids, net, all, step.id, step.draw, total);
    }
  }

  /** What the node of a step that creates nothing becomes, and the collections it takes in. */
  ghost function Moved(p: Primitives, cfg: ValidatorConfig, net: Net, step: Step): (Node, seq<Collection>)
    requires Valid(cfg) && !step.Create? && step.id in net.nodes
  {
    var s := net.nodes[step.id];
    match step
    case SubmitCollection(_, c) => (s.(collections := s.collections + [c]), [c])
    case SubmitAccount(_, a) => (s.(accounts := s.accounts + [a]), [])
    case Deliver(_, b) => (if b in net.sent then AfterReceive(p, s, b) else s, [])
    case Sync(_, chain, now) => (if chain in net.snapshots then AfterReplace(p, cfg, s, chain, now) else s, [])
  }

  lemma MovedIsNext(p: Primitives, cfg: ValidatorConfig, net: Net, step: Step)
    requires Valid(cfg) && !step.Create? && step.id in net.nodes
    ensures Next(p, cfg, net, step).nodes == net.nodes[step.id := Moved(p, cfg, net, step).0]
    ensures Moved(p, cfg, net, step).0.collections == net.nodes[step.id].collections + Moved(p, cfg, net, step).1
    ensures multiset(Moved(p, cfg, net, step).1) == Brings(net.nodes.Keys, step)
  {
    assert net.nodes[step.id := net.nodes[step.id]] == net.nodes;
  }

  lemma OtherStepConserves(p: Primitives, cfg: ValidatorConfig, ids: set<string>, net: Net, all: seq<Block>,
                           step: Step, total: multiset<Collection>)
    requires Valid(cfg) && !step.Create? && net.nodes.Keys == ids && Holds(p, net, ids, all, total)
    ensures Next(p, cfg, net, step).nodes.Keys == ids
    ensures Holds(p, Next(p, cfg, net, step), ids, all, total + Brings(ids, step))
  {
    if step.id in ids {
      var (s, more) := Moved(p, cfg, net, step);
      MovedIsNext(p, cfg, net, step);
      QuietConserves(p, ids, net, all, step.id, s, more, total);
    } else {
      assert total + multiset{} == total;
    }
  }

  lemma {:induction false} StartHoldsNothing(p: Primitives, cfg: ValidatorConfig, ids: set<string>, some: set<string>)
    requires Valid(cfg) && some <= ids && Conservation.RoundTrips(p)
    ensures Queued(Start(p, cfg, ids).nodes, some) == multiset{}
    ensures Conservation.CollectionsIn(p, [Genesis(p, cfg)]) == []
    decreases |some|
  {
    Conservation.CollectionsInAppend(p, [], Genesis(p, cfg));
    assert [] + [Genesis(p, cfg)] == [Genesis(p, cfg)];
    assert Conservation.CollectionsIn(p, []) == [];
    if some == {} {
    } else {
      var id :| id in some;
      QueuedSplit(Start(p, cfg, ids).nodes, some, id);
      StartHoldsNothing(p, cfg, ids, some - {id});
    }
  }

  lemma {:induction false} RunConserves(p: Primitives, cfg: ValidatorConfig, ids: set<string>, steps: seq<Step>)
    returns (all: seq<Block>)
    requires Valid(cfg) && Conservation.RoundTrips(p) && SoleAuthors(cfg, ids)
    ensures Inv(p, cfg, ids, Run(p, cfg, ids, steps), all)
    ensures Holds(p, Run(p, cfg, ids, steps), ids, all, Submitted(ids, steps))
    decreases |steps|
  {
    if steps == [] {
      all := [Genesis(p, cfg)];
      StartHoldsNothing(p, cfg, ids, ids);
    } else {
      var n := |steps| - 1;
      all := RunConserves(p, cfg, ids, steps[..n]);
      all := StepConserves(p, cfg, ids, Run(p, cfg, ids, steps[..n]), all, steps[n], Submitted(ids, steps[..n]));
    }
  }

  /** Some node holds the whole canonical chain. */
  lemma SomeoneHoldsAll(p: Primitives, cfg: ValidatorConfig, ids: set<string>, net: Net, all: seq<Block>)
    returns (id: string)
    requires Valid(cfg) && Inv(p, cfg, ids, net, all) && ids != {}
    ensures id in ids && net.nodes[id].chain == all
  {
    if |all| == 1 {
      id :| id in ids;
    } else {
      assert Staffed(cfg, ids, |all| - 1);
      id :| id in ids && Authorized(cfg, id, |all| - 1);
    }
    assert IsPart(net.nodes[id].chain, all);
  }

  /**
   Over every run of honest nodes with sole authors, synchronisation included, some node's
   chain contains all others, and with the queues of all nodes it holds everything submitted.
   */
  lemma NetworkLosesNothing(p: Primitives, cfg: ValidatorConfig, ids: set<string>, steps: seq<Step>)
    returns (longest: string)
    requires Valid(cfg) && Conservation.RoundTrips(p) && SoleAuthors(cfg, ids) && ids != {}
    ensures var nodes := Run(p, cfg, ids, steps).nodes;
            && nodes.Keys == ids && longest in ids
            && (forall id :: id in ids ==> nodes[id].chain <= nodes[longest].chain)
            && multiset(Conservation.CollectionsIn(p, nodes[longest].chain)) + Queued(nodes, ids) ==
               Submitted(ids, steps)
  {
    var all := RunConserves(p, cfg, ids, steps);
    var net := Run(p, cfg, ids, steps);
    longest := SomeoneHoldsAll(p, cfg, ids, net, all);
    forall id | id in ids
      ensures net.nodes[id].chain <= net.nodes[longest].chain
    {
      assert IsPart(net.nodes[id].chain, all);
    }
  }

  // ----- Exactly when nothing is lost -----

  /** Some node's chain and all queues together hold everything submitted. */
  ghost predicate Conserves(p: Primitives, cfg: ValidatorConfig, ids: set<string>, steps: seq<Step>)
    requires Valid(cfg)
  {
    var nodes := Run(p, cfg, ids, steps).nodes;
    && nodes.Keys == ids
    && exists id :: id in ids && multiset(Conservation.CollectionsIn(p, nodes[id].chain)) + Queued(nodes, ids) ==
                                 Submitted(ids, steps)
  }

  lemma {:induction false} PartHoldsLess(p: Primitives, part: seq<Block>, c: seq<Block>)
    requires part <= c
    ensures Conservation.CollectionsIn(p, part) <= Conservation.CollectionsIn(p, c)
    decreases |c|
  {
    if part == c {
    } else {
      PartHoldsLess(p, part, c[..|c| - 1]);
    }
  }

  lemma {:induction false} NothingQueued(nodes: map<string, Node>, ids: set<string>)
    requires ids <= nodes.Keys && forall id :: id in ids ==> nodes[id].collections == []
    ensures Queued(nodes, ids) == multiset{}
    decreases |ids|
  {
    if ids == {} {
    } else {
      var id :| id in ids;
      QueuedSplit(nodes, ids, id);
      NothingQueued(nodes, ids - {id});
    }
  }

  /** No chain of a split network gains more than two of the three copies. */
  lemma SplitHoldsTooLittle(p: Primitives, cfg: ValidatorConfig, ids: set<string>, net: Net, c: seq<Block>, a: string,
                            b: string, x: Collection, id: string)
    requires Valid(cfg) && c != [] && Forks.Usable(p, x) && id in ids
    requires Forks.Split(net, ids, c, a, Forks.Made(p, cfg, c, [x]), b, Forks.Made(p, cfg, c, [x, x]))
    ensures |Conservation.CollectionsIn(p, net.nodes[id].chain)| <= |Conservation.CollectionsIn(p, c)| + 2
  {
    Forks.MadeHolds(p, cfg, c, [x], x);
    Forks.MadeHolds(p, cfg, c, [x, x], x);
    if id != a && id != b {
      PartHoldsLess(p, net.nodes[id].chain, c);
    }
  }

  lemma ForkLoses(p: Primitives, cfg: ValidatorConfig, ids: set<string>, x: Collection) returns (steps: seq<Step>)
    requires Valid(cfg) && Forks.Usable(p, x) && !SoleAuthors(cfg, ids)
    ensures !Conserves(p, cfg, ids, steps)
  {
    var c, a, b;
    steps, c, a, b := Forks.ForkRun(p, cfg, ids, x);
    var net := Run(p, cfg, ids, steps);
    NothingQueued(net.nodes, ids);
    forall id | id in ids
      ensures multiset(Conservation.CollectionsIn(p, net.nodes[id].chain)) + Queued(net.nodes, ids) !=
              Submitted(ids, steps)
    {
      SplitHoldsTooLittle(p, cfg, ids, net, c, a, b, x, id);
      assert |multiset(Conservation.CollectionsIn(p, net.nodes[id].chain))| < |Submitted(ids, steps)|;
    }
  }

  /** Every run conserves what was submitted if and only if every attainable height has one author. */
  lemma ConservesIffSoleAuthors(p: Primitives, cfg: ValidatorConfig, ids: set<string>, x: Collection)
    requires Valid(cfg) && Forks.Usable(p, x) && ids != {}
    ensures (forall steps :: Conserves(p, cfg, ids, steps)) <==> SoleAuthors(cfg, ids)
  {
    if SoleAuthors(cfg, ids) {
      forall steps
        ensures Conserves(p, cfg, ids, steps)
      {
        var longest := NetworkLosesNothing(p, cfg, ids, steps);
      }
    } else {
      var steps := ForkLoses(p, cfg, ids, x);
    }
  }

  // ----- A block that synchronisation replaces -----

  /** The collection was submitted and is in no chain and no queue. */
  ghost predicate Gone(p: Primitives, cfg: ValidatorConfig, ids: set<string>, steps: seq<Step>, lost: Collection)
    requires Valid(cfg)
  {
    var nodes := Run(p, cfg, ids, steps).nodes;
    && nodes.Keys == ids && lost in Submitted(ids, steps)
    && forall id :: id in ids ==>
                      lost !in Conservation.CollectionsIn(p, nodes[id].chain) && lost !in nodes[id].collections
  }

  /** Synchronising the author of the larger hash with the other's chain replaces its block. */
  lemma LoserIsReplaced(p: Primitives, cfg: ValidatorConfig, s: Node, c: seq<Block>, y: Collection, z: Collection)
    requires Valid(cfg) && Forks.Usable(p, z) && c != [] && IndexIsPosition(c)
    requires ValidChain(p, cfg, c, Forks.RUN_CLOCK) && c[|c| - 1].timestamp == Forks.RUN_CLOCK
    requires s.chain == c + [Forks.Made(p, cfg, c, [y])]
    requires Text.LexLess(Forks.Made(p, cfg, c, [z]).hash, Forks.Made(p, cfg, c, [y]).hash)
    ensures Replace(p, cfg, s, c + [Forks.Made(p, cfg, c, [z])], Forks.RUN_CLOCK) == Replaced
  {
    var ours, theirs := s.chain, c + [Forks.Made(p, cfg, c, [z])];
    Forks.MadeIsValid(p, cfg, c, z);
    Text.LexIrreflexive(ours[|c|].hash);
    assert ours[|c|].hash != theirs[|c|].hash;
    assert c[|c| - 1].index + 1 == |c|;
    assert IndexIsPosition(ours);
    assert Prefers(cfg, ours, theirs);
    if CheckpointForbids(s, theirs) {
      Selection.GuardNeverDecides(cfg, s, theirs);
    }
  }

  /** After the replacement every chain is a part of the winner's. */
  lemma LoserIsGone(p: Primitives, cfg: ValidatorConfig, ids: set<string>, net: Net, c: seq<Block>, loser: string,
                    winner: string, w: Collection, y: Collection, z: Collection, id: string)
    requires Valid(cfg) && Forks.Usable(p, z) && c != [] && id in ids && y != z && y != w
    requires Forks.Split(net, ids, c, loser, Forks.Made(p, cfg, c, [z]), winner, Forks.Made(p, cfg, c, [z]))
    requires forall e :: e in Conservation.CollectionsIn(p, c) ==> e == w
    ensures y !in Conservation.CollectionsIn(p, net.nodes[id].chain) && y !in net.nodes[id].collections
  {
    var held := Conservation.CollectionsIn(p, c);
    Forks.MadeHolds(p, cfg, c, [z], z);
    NotAmong(held, w, y, z);
    if id == loser || id == winner {
      assert Conservation.CollectionsIn(p, net.nodes[id].chain) == held + [z];
    } else {
      PartHoldsLess(p, net.nodes[id].chain, c);
      assert forall e :: e in Conservation.CollectionsIn(p, net.nodes[id].chain) ==> e in held;
    }
  }

  lemma NotAmong(held: seq<Collection>, w: Collection, y: Collection, z: Collection)
    requires y != z && y != w && forall e :: e in held ==> e == w
    ensures y !in held && y !in held + [z]
  {
  }

  /** One author packs `y`, the other `z`. */
  lemma PackBoth(p: Primitives, cfg: ValidatorConfig, ids: set<string>, start: seq<Step>, c: seq<Block>, w: Collection,
                 a: string, b: string, y: Collection, z: Collection)
    returns (steps: seq<Step>)
    requires Valid(cfg) && Forks.Rivals(p, cfg, ids, start, c, w, a, b)
    ensures var net := Run(p, cfg, ids, steps);
            && Forks.Split(net, ids, c, a, Forks.Made(p, cfg, c, [y]), b, Forks.Made(p, cfg, c, [z]))
            && c + [Forks.Made(p, cfg, c, [y])] in net.snapshots && c + [Forks.Made(p, cfg, c, [z])] in net.snapshots
    ensures y in Submitted(ids, steps) && z in Submitted(ids, steps)
  {
    var first := Forks.ThenMakes(start, a, y);
    Forks.FirstPacks(p, cfg, ids, start, c, w, a, b, y);
    steps := Forks.ThenMakes(first, b, z);
    Forks.ThenMakesRun(p, cfg, ids, first, b, z);
    var net, one := Run(p, cfg, ids, start), Run(p, cfg, ids, first);
    assert Forks.Waiting(net.nodes[b], c);
    Forks.AuthorCreates(p, cfg, one, c, b, z);
    Forks.SplitAfter(p, cfg, ids, net, one, Run(p, cfg, ids, steps), c, a, Forks.Made(p, cfg, c, [y]), b,
                     Forks.Made(p, cfg, c, [z]));
    SnapshotsStay(p, cfg, one, SubmitCollection(b, z));
    SnapshotsStay(p, cfg, Next(p, cfg, one, SubmitCollection(b, z)), Create(b, Forks.PLAIN_DRAW));
  }

  lemma SnapshotsStay(p: Primitives, cfg: ValidatorConfig, net: Net, step: Step)
    requires Valid(cfg)
    ensures net.snapshots <= Next(p, cfg, net, step).snapshots
  {
  }

  lemma PackedDiffer(p: Primitives, cfg: ValidatorConfig, c: seq<Block>, y: Collection, z: Collection)
    requires Valid(cfg) && c != [] && Forks.Usable(p, y) && y != z
    ensures Forks.Made(p, cfg, c, [y]) != Forks.Made(p, cfg, c, [z])
  {
    Forks.MadeHolds(p, cfg, c, [y], y);
    Forks.MadeHolds(p, cfg, c, [z], y);
    assert [y][0] != [z][0];
  }

  /** Two nodes' last blocks differ and share their hash. */
  ghost predicate TipsCollide(net: Net, a: string, b: string) {
    && a in net.nodes && b in net.nodes && net.nodes[a].chain != [] && net.nodes[b].chain != []
    && Selection.Tip(net.nodes[a].chain) != Selection.Tip(net.nodes[b].chain)
    && Selection.Tip(net.nodes[a].chain).hash == Selection.Tip(net.nodes[b].chain).hash
  }

  /** The last step is a synchronisation that replaces a chain. */
  ghost predicate EndsInReplacement(p: Primitives, cfg: ValidatorConfig, ids: set<string>, steps: seq<Step>)
    requires Valid(cfg)
  {
    && steps != [] && steps[|steps| - 1].Sync?
    && var net, last := Run(p, cfg, ids, steps[..|steps| - 1]), steps[|steps| - 1];
       && last.id in net.nodes && last.chain in net.snapshots
       && Replace(p, cfg, net.nodes[last.id], last.chain, last.now) == Replaced
  }

  /** Two authors hold blocks with `y` and with `z` on top of a valid chain of copies of `w`. */
  ghost predicate Contest(p: Primitives, cfg: ValidatorConfig, ids: set<string>, steps: seq<Step>, c: seq<Block>,
                          a: string, b: string, w: Collection, y: Collection, z: Collection)
    requires Valid(cfg)
  {
    var net := Run(p, cfg, ids, steps);
    && c != [] && IndexIsPosition(c) && ValidChain(p, cfg, c, Forks.RUN_CLOCK)
    && c[|c| - 1].timestamp == Forks.RUN_CLOCK
    && (forall e :: e in Conservation.CollectionsIn(p, c) ==> e == w)
    && Forks.Split(net, ids, c, a, Forks.Made(p, cfg, c, [y]), b, Forks.Made(p, cfg, c, [z]))
    && c + [Forks.Made(p, cfg, c, [y])] in net.snapshots && c + [Forks.Made(p, cfg, c, [z])] in net.snapshots
    && y in Submitted(ids, steps) && z in Submitted(ids, steps)
  }

  lemma StartContest(p: Primitives, cfg: ValidatorConfig, ids: set<string>, w: Collection, y: Collection, z: Collection)
    returns (steps: seq<Step>, c: seq<Block>, a: string, b: string)
    requires Valid(cfg) && Forks.Usable(p, w) && !SoleAuthors(cfg, ids)
    ensures Contest(p, cfg, ids, steps, c, a, b, w, y, z)
  {
    var start;
    start, c, a, b := Forks.FindRivals(p, cfg, ids, w);
    steps := PackBoth(p, cfg, ids, start, c, w, a, b, y, z);
  }

  lemma TurnedContest(p: Primitives, cfg: ValidatorConfig, ids: set<string>, steps: seq<Step>, c: seq<Block>,
                      a: string, b: string, w: Collection, y: Collection, z: Collection)
    requires Valid(cfg) && Contest(p, cfg, ids, steps, c, a, b, w, y, z)
    ensures Contest(p, cfg, ids, steps, c, b, a, w, z, y)
  {
  }

  lemma EqualHashesCollide(p: Primitives, cfg: ValidatorConfig, ids: set<string>, steps: seq<Step>, c: seq<Block>,
                           a: string, b: string, w: Collection, y: Collection, z: Collection)
    requires Valid(cfg) && Contest(p, cfg, ids, steps, c, a, b, w, y, z) && Forks.Usable(p, y) && y != z
    requires Forks.Made(p, cfg, c, [y]).hash == Forks.Made(p, cfg, c, [z]).hash
    ensures TipsCollide(Run(p, cfg, ids, steps), a, b)
  {
    PackedDiffer(p, cfg, c, y, z);
  }

  lemma LoserJoins(p: Primitives, cfg: ValidatorConfig, ids: set<string>, net: Net, c: seq<Block>, loser: string,
                   one: Block, winner: string, two: Block)
    requires Valid(cfg) && Forks.Split(net, ids, c, loser, one, winner, two) && c + [two] in net.snapshots
    requires Replace(p, cfg, net.nodes[loser], c + [two], Forks.RUN_CLOCK) == Replaced
    ensures Forks.Split(Next(p, cfg, net, Sync(loser, c + [two], Forks.RUN_CLOCK)), ids, c, loser, two, winner, two)
  {
  }

  lemma SyncLoser(p: Primitives, cfg: ValidatorConfig, ids: set<string>, packed: seq<Step>, c: seq<Block>,
                  loser: string,
                  winner: string, w: Collection, y: Collection, z: Collection)
    returns (steps: seq<Step>)
    requires Valid(cfg) && Forks.Usable(p, z) && y != z && y != w
    requires Contest(p, cfg, ids, packed, c, loser, winner, w, y, z)
    requires Text.LexLess(Forks.Made(p, cfg, c, [z]).hash, Forks.Made(p, cfg, c, [y]).hash)
    ensures EndsInReplacement(p, cfg, ids, steps) && Gone(p, cfg, ids, steps, y)
  {
    var theirs := c + [Forks.Made(p, cfg, c, [z])];
    var step := Sync(loser, theirs, Forks.RUN_CLOCK);
    steps := packed + [step];
    assert steps[..|packed|] == packed;
    Forks.RunAppend(p, cfg, ids, packed, step);
    Forks.SubmittedAppend(ids, packed, step);
    LoserIsReplaced(p, cfg, Run(p, cfg, ids, packed).nodes[loser], c, y, z);
    LoserJoins(p, cfg, ids, Run(p, cfg, ids, packed), c, loser, Forks.Made(p, cfg, c, [y]), winner,
               Forks.Made(p, cfg, c, [z]));
    var net := Run(p, cfg, ids, steps);
    forall id | id in ids
      ensures y !in Conservation.CollectionsIn(p, net.nodes[id].chain) && y !in net.nodes[id].collections
    {
      LoserIsGone(p, cfg, ids, net, c, loser, winner, w, y, z, id);
    }
  }

  /**
   Where a height has two authors, a run ends in a synchronisation that replaces a block
   whose collection is then nowhere, unless the two blocks collide under the hash.
   */
  lemma ReplacedBlockIsLost(p: Primitives, cfg: ValidatorConfig, ids: set<string>,
                            w: Collection, y: Collection, z: Collection)
    returns (steps: seq<Step>, a: string, b: string)
    requires Valid(cfg) && Forks.Usable(p, w) && Forks.Usable(p, y) && Forks.Usable(p, z)
    requires w != y && w != z && y != z && !SoleAuthors(cfg, ids)
    ensures || TipsCollide(Run(p, cfg, ids, steps), a, b)
            || (EndsInReplacement(p, cfg, ids, steps) &&
                (Gone(p, cfg, ids, steps, y) || Gone(p, cfg, ids, steps, z)))
  {
    var c;
    steps, c, a, b := StartContest(p, cfg, ids, w, y, z);
    var one, two := Forks.Made(p, cfg, c, [y]).hash, Forks.Made(p, cfg, c, [z]).hash;
    Text.LexTotal(one, two);
    if Text.LexLess(two, one) {
      steps := SyncLoser(p, cfg, ids, steps, c, a, b, w, y, z);
    } else if Text.LexLess(one, two) {
      TurnedContest(p, cfg, ids, steps, c, a, b, w, y, z);
      steps := SyncLoser(p, cfg, ids, steps, c, b, a, w, z, y);
    } else {
      EqualHashesCollide(p, cfg, ids, steps, c, a, b, w, y, z);
    }
  }
}
