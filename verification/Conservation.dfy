/** No submitted collection is lost, duplicated or reordered on its way into blocks. */
module Conservation {
  import opened Wrappers
  import opened Config
  import opened Blocks
  import opened Ledger

  /** Nodes can read back the containers they write. */
  ghost predicate RoundTrips(p: Primitives) {
    forall c: Container :: (p.decode)((p.encode)(c)) == Some(c)
  }

  function CollectionsIn(p: Primitives, chain: seq<Block>): seq<Collection> {
    if chain == [] then []
    else CollectionsIn(p, chain[..|chain| - 1]) + CollectionsOf(p, chain[|chain| - 1])
  }

  lemma CollectionsInAppend(p: Primitives, chain: seq<Block>, b: Block)
    ensures CollectionsIn(p, chain + [b]) == CollectionsIn(p, chain) + CollectionsOf(p, b)
  {
    assert (chain + [b])[..|chain|] == chain;
  }

  /** A created block holds exactly the pending data, in order, and empties the queues. */
  lemma CreateMovesPending(p: Primitives, cfg: ValidatorConfig, id: string, s: Node, d: Draw)
    requires Valid(cfg) && RoundTrips(p) && CreateBlock(p, cfg, id, s, d).Ok?
    ensures var s' := CreateBlock(p, cfg, id, s, d).value;
            && s'.accounts == [] && s'.collections == []
            && |s'.chain| == |s.chain| + 1 && s.chain <= s'.chain
            && (p.decode)(s'.chain[|s.chain|].data) ==
               Some(Container(SealAll(p, s.accounts, d.salt).value, s.collections, s'.chain[|s.chain|].validator))
            && CollectionsIn(p, s'.chain) == CollectionsIn(p, s.chain) + s.collections
  {
    var s' := CreateBlock(p, cfg, id, s, d).value;
    CollectionsInAppend(p, s.chain, s'.chain[|s.chain|]);
  }

  // ----- Runs of one node without chain replacement -----

  datatype Event =
    | SubmitCollection(collection: Collection)
    | SubmitAccount(account: PendingAccount)
    | Create(draw: Draw)
    | Arrive(block: Block)

  function Next(p: Primitives, cfg: ValidatorConfig, id: string, s: Node, e: Event): Node
    requires Valid(cfg)
  {
    match e
    case SubmitCollection(c) => s.(collections := s.collections + [c])
    case SubmitAccount(a) => s.(accounts := s.accounts + [a])
    case Create(d) =>
      (match CreateBlock(p, cfg, id, s, d)
       case Err(_) => s
       case Ok(s') => s')
    case Arrive(b) => AfterReceive(p, s, b)
  }

  function Run(p: Primitives, cfg: ValidatorConfig, id: string, events: seq<Event>): Node
    requires Valid(cfg)
  {
    if events == [] then InitialNode(p, cfg)
    else Next(p, cfg, id, Run(p, cfg, id, events[..|events| - 1]), events[|events| - 1])
  }

  /** Everything submitted to this node, in order. */
  function Submitted(events: seq<Event>): seq<Collection> {
    if events == [] then []
    else
      var last := events[|events| - 1];
      Submitted(events[..|events| - 1]) + if last.SubmitCollection? then [last.collection] else []
  }

  /** Everything that came in with the peers' blocks this node appended, in order. */
  function Received(p: Primitives, cfg: ValidatorConfig, id: string, events: seq<Event>): seq<Collection>
    requires Valid(cfg)
  {
    if events == [] then []
    else
      var n := |events| - 1;
      Received(p, cfg, id, events[..n]) +
      if events[n].Arrive? && Receive(p, Run(p, cfg, id, events[..n]).chain, events[n].block) == Appended then
        CollectionsOf(p, events[n].block)
      else []
  }

  function Held(p: Primitives, s: Node): multiset<Collection> {
    multiset(CollectionsIn(p, s.chain)) + multiset(s.collections)
  }

  /** One event adds to what the node holds exactly what it brings. */
  lemma NextHolds(p: Primitives, cfg: ValidatorConfig, id: string, s: Node, e: Event)
    requires Valid(cfg) && RoundTrips(p)
    ensures Held(p, Next(p, cfg, id, s, e)) ==
            Held(p, s) +
            (match e
             case SubmitCollection(c) => multiset{c}
             case SubmitAccount(_) => multiset{}
             case Create(_) => multiset{}
             case Arrive(b) =>
               if Receive(p, s.chain, b) == Appended then multiset(CollectionsOf(p, b)) else multiset{})
  {
    match e {
      case SubmitCollection(c) =>
      case SubmitAccount(_) =>
      case Create(d) =>
        if CreateBlock(p, cfg, id, s, d).Ok? {
          CreateMovesPending(p, cfg, id, s, d);
        }
      case Arrive(b) => CollectionsInAppend(p, s.chain, b);
    }
  }

  /** In every run, chain and queue together hold what was submitted and received. */
  lemma {:induction false} NothingLost(p: Primitives, cfg: ValidatorConfig, id: string, events: seq<Event>)
    requires Valid(cfg) && RoundTrips(p)
    ensures Held(p, Run(p, cfg, id, events)) ==
            multiset(Submitted(events)) + multiset(Received(p, cfg, id, events))
  {
    if events == [] {
      assert [Genesis(p, cfg)][..0] == [];
      assert CollectionsOf(p, Genesis(p, cfg)) == [];
      assert CollectionsIn(p, []) == [];
    } else {
      var n := |events| - 1;
      NothingLost(p, cfg, id, events[..n]);
      NextHolds(p, cfg, id, Run(p, cfg, id, events[..n]), events[n]);
    }
  }

  /** Without received blocks the collections appear in exactly the order of submission. */
  lemma {:induction false} FirstInFirstOut(p: Primitives, cfg: ValidatorConfig, id: string, events: seq<Event>)
    requires Valid(cfg) && RoundTrips(p)
    requires forall i :: 0 <= i < |events| ==> !events[i].Arrive?
    ensures var s := Run(p, cfg, id, events);
            CollectionsIn(p, s.chain) + s.collections == Submitted(events)
  {
    if events == [] {
      assert [Genesis(p, cfg)][..0] == [];
      assert CollectionsOf(p, Genesis(p, cfg)) == [];
      assert CollectionsIn(p, []) == [];
    } else {
      var n := |events| - 1;
      FirstInFirstOut(p, cfg, id, events[..n]);
      InOrderStep(p, cfg, id, Run(p, cfg, id, events[..n]), events[n], Submitted(events[..n]));
    }
  }

  lemma InOrderStep(p: Primitives, cfg: ValidatorConfig, id: string, s: Node, e: Event, before: seq<Collection>)
    requires Valid(cfg) && RoundTrips(p) && !e.Arrive?
    requires CollectionsIn(p, s.chain) + s.collections == before
    ensures var s' := Next(p, cfg, id, s, e);
            CollectionsIn(p, s'.chain) + s'.collections ==
            before + if e.SubmitCollection? then [e.collection] else []
  {
    if e.Create? && CreateBlock(p, cfg, id, s, e.draw).Ok? {
      CreateMovesPending(p, cfg, id, s, e.draw);
    }
  }

  /** The blocks this node created, in order. */
  function OwnBlocks(p: Primitives, cfg: ValidatorConfig, id: string, events: seq<Event>): seq<Block>
    requires Valid(cfg)
  {
    if events == [] then []
    else
      var n := |events| - 1;
      OwnBlocks(p, cfg, id, events[..n]) + Created(p, cfg, id, Run(p, cfg, id, events[..n]), events[n])
  }

  /** The block that an event creates, if any. */
  function Created(p: Primitives, cfg: ValidatorConfig, id: string, s: Node, e: Event): seq<Block>
    requires Valid(cfg)
  {
    if e.Create? then
      match CreateBlock(p, cfg, id, s, e.draw)
      case Err(_) => []
      case Ok(s') => [s'.chain[|s'.chain| - 1]]
    else []
  }

  lemma OwnStep(p: Primitives, cfg: ValidatorConfig, id: string, s: Node, e: Event, own: seq<Block>,
                before: seq<Collection>)
    requires Valid(cfg) && RoundTrips(p) && CollectionsIn(p, own) + s.collections == before
    ensures CollectionsIn(p, own + Created(p, cfg, id, s, e)) + Next(p, cfg, id, s, e).collections ==
            before + if e.SubmitCollection? then [e.collection] else []
  {
    assert own + [] == own;
    if e.Create? && CreateBlock(p, cfg, id, s, e.draw).Ok? {
      var s' := CreateBlock(p, cfg, id, s, e.draw).value;
      CreateMovesPending(p, cfg, id, s, e.draw);
      CollectionsInAppend(p, own, s'.chain[|s.chain|]);
    }
  }

  /** Received blocks or not: the own blocks and then the queue hold the submissions in order. */
  lemma {:induction false} OwnInOrder(p: Primitives, cfg: ValidatorConfig, id: string, events: seq<Event>)
    requires Valid(cfg) && RoundTrips(p)
    ensures CollectionsIn(p, OwnBlocks(p, cfg, id, events)) + Run(p, cfg, id, events).collections == Submitted(events)
    ensures forall b :: b in OwnBlocks(p, cfg, id, events) ==> b in Run(p, cfg, id, events).chain
    decreases |events|
  {
    if events == [] {
      assert CollectionsIn(p, []) == [];
    } else {
      var n := |events| - 1;
      OwnInOrder(p, cfg, id, events[..n]);
      OwnStep(p, cfg, id, Run(p, cfg, id, events[..n]), events[n], OwnBlocks(p, cfg, id, events[..n]),
              Submitted(events[..n]));
      ChainKeeps(p, cfg, id, Run(p, cfg, id, events[..n]), events[n]);
    }
  }

  lemma ChainKeeps(p: Primitives, cfg: ValidatorConfig, id: string, s: Node, e: Event)
    requires Valid(cfg)
    ensures s.chain <= Next(p, cfg, id, s, e).chain
    ensures forall b :: b in Created(p, cfg, id, s, e) ==> b in Next(p, cfg, id, s, e).chain
  {
  }

  // ----- Chain replacement -----

  /** A replacement puts the peer's collections in the place of the chain's; the queue stays. */
  lemma ReplacementSwapsCollections(p: Primitives, cfg: ValidatorConfig, s: Node, theirs: seq<Block>, now: int)
    requires Valid(cfg)
    ensures Held(p, AfterReplace(p, cfg, s, theirs, now)) ==
            if Replace(p, cfg, s, theirs, now) == Replaced
            then multiset(CollectionsIn(p, theirs)) + multiset(s.collections)
            else Held(p, s)
  {
  }
}
