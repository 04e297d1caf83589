/**
 A running node and its store. Own and received blocks are saved as they come; a
 chain taken over from a peer is not. The theorems say exactly when a restart
 would reload the chain in memory, the checkpoints of that chain, and the list of
 checkpoints in memory, which received blocks never enter.
 */
module Reload {
  import opened Wrappers
  import opened Config
  import opened Blocks
  import opened Ledger
  import opened Persistence
  import opened Selection

  datatype Event =
    | Own(draw: Draw, byRoute: bool)         // by a route, which also saves checkpoints, or by an audit flush
    | Received(block: Block)                 // a peer's block arrives
    | Synced(theirs: seq<Block>, now: int)   // a peer's chain is offered

  datatype Running = Running(node: Node, store: Store)

  ghost function Next(p: Primitives, cfg: ValidatorConfig, id: string, r: Running, e: Event): Running
    requires Valid(cfg)
  {
    match e
    case Received(b) =>
      if Receive(p, r.node.chain, b) == Appended then
        Running(AfterReceive(p, r.node, b), Persist(r.store, b, true))
      else r
    case Own(draw, byRoute) =>
      if !byRoute && !Authorized(cfg, id, |r.node.chain| + 1) then r  // the guard of the flush
      else
        (match CreateBlock(p, cfg, id, r.node, draw)
         case Err(_) => r
         case Ok(node) => Running(node, Persist(r.store, node.chain[|node.chain| - 1], byRoute)))
    case Synced(theirs, now) => r.(node := AfterReplace(p, cfg, r.node, theirs, now))
  }

  /** Submissions between events may leave any pending data. */
  function Submit(r: Running, accounts: seq<PendingAccount>, collections: seq<Collection>): Running {
    r.(node := r.node.(accounts := accounts, collections := collections))
  }

  datatype Stage = Stage(accounts: seq<PendingAccount>, collections: seq<Collection>, event: Event)

  /** A node that starts on an empty store. */
  function FirstStart(p: Primitives, cfg: ValidatorConfig, id: string): (r: Running)
    requires Valid(cfg)
    ensures Start(EMPTY_STORE, p, cfg, id) == (r.store, Ok(r.node))
  {
    Running(InitialNode(p, cfg),
            SaveBlock(EMPTY_STORE, Genesis(p, cfg)).(nodeId := Some(id), schema := Some(SCHEMA_VERSION)))
  }

  /** The node once the submissions before the last event are in. */
  ghost function BeforeLast(p: Primitives, cfg: ValidatorConfig, id: string, stages: seq<Stage>): Running
    requires Valid(cfg) && stages != []
    decreases |stages|, 0
  {
    var last := stages[|stages| - 1];
    Submit(Run(p, cfg, id, stages[..|stages| - 1]), last.accounts, last.collections)
  }

  ghost function Run(p: Primitives, cfg: ValidatorConfig, id: string, stages: seq<Stage>): Running
    requires Valid(cfg)
    decreases |stages|, 1
  {
    if stages == [] then FirstStart(p, cfg, id)
    else Next(p, cfg, id, BeforeLast(p, cfg, id, stages), stages[|stages| - 1].event)
  }

  ghost predicate Replaces(p: Primitives, cfg: ValidatorConfig, r: Running, e: Event)
    requires Valid(cfg)
  {
    e.Synced? && Replace(p, cfg, r.node, e.theirs, e.now) == Replaced
  }

  /** Some event of the run replaced the chain. */
  ghost predicate EverReplaced(p: Primitives, cfg: ValidatorConfig, id: string, stages: seq<Stage>)
    requires Valid(cfg)
    decreases |stages|
  {
    stages != [] &&
    (EverReplaced(p, cfg, id, stages[..|stages| - 1]) ||
     Replaces(p, cfg, BeforeLast(p, cfg, id, stages), stages[|stages| - 1].event))
  }

  /** Every chain the node held or was offered. */
  ghost function Chains(p: Primitives, cfg: ValidatorConfig, id: string, stages: seq<Stage>): set<seq<Block>>
    requires Valid(cfg)
    decreases |stages|
  {
    if stages == [] then {[Genesis(p, cfg)]}
    else
      var e := stages[|stages| - 1].event;
      Chains(p, cfg, id, stages[..|stages| - 1]) + {Run(p, cfg, id, stages).node.chain} +
      if e.Synced? then {e.theirs} else {}
  }

  // ----- One event -----

  ghost predicate Linked(chain: seq<Block>) {
    forall i :: 1 <= i < |chain| ==> chain[i].previousHash == chain[i - 1].hash
  }

  lemma ValidIsLinked(p: Primitives, cfg: ValidatorConfig, chain: seq<Block>, now: int)
    requires Valid(cfg) && ValidChain(p, cfg, chain, now)
    ensures Linked(chain)
  {
    forall i | 1 <= i < |chain|
      ensures chain[i].previousHash == chain[i - 1].hash
    {
      assert FaultAt(p, cfg, chain, i, now).None?;
    }
  }

  /** The block fits on top of the chain. */
  ghost predicate Fits(chain: seq<Block>, b: Block) {
    chain != [] && b.index == |chain| && b.previousHash == chain[|chain| - 1].hash
  }

  /** An own or received block changes nothing or is appended and saved. */
  ghost predicate Extends(r: Running, r': Running, b: Block, withCheckpoint: bool) {
    && Fits(r.node.chain, b)
    && r'.node.chain == r.node.chain + [b]
    && r'.store == Persist(r.store, b, withCheckpoint)
  }

  lemma EventExtends(p: Primitives, cfg: ValidatorConfig, id: string, r: Running, e: Event)
    returns (b: Block, withCheckpoint: bool)
    requires Valid(cfg) && !e.Synced? && r.node.chain != [] && IndexIsPosition(r.node.chain)
    ensures Next(p, cfg, id, r, e) == r || Extends(r, Next(p, cfg, id, r, e), b, withCheckpoint)
    ensures |Next(p, cfg, id, r, e).node.chain| > |r.node.chain| ==>
              Extends(r, Next(p, cfg, id, r, e), b, withCheckpoint)
  {
    var r' := Next(p, cfg, id, r, e);
    b, withCheckpoint := r'.node.chain[|r'.node.chain| - 1], e.Own? ==> e.byRoute;
    assert r.node.chain[|r.node.chain| - 1].index + 1 == |r.node.chain|;
  }

  /** What holds of every running node, in step or not. */
  ghost predicate Sane(genesis: Block, r: Running) {
    && WellFormed(genesis, r.node.chain) && Linked(r.node.chain)
    && r.store.length.Some? && r.store.schema == Some(SCHEMA_VERSION)
    && r.store.length.value <= |r.node.chain|
    && forall i :: i in r.store.blocks ==> i < r.store.length.value
  }

  /** A restart would reload exactly the chain in memory. */
  ghost predicate InStep(r: Running) {
    LoadChain(r.store) == Ok(r.node.chain)
  }

  lemma ExtendsStaysSane(genesis: Block, r: Running, r': Running, b: Block, withCheckpoint: bool)
    requires Sane(genesis, r) && Extends(r, r', b, withCheckpoint)
    ensures Sane(genesis, r')
  {
  }

  lemma ExtendsStaysInStep(r: Running, r': Running, b: Block, withCheckpoint: bool)
    requires InStep(r) && Extends(r, r', b, withCheckpoint)
    ensures InStep(r')
  {
    SaveTruncates(r.store, r.node.chain, b);
    assert r.node.chain[..|r.node.chain|] == r.node.chain;
  }

  // ----- Out of step -----

  /** The store holds an earlier, shorter chain. */
  ghost predicate Behind(r: Running) {
    LoadChain(r.store).Ok? && r.store.length.Some? && r.store.length.value < |r.node.chain|
  }

  /** The store holds an equally long chain that was given up for a better one. */
  ghost predicate Stale(cfg: ValidatorConfig, chains: set<seq<Block>>, r: Running, stored: seq<Block>)
    requires Valid(cfg)
  {
    && LoadChain(r.store) == Ok(stored) && stored in chains && stored != [] && r.node.chain != []
    && |stored| == |r.node.chain| && Outranks(cfg, r.node.chain, stored)
  }

  /** A block below the stored length is missing. */
  ghost predicate Gapped(r: Running, k: nat) {
    r.store.length.Some? && k < r.store.length.value && k !in r.store.blocks
  }

  /** Two stored neighbours are not linked. */
  ghost predicate Torn(r: Running, k: nat) {
    && r.store.length.Some? && 1 <= k < r.store.length.value
    && k - 1 in r.store.blocks && k in r.store.blocks
    && r.store.blocks[k].previousHash != r.store.blocks[k - 1].hash
  }

  ghost predicate OutOfStep(cfg: ValidatorConfig, chains: set<seq<Block>>, r: Running)
    requires Valid(cfg)
  {
    || Behind(r)
    || (exists stored :: Stale(cfg, chains, r, stored))
    || (exists k :: Gapped(r, k))
    || (exists k :: Torn(r, k))
  }

  lemma OutOfStepIsNotInStep(cfg: ValidatorConfig, genesis: Block, chains: set<seq<Block>>, r: Running)
    requires Valid(cfg) && Sane(genesis, r) && OutOfStep(cfg, chains, r)
    ensures !InStep(r)
  {
    if InStep(r) {
      assert forall k :: 0 <= k < |r.node.chain| ==> k in r.store.blocks && r.store.blocks[k] == r.node.chain[k];
      if stored :| Stale(cfg, chains, r, stored) {
        TiedIff(cfg, stored, stored);
      }
    }
  }

  /** A block saved on top of an equally long other chain is not linked to it. */
  lemma StaleTears(cfg: ValidatorConfig, genesis: Block, chains: set<seq<Block>>, r: Running, stored: seq<Block>,
                   r': Running, b: Block, withCheckpoint: bool)
    requires Valid(cfg) && Kin(cfg, genesis, chains) && r.node.chain in chains && Stale(cfg, chains, r, stored)
    requires Extends(r, r', b, withCheckpoint)
    ensures Torn(r', |stored|)
  {
    TiedIff(cfg, r.node.chain, stored);
    assert |stored| - 1 in r.store.blocks && r.store.blocks[|stored| - 1] == stored[|stored| - 1];
  }

  lemma ExtendsStaysOutOfStep(cfg: ValidatorConfig, genesis: Block, chains: set<seq<Block>>, r: Running,
                              r': Running, b: Block, withCheckpoint: bool)
    requires Valid(cfg) && Kin(cfg, genesis, chains) && r.node.chain in chains
    requires Sane(genesis, r) && OutOfStep(cfg, chains, r) && Extends(r, r', b, withCheckpoint)
    ensures OutOfStep(cfg, chains, r')
  {
    if Behind(r) {
      assert Gapped(r', r.store.length.value);
    } else if stored :| Stale(cfg, chains, r, stored) {
      StaleTears(cfg, genesis, chains, r, stored, r', b, withCheckpoint);
    } else if k :| Gapped(r, k) {
      assert Gapped(r', k);
    } else {
      var k :| Torn(r, k);
      assert Torn(r', k);
    }
  }

  lemma ReplacementLeavesStep(p: Primitives, cfg: ValidatorConfig, genesis: Block, chains: set<seq<Block>>, r: Running,
                              theirs: seq<Block>, now: int)
    requires Valid(cfg) && Kin(cfg, genesis, chains) && r.node.chain in chains && theirs in chains
    requires Sane(genesis, r) && (InStep(r) || OutOfStep(cfg, chains, r))
    requires Replace(p, cfg, r.node, theirs, now) == Replaced
    ensures var r' := r.(node := AfterReplace(p, cfg, r.node, theirs, now));
            Sane(genesis, r') && OutOfStep(cfg, chains, r')
  {
    var r' := r.(node := AfterReplace(p, cfg, r.node, theirs, now));
    OfferTakesBetter(p, cfg, genesis, chains, r.node, theirs, now);
    ValidIsLinked(p, cfg, theirs, now);
    if k :| Gapped(r, k) {
      assert Gapped(r', k);
    } else if k :| Torn(r, k) {
      assert Torn(r', k);
    } else if |theirs| > r.store.length.value {
      assert Behind(r');
    } else if InStep(r) {
      assert Stale(cfg, chains, r', r.node.chain);
    } else {
      var stored :| Stale(cfg, chains, r, stored);
      OutranksTransitive(cfg, theirs, r.node.chain, stored);
      assert Stale(cfg, chains, r', stored);
    }
  }

  // ----- Whole runs -----

  lemma FirstStartInStep(p: Primitives, cfg: ValidatorConfig, id: string)
    requires Valid(cfg)
    ensures Sane(Genesis(p, cfg), FirstStart(p, cfg, id)) && InStep(FirstStart(p, cfg, id))
  {
    OneBlockInStep(FirstStart(p, cfg, id), Genesis(p, cfg));
  }

  /** A store that holds one block at index 0 is in step with the chain of that block. */
  lemma OneBlockInStep(r: Running, b: Block)
    requires b.index == 0 && r.node.chain == [b]
    requires r.store.blocks == map[0 := b] && r.store.length == Some(1) && r.store.schema == Some(SCHEMA_VERSION)
    ensures Sane(b, r) && InStep(r)
  {
    var blocks := r.store.blocks;
    assert 0 in blocks && blocks[0] == b;
    assert LoadFirst(blocks, 0) == Ok([]);
    assert [] + [b] == [b];
    assert LoadFirst(blocks, 1) == Ok([b]);
    assert Linked([b]);
  }

  ghost predicate OffersWellFormed(genesis: Block, stages: seq<Stage>) {
    forall i :: 0 <= i < |stages| && stages[i].event.Synced? ==> WellFormed(genesis, stages[i].event.theirs)
  }

  /** Equally long chains with one last hash name equally proper validators. */
  ghost predicate HashesTellValidators(cfg: ValidatorConfig, chains: set<seq<Block>>)
    requires Valid(cfg)
  {
    forall a, b :: a in chains && b in chains && a != [] && b != [] && |a| == |b| && Tip(a).hash == Tip(b).hash ==>
                     (Proper(cfg, a) <==> Proper(cfg, b))
  }

  lemma NextIsSane(p: Primitives, cfg: ValidatorConfig, id: string, genesis: Block, r: Running, e: Event)
    requires Valid(cfg) && Sane(genesis, r) && (e.Synced? ==> WellFormed(genesis, e.theirs))
    ensures Sane(genesis, Next(p, cfg, id, r, e))
  {
    if e.Synced? {
      if Replaces(p, cfg, r, e) {
        ValidIsLinked(p, cfg, e.theirs, e.now);
      }
    } else {
      var b, withCheckpoint := EventExtends(p, cfg, id, r, e);
      if Next(p, cfg, id, r, e) != r {
        ExtendsStaysSane(genesis, r, Next(p, cfg, id, r, e), b, withCheckpoint);
      }
    }
  }

  lemma {:induction false} RunIsSane(p: Primitives, cfg: ValidatorConfig, id: string, stages: seq<Stage>)
    requires Valid(cfg) && OffersWellFormed(Genesis(p, cfg), stages)
    ensures Sane(Genesis(p, cfg), Run(p, cfg, id, stages))
    ensures forall c :: c in Chains(p, cfg, id, stages) ==> WellFormed(Genesis(p, cfg), c)
  {
    if stages == [] {
      FirstStartInStep(p, cfg, id);
    } else {
      var n := |stages| - 1;
      RunIsSane(p, cfg, id, stages[..n]);
      NextIsSane(p, cfg, id, Genesis(p, cfg), BeforeLast(p, cfg, id, stages), stages[n].event);
    }
  }

  lemma NextTellsStep(p: Primitives, cfg: ValidatorConfig, id: string, genesis: Block, chains: set<seq<Block>>,
                      r: Running, e: Event, replaced: bool)
    requires Valid(cfg) && Kin(cfg, genesis, chains) && r.node.chain in chains && (e.Synced? ==> e.theirs in chains)
    requires Sane(genesis, r) && (if replaced then OutOfStep(cfg, chains, r) else InStep(r))
    ensures var r' := Next(p, cfg, id, r, e);
            if replaced || Replaces(p, cfg, r, e) then OutOfStep(cfg, chains, r') else InStep(r')
  {
    if e.Synced? {
      if Replaces(p, cfg, r, e) {
        ReplacementLeavesStep(p, cfg, genesis, chains, r, e.theirs, e.now);
      } else {
        assert Next(p, cfg, id, r, e) == r;
      }
    } else {
      var b, withCheckpoint := EventExtends(p, cfg, id, r, e);
      var r' := Next(p, cfg, id, r, e);
      if r' != r {
        if replaced {
          ExtendsStaysOutOfStep(cfg, genesis, chains, r, r', b, withCheckpoint);
        } else {
          ExtendsStaysInStep(r, r', b, withCheckpoint);
        }
      }
    }
  }

  /** Submissions do not touch chain or store. */
  lemma SubmitTellsStep(cfg: ValidatorConfig, chains: set<seq<Block>>, r: Running,
                        accounts: seq<PendingAccount>, collections: seq<Collection>)
    requires Valid(cfg)
    ensures OutOfStep(cfg, chains, r) ==> OutOfStep(cfg, chains, Submit(r, accounts, collections))
  {
    var r' := Submit(r, accounts, collections);
    if stored :| Stale(cfg, chains, r, stored) {
      assert Stale(cfg, chains, r', stored);
    }
    if k :| Gapped(r, k) {
      assert Gapped(r', k);
    }
    if k :| Torn(r, k) {
      assert Torn(r', k);
    }
  }

  lemma {:induction false} RunTellsStep(p: Primitives, cfg: ValidatorConfig, id: string, stages: seq<Stage>,
                                        chains: set<seq<Block>>)
    requires Valid(cfg) && OffersWellFormed(Genesis(p, cfg), stages)
    requires Kin(cfg, Genesis(p, cfg), chains) && Chains(p, cfg, id, stages) <= chains
    ensures var r := Run(p, cfg, id, stages);
            r.node.chain in chains &&
            if EverReplaced(p, cfg, id, stages) then OutOfStep(cfg, chains, r) else InStep(r)
    decreases |stages|
  {
    if stages == [] {
      FirstStartInStep(p, cfg, id);
    } else {
      var n := |stages| - 1;
      var before, r := Run(p, cfg, id, stages[..n]), BeforeLast(p, cfg, id, stages);
      RunTellsStep(p, cfg, id, stages[..n], chains);
      RunIsSane(p, cfg, id, stages[..n]);
      SubmitTellsStep(cfg, chains, before, stages[n].accounts, stages[n].collections);
      NextTellsStep(p, cfg, id, Genesis(p, cfg), chains, r, stages[n].event,
                    EverReplaced(p, cfg, id, stages[..n]));
    }
  }

  /** A restart reloads the chain in memory if and only if no chain was ever taken over. */
  lemma ReloadYieldsChainIff(p: Primitives, cfg: ValidatorConfig, id: string, stages: seq<Stage>)
    requires Valid(cfg) && OffersWellFormed(Genesis(p, cfg), stages)
    requires HashesTellValidators(cfg, Chains(p, cfg, id, stages))
    ensures InStep(Run(p, cfg, id, stages)) <==> !EverReplaced(p, cfg, id, stages)
  {
    var genesis, chains := Genesis(p, cfg), Chains(p, cfg, id, stages);
    RunIsSane(p, cfg, id, stages);
    RunTellsStep(p, cfg, id, stages, chains);
    if EverReplaced(p, cfg, id, stages) {
      OutOfStepIsNotInStep(cfg, genesis, chains, Run(p, cfg, id, stages));
    }
  }

  // ----- What a restart finds after a replacement -----

  /** The node once a peer's chain replaced its own and another block was appended. */
  ghost predicate ReplacedThenExtended(p: Primitives, cfg: ValidatorConfig, id: string, r: Running,
                                       theirs: seq<Block>, now: int, next: Stage, r': Running)
    requires Valid(cfg)
  {
    && Replaces(p, cfg, r, Synced(theirs, now)) && !next.event.Synced?
    && r' == Next(p, cfg, id, Submit(Next(p, cfg, id, r, Synced(theirs, now)), next.accounts, next.collections),
                  next.event)
    && |r'.node.chain| == |theirs| + 1
  }

  /** After a longer chain the store cannot be loaded at all. */
  lemma LongerReplacementLeavesGap(p: Primitives, cfg: ValidatorConfig, id: string, r: Running,
                                   theirs: seq<Block>, now: int, next: Stage, r': Running)
    requires Valid(cfg) && Sane(Genesis(p, cfg), r) && InStep(r) && IndexIsPosition(theirs)
    requires ReplacedThenExtended(p, cfg, id, r, theirs, now, next, r') && |theirs| > |r.node.chain|
    ensures LoadChain(r'.store) == Err(|r.node.chain|)
  {
    var r1 := Submit(Next(p, cfg, id, r, Synced(theirs, now)), next.accounts, next.collections);
    var b, withCheckpoint := EventExtends(p, cfg, id, r1, next.event);
    SaveBeyondLengthLeavesGap(r.store, r.node.chain, b);
  }

  /** After an equally long chain the store loads the old chain with the new block: a wrong chain, silently. */
  lemma EqualReplacementReloadsOldChain(p: Primitives, cfg: ValidatorConfig, id: string, r: Running,
                                        theirs: seq<Block>, now: int, next: Stage, r': Running)
    requires Valid(cfg) && Sane(Genesis(p, cfg), r) && InStep(r) && IndexIsPosition(theirs)
    requires ReplacedThenExtended(p, cfg, id, r, theirs, now, next, r') && |theirs| == |r.node.chain|
    ensures LoadChain(r'.store) == Ok(r.node.chain + [r'.node.chain[|theirs|]]) && !InStep(r')
  {
    var r1 := Submit(Next(p, cfg, id, r, Synced(theirs, now)), next.accounts, next.collections);
    var b, withCheckpoint := EventExtends(p, cfg, id, r1, next.event);
    SavedOnTop(r.store, r.node.chain, b);
    PreferredDiffers(cfg, r.node.chain, theirs, b);
  }

  /** A block saved at the stored length is loaded on top of the stored chain. */
  lemma SavedOnTop(store: Store, chain: seq<Block>, b: Block)
    requires LoadChain(store) == Ok(chain) && b.index == |chain|
    ensures LoadChain(SaveBlock(store, b)) == Ok(chain + [b])
  {
    SaveTruncates(store, chain, b);
    assert chain[..|chain|] == chain;
  }

  /** An equally long chain that is preferred differs in some hash, and so do the chains with one more block. */
  lemma PreferredDiffers(cfg: ValidatorConfig, ours: seq<Block>, theirs: seq<Block>, b: Block)
    requires Valid(cfg) && |ours| == |theirs| && Prefers(cfg, ours, theirs)
    ensures ours + [b] != theirs + [b]
  {
    assert !SameHashes(ours, theirs);
    var i :| 0 <= i < |theirs| && ours[i].hash != theirs[i].hash;
    assert (ours + [b])[i] != (theirs + [b])[i];
  }

  // ----- Checkpoints -----

  /** The hashes of the blocks at `index`, `index + 100`, ... of the chain. */
  function CheckpointHashes(chain: seq<Block>, index: nat): seq<string>
    decreases |chain| - index
  {
    if index < |chain| then [chain[index].hash] + CheckpointHashes(chain, index + CHECKPOINT_INTERVAL) else []
  }

  /** The checkpoints of a chain: hash `j` is that of the block at `index + 100 * j`. */
  lemma {:induction false} CheckpointHashesByPosition(chain: seq<Block>, index: nat, j: nat)
    ensures var hashes := CheckpointHashes(chain, index);
            && (j < |hashes| <==> index + 100 * j < |chain|)
            && (j < |hashes| ==> hashes[j] == chain[index + 100 * j].hash)
    decreases j
  {
    if index < |chain| {
      var hashes, rest := CheckpointHashes(chain, index), CheckpointHashes(chain, index + 100);
      assert hashes == [chain[index].hash] + rest;
      if j > 0 {
        CheckpointHashesByPosition(chain, index + 100, j - 1);
      }
    }
  }

  /** The event makes an own block. */
  ghost predicate Makes(p: Primitives, cfg: ValidatorConfig, id: string, r: Running, e: Event)
    requires Valid(cfg)
  {
    && e.Own? && (e.byRoute || Authorized(cfg, id, |r.node.chain| + 1))
    && CreateBlock(p, cfg, id, r.node, e.draw).Ok?
  }

  /** The event makes an own block at a multiple of 100 without saving its checkpoint. */
  ghost predicate SkipsCheckpoint(p: Primitives, cfg: ValidatorConfig, id: string, r: Running, e: Event)
    requires Valid(cfg)
  {
    Makes(p, cfg, id, r, e) && !e.byRoute && |r.node.chain| % CHECKPOINT_INTERVAL == 0
  }

  /** The heights of the blocks that audit flushes made at multiples of 100. */
  ghost function Unsaved(p: Primitives, cfg: ValidatorConfig, id: string, stages: seq<Stage>): set<nat>
    requires Valid(cfg)
    decreases |stages|
  {
    if stages == [] then {}
    else
      var r := BeforeLast(p, cfg, id, stages);
      Unsaved(p, cfg, id, stages[..|stages| - 1]) +
      if SkipsCheckpoint(p, cfg, id, r, stages[|stages| - 1].event) then {|r.node.chain|} else {}
  }

  /** The stored checkpoints are those of the chain, except the unsaved ones. */
  ghost predicate CheckpointsBut(r: Running, unsaved: set<nat>) {
    && (forall k :: k in r.store.checkpoints ==>
                      k < |r.node.chain| && r.store.checkpoints[k] == r.node.chain[k].hash)
    && (forall k :: 1 <= k < |r.node.chain| && k % CHECKPOINT_INTERVAL == 0 ==>
                      (k in r.store.checkpoints <==> k !in unsaved))
    && (forall k :: k in unsaved ==> 1 <= k < |r.node.chain| && k % CHECKPOINT_INTERVAL == 0)
  }

  /** A reload finds a prefix of the chain's checkpoints, all of them when none is unsaved. */
  lemma {:induction false} CheckpointsMatchIff(r: Running, unsaved: set<nat>, index: nat)
    requires CheckpointsBut(r, unsaved) && 1 <= index && index % CHECKPOINT_INTERVAL == 0
    ensures |CheckpointsFrom(r.store.checkpoints, index)| <= |CheckpointHashes(r.node.chain, index)|
    ensures CheckpointsFrom(r.store.checkpoints, index) == CheckpointHashes(r.node.chain, index) <==>
            forall k :: k in unsaved ==> k < index
    decreases |r.node.chain| - index
  {
    if index < |r.node.chain| {
      CheckpointsMatchIff(r, unsaved, index + CHECKPOINT_INTERVAL);
      var found := CheckpointsFrom(r.store.checkpoints, index);
      if index in r.store.checkpoints {
        assert found[1..] == CheckpointsFrom(r.store.checkpoints, index + CHECKPOINT_INTERVAL);
        assert CheckpointHashes(r.node.chain, index)[1..] ==
               CheckpointHashes(r.node.chain, index + CHECKPOINT_INTERVAL);
        NoneBetween(unsaved, index);
      } else {
        assert found == [];
      }
    }
  }

  lemma NoneBetween(unsaved: set<nat>, index: nat)
    requires index !in unsaved && index % CHECKPOINT_INTERVAL == 0
    requires forall k :: k in unsaved ==> k % CHECKPOINT_INTERVAL == 0
    ensures (forall k :: k in unsaved ==> k < index + CHECKPOINT_INTERVAL) <==> forall k :: k in unsaved ==> k < index
  {
    forall k | k in unsaved && index <= k
      ensures k >= index + CHECKPOINT_INTERVAL
    {
      assert k % CHECKPOINT_INTERVAL == 0;
    }
  }

  lemma ExtendsKeepsCheckpoints(r: Running, r': Running, b: Block, withCheckpoint: bool, unsaved: set<nat>)
    requires CheckpointsBut(r, unsaved) && Extends(r, r', b, withCheckpoint)
    ensures CheckpointsBut(r', unsaved + if !withCheckpoint && b.index % CHECKPOINT_INTERVAL == 0 then {b.index}
                                         else {})
  {
  }

  lemma NextKeepsCheckpoints(p: Primitives, cfg: ValidatorConfig, id: string, r: Running, e: Event, unsaved: set<nat>)
    requires Valid(cfg) && r.node.chain != [] && IndexIsPosition(r.node.chain) && !Replaces(p, cfg, r, e)
    requires CheckpointsBut(r, unsaved)
    ensures CheckpointsBut(Next(p, cfg, id, r, e),
                           unsaved + if SkipsCheckpoint(p, cfg, id, r, e) then {|r.node.chain|} else {})
  {
    var r' := Next(p, cfg, id, r, e);
    assert unsaved + {} == unsaved;
    if !e.Synced? {
      var b, withCheckpoint := EventExtends(p, cfg, id, r, e);
      if r' != r {
        ExtendsKeepsCheckpoints(r, r', b, withCheckpoint, unsaved);
      }
    }
  }

  lemma {:induction false} RunKeepsCheckpoints(p: Primitives, cfg: ValidatorConfig, id: string, stages: seq<Stage>)
    requires Valid(cfg) && OffersWellFormed(Genesis(p, cfg), stages) && !EverReplaced(p, cfg, id, stages)
    ensures CheckpointsBut(Run(p, cfg, id, stages), Unsaved(p, cfg, id, stages))
  {
    if stages == [] {
    } else {
      var n := |stages| - 1;
      RunKeepsCheckpoints(p, cfg, id, stages[..n]);
      RunIsSane(p, cfg, id, stages[..n]);
      var r := BeforeLast(p, cfg, id, stages);
      assert CheckpointsBut(r, Unsaved(p, cfg, id, stages[..n]));
      NextKeepsCheckpoints(p, cfg, id, r, stages[n].event, Unsaved(p, cfg, id, stages[..n]));
    }
  }

  /**
   While no chain is taken over, a restart finds the checkpoints of the whole chain if
   and only if no audit flush made a block at a multiple of 100.
   */
  lemma ReloadYieldsCheckpointsIff(p: Primitives, cfg: ValidatorConfig, id: string, stages: seq<Stage>)
    requires Valid(cfg) && OffersWellFormed(Genesis(p, cfg), stages) && !EverReplaced(p, cfg, id, stages)
    ensures var r := Run(p, cfg, id, stages);
            CheckpointsFrom(r.store.checkpoints, 100) == CheckpointHashes(r.node.chain, 100) <==>
            Unsaved(p, cfg, id, stages) == {}
  {
    RunKeepsCheckpoints(p, cfg, id, stages);
    AllCheckpointsIff(Run(p, cfg, id, stages), Unsaved(p, cfg, id, stages));
  }

  lemma AllCheckpointsIff(r: Running, unsaved: set<nat>)
    requires CheckpointsBut(r, unsaved)
    ensures CheckpointsFrom(r.store.checkpoints, CHECKPOINT_INTERVAL) ==
            CheckpointHashes(r.node.chain, CHECKPOINT_INTERVAL) <==>
            unsaved == {}
  {
    CheckpointsMatchIff(r, unsaved, CHECKPOINT_INTERVAL);
    forall k | k in unsaved
      ensures k >= CHECKPOINT_INTERVAL
    {
      assert k % CHECKPOINT_INTERVAL == 0;
    }
  }

  /** Under rotation a flush never makes a block, so no checkpoint goes unsaved. */
  lemma {:induction false} RotationSavesAll(p: Primitives, cfg: ValidatorConfig, id: string, stages: seq<Stage>)
    requires Valid(cfg) && Rotates(cfg) && OffersWellFormed(Genesis(p, cfg), stages)
    ensures Unsaved(p, cfg, id, stages) == {}
    decreases |stages|
  {
    if stages == [] {
    } else {
      var n := |stages| - 1;
      RotationSavesAll(p, cfg, id, stages[..n]);
      RunIsSane(p, cfg, id, stages[..n]);
      FlushMakesNothing(p, cfg, id, BeforeLast(p, cfg, id, stages), stages[n].event);
    }
  }

  lemma FlushMakesNothing(p: Primitives, cfg: ValidatorConfig, id: string, r: Running, e: Event)
    requires Valid(cfg) && Rotates(cfg) && WellFormed(Genesis(p, cfg), r.node.chain)
    ensures !SkipsCheckpoint(p, cfg, id, r, e)
  {
    NeverDueTwice(cfg, id, |r.node.chain|);
    assert r.node.chain[|r.node.chain| - 1].index + 1 == |r.node.chain|;
  }

  // ----- The list of checkpoints in memory -----

  /** The heights at multiples of 100 whose blocks the node made itself. */
  ghost function OwnHeights(p: Primitives, cfg: ValidatorConfig, id: string, stages: seq<Stage>): set<nat>
    requires Valid(cfg)
    decreases |stages|
  {
    if stages == [] then {}
    else
      var r, e := BeforeLast(p, cfg, id, stages), stages[|stages| - 1].event;
      OwnHeights(p, cfg, id, stages[..|stages| - 1]) +
      if Makes(p, cfg, id, r, e) && |r.node.chain| % CHECKPOINT_INTERVAL == 0 then {|r.node.chain|} else {}
  }

  /** The hashes of the own blocks at `index`, `index + 100`, ... of the chain. */
  function OwnHashes(chain: seq<Block>, own: set<nat>, index: nat): seq<string>
    decreases |chain| - index
  {
    if index < |chain| then
      (if index in own then [chain[index].hash] else []) + OwnHashes(chain, own, index + CHECKPOINT_INTERVAL)
    else []
  }

  /** A block at the end adds its hash exactly when it is an own one at a multiple of 100. */
  lemma {:induction false} OwnHashesAppend(chain: seq<Block>, b: Block, own: set<nat>, own': set<nat>, index: nat)
    requires index % CHECKPOINT_INTERVAL == 0 && forall k :: k in own ==> k < |chain|
    requires own' == own || (own' == own + {|chain|} && |chain| % CHECKPOINT_INTERVAL == 0)
    ensures OwnHashes(chain + [b], own', index) ==
            OwnHashes(chain, own, index) + if index <= |chain| && |chain| in own' then [b.hash] else []
    decreases |chain| - index
  {
    if index < |chain| {
      assert (chain + [b])[index] == chain[index];
      OwnHashesAppend(chain, b, own, own', index + CHECKPOINT_INTERVAL);
      assert |chain| in own' ==> index + CHECKPOINT_INTERVAL <= |chain|;
    } else if index == |chain| {
      assert (chain + [b])[index] == b;
      assert OwnHashes(chain + [b], own', index + CHECKPOINT_INTERVAL) == [];
    }
  }

  ghost predicate MemoryIs(r: Running, own: set<nat>) {
    && r.node.checkpoints == OwnHashes(r.node.chain, own, CHECKPOINT_INTERVAL)
    && (forall k :: k in own ==> 1 <= k < |r.node.chain| && k % CHECKPOINT_INTERVAL == 0)
  }

  /** Received blocks leave the list alone; own blocks enter it at multiples of 100. */
  lemma NextKeepsMemory(p: Primitives, cfg: ValidatorConfig, id: string, r: Running, e: Event, own: set<nat>)
    requires Valid(cfg) && r.node.chain != [] && IndexIsPosition(r.node.chain) && !Replaces(p, cfg, r, e)
    requires MemoryIs(r, own)
    ensures MemoryIs(Next(p, cfg, id, r, e),
                     own + if Makes(p, cfg, id, r, e) && |r.node.chain| % CHECKPOINT_INTERVAL == 0
                           then {|r.node.chain|} else {})
  {
    var r', made := Next(p, cfg, id, r, e), Makes(p, cfg, id, r, e) && |r.node.chain| % CHECKPOINT_INTERVAL == 0;
    var own' := own + if made then {|r.node.chain|} else {};
    assert own + {} == own;
    if !e.Synced? {
      var b, withCheckpoint := EventExtends(p, cfg, id, r, e);
      if r' != r {
        CheckpointsGrow(p, cfg, id, r, e, b, withCheckpoint);
        MemoryGrows(r, r', b, own, made);
      }
    }
  }

  lemma CheckpointsGrow(p: Primitives, cfg: ValidatorConfig, id: string, r: Running, e: Event, b: Block,
                        withCheckpoint: bool)
    requires Valid(cfg) && !e.Synced? && r.node.chain != [] && IndexIsPosition(r.node.chain)
    requires Extends(r, Next(p, cfg, id, r, e), b, withCheckpoint)
    ensures var made := Makes(p, cfg, id, r, e) && |r.node.chain| % CHECKPOINT_INTERVAL == 0;
            Next(p, cfg, id, r, e).node.checkpoints == r.node.checkpoints + if made then [b.hash] else []
  {
    assert r.node.chain[|r.node.chain| - 1].index + 1 == |r.node.chain|;
  }

  lemma MemoryGrows(r: Running, r': Running, b: Block, own: set<nat>, made: bool)
    requires MemoryIs(r, own) && r.node.chain != [] && r'.node.chain == r.node.chain + [b]
    requires r'.node.checkpoints == r.node.checkpoints + if made then [b.hash] else []
    requires made ==> |r.node.chain| % CHECKPOINT_INTERVAL == 0
    ensures MemoryIs(r', own + if made then {|r.node.chain|} else {})
  {
    var own' := own + if made then {|r.node.chain|} else {};
    assert own + {} == own;
    OwnHashesAppend(r.node.chain, b, own, own', CHECKPOINT_INTERVAL);
    assert made ==> CHECKPOINT_INTERVAL <= |r.node.chain|;
  }

  lemma {:induction false} RunKeepsMemory(p: Primitives, cfg: ValidatorConfig, id: string, stages: seq<Stage>)
    requires Valid(cfg) && OffersWellFormed(Genesis(p, cfg), stages) && !EverReplaced(p, cfg, id, stages)
    ensures MemoryIs(Run(p, cfg, id, stages), OwnHeights(p, cfg, id, stages))
    decreases |stages|
  {
    if stages == [] {
    } else {
      var n := |stages| - 1;
      RunKeepsMemory(p, cfg, id, stages[..n]);
      RunIsSane(p, cfg, id, stages[..n]);
      var r := BeforeLast(p, cfg, id, stages);
      assert MemoryIs(r, OwnHeights(p, cfg, id, stages[..n]));
      NextKeepsMemory(p, cfg, id, r, stages[n].event, OwnHeights(p, cfg, id, stages[..n]));
    }
  }

  ghost predicate DistinctHashes(chain: seq<Block>) {
    forall i, j :: 0 <= i < j < |chain| ==> chain[i].hash != chain[j].hash
  }

  lemma {:induction false} OwnHashesAreLater(chain: seq<Block>, own: set<nat>, index: nat, h: string)
    requires h in OwnHashes(chain, own, index)
    ensures exists k :: index <= k < |chain| && chain[k].hash == h
    decreases |chain| - index
  {
    if index < |chain| && !(index in own && chain[index].hash == h) {
      OwnHashesAreLater(chain, own, index + CHECKPOINT_INTERVAL, h);
    }
  }

  /** Every multiple of 100 from here on was made by the node and saved. */
  ghost predicate AllOwnAndSaved(chain: seq<Block>, own: set<nat>, unsaved: set<nat>, index: nat) {
    forall k :: index <= k < |chain| && k % CHECKPOINT_INTERVAL == 0 ==> k in own && k !in unsaved
  }

  lemma {:induction false} MemoryMatchesIff(r: Running, own: set<nat>, unsaved: set<nat>, index: nat)
    requires CheckpointsBut(r, unsaved) && DistinctHashes(r.node.chain) && unsaved <= own
    requires 1 <= index && index % CHECKPOINT_INTERVAL == 0
    ensures CheckpointsFrom(r.store.checkpoints, index) == OwnHashes(r.node.chain, own, index) <==>
            AllOwnAndSaved(r.node.chain, own, unsaved, index)
    decreases |r.node.chain| - index
  {
    var chain := r.node.chain;
    if index >= |chain| {
      assert index !in r.store.checkpoints;
    } else {
      var later := index + CHECKPOINT_INTERVAL;
      MemoryMatchesIff(r, own, unsaved, later);
      NextMultiple(chain, own, unsaved, index);
      var found, held := CheckpointsFrom(r.store.checkpoints, index), OwnHashes(chain, own, index);
      if index in unsaved {
        assert found == [] && held != [];
      } else if index in own {
        SameHead(chain[index].hash, CheckpointsFrom(r.store.checkpoints, later), OwnHashes(chain, own, later));
      } else {
        assert found[0] == chain[index].hash && held == OwnHashes(chain, own, later);
        if held == found {
          OwnHashesAreLater(chain, own, later, chain[index].hash);
        }
      }
    }
  }

  lemma SameHead(h: string, a: seq<string>, b: seq<string>)
    ensures [h] + a == [h] + b <==> a == b
  {
    if [h] + a == [h] + b {
      assert a == ([h] + a)[1..] == ([h] + b)[1..] == b;
    }
  }

  lemma NextMultiple(chain: seq<Block>, own: set<nat>, unsaved: set<nat>, index: nat)
    requires index < |chain| && index % CHECKPOINT_INTERVAL == 0
    ensures AllOwnAndSaved(chain, own, unsaved, index) <==>
            index in own && index !in unsaved && AllOwnAndSaved(chain, own, unsaved, index + CHECKPOINT_INTERVAL)
  {
    forall k | index < k < index + CHECKPOINT_INTERVAL
      ensures k % CHECKPOINT_INTERVAL != 0
    {
    }
  }

  lemma {:induction false} UnsavedAreOwn(p: Primitives, cfg: ValidatorConfig, id: string, stages: seq<Stage>)
    requires Valid(cfg)
    ensures Unsaved(p, cfg, id, stages) <= OwnHeights(p, cfg, id, stages)
    decreases |stages|
  {
    if stages == [] {
    } else {
      UnsavedAreOwn(p, cfg, id, stages[..|stages| - 1]);
    }
  }

  /**
   While no chain is taken over, a restart finds the list in memory if and only if every
   block at a multiple of 100 was made by the node itself and saved.
   */
  lemma ReloadYieldsMemoryIff(p: Primitives, cfg: ValidatorConfig, id: string, stages: seq<Stage>)
    requires Valid(cfg) && OffersWellFormed(Genesis(p, cfg), stages) && !EverReplaced(p, cfg, id, stages)
    requires DistinctHashes(Run(p, cfg, id, stages).node.chain)
    ensures var r := Run(p, cfg, id, stages);
            CheckpointsFrom(r.store.checkpoints, 100) == r.node.checkpoints <==>
            AllOwnAndSaved(r.node.chain, OwnHeights(p, cfg, id, stages), Unsaved(p, cfg, id, stages), 100)
  {
    RunKeepsCheckpoints(p, cfg, id, stages);
    RunKeepsMemory(p, cfg, id, stages);
    UnsavedAreOwn(p, cfg, id, stages);
    MemoryMatchesIff(Run(p, cfg, id, stages), OwnHeights(p, cfg, id, stages), Unsaved(p, cfg, id, stages),
                     CHECKPOINT_INTERVAL);
  }
}
