/**
 The block store and the start-up path: blocks under their index, a chain length,
 checkpoints and metadata. RocksDB is a set of finite maps here.
 */
module Persistence {
  import opened Wrappers
  import opened Config
  import opened Blocks
  import opened Ledger

  const SCHEMA_VERSION := "v8_envelope_encryption"

  datatype Store = Store(
    blocks: map<nat, Block>,
    length: Option<nat>,
    checkpoints: map<nat, string>,
    nodeId: Option<string>,
    schema: Option<string>)

  const EMPTY_STORE := Store(map[], None, map[], None, None)

  function SaveBlock(s: Store, b: Block): Store {
    s.(blocks := s.blocks[b.index := b], length := Some(b.index + 1))
  }

  function SaveCheckpoint(s: Store, b: Block): Store {
    s.(checkpoints := s.checkpoints[b.index := b.hash])
  }

  /** The first `n` blocks, or the first missing index. */
  function LoadFirst(blocks: map<nat, Block>, n: nat): (r: Result<seq<Block>, nat>)
    ensures r.Ok? ==> |r.value| == n && forall i :: 0 <= i < n ==> i in blocks && r.value[i] == blocks[i]
    ensures r.Err? ==> r.error < n && r.error !in blocks && forall i :: 0 <= i < r.error ==> i in blocks
  {
    if n == 0 then Ok([])
    else
      match LoadFirst(blocks, n - 1)
      case Err(i) => Err(i)
      case Ok(chain) => if n - 1 in blocks then Ok(chain + [blocks[n - 1]]) else Err(n - 1)
  }

  function LoadChain(s: Store): Result<seq<Block>, nat> {
    match s.length
    case None => Ok([])
    case Some(n) => LoadFirst(s.blocks, n)
  }

  ghost function KeysFrom(checkpoints: map<nat, string>, index: nat): set<nat> {
    set k | k in checkpoints && k >= index
  }

  lemma KeysShrink(checkpoints: map<nat, string>, index: nat)
    requires index in checkpoints
    ensures KeysFrom(checkpoints, index + CHECKPOINT_INTERVAL) < KeysFrom(checkpoints, index)
  {
    assert index in KeysFrom(checkpoints, index) - KeysFrom(checkpoints, index + CHECKPOINT_INTERVAL);
  }

  /** The checkpoint hashes at `index`, `index + 100`, ... up to the first gap. */
  function CheckpointsFrom(checkpoints: map<nat, string>, index: nat): seq<string>
    decreases KeysFrom(checkpoints, index)
  {
    if index in checkpoints then
      KeysShrink(checkpoints, index);
      [checkpoints[index]] + CheckpointsFrom(checkpoints, index + CHECKPOINT_INTERVAL)
    else []
  }

  function ClearedBlocks(s: Store): map<nat, Block> {
    match s.length
    case None => s.blocks
    case Some(n) => map i | i in s.blocks && i >= n :: s.blocks[i]
  }

  /** Deletes the counted blocks and the metadata; checkpoints stay. */
  function ClearAll(s: Store): Store {
    if s.length.None? then s
    else Store(ClearedBlocks(s), None, s.checkpoints, None, None)
  }

  // ----- The stateful store -----

  class BlockchainStore {
    var blocks: map<nat, Block>
    var length: Option<nat>
    var checkpoints: map<nat, string>
    var nodeId: Option<string>
    var schema: Option<string>

    constructor ()
      ensures State() == EMPTY_STORE
    {
      blocks, length, checkpoints, nodeId, schema := map[], None, map[], None, None;
    }

    ghost function State(): Store
      reads this
    {
      Store(blocks, length, checkpoints, nodeId, schema)
    }

    method Save(block: Block)
      modifies this`blocks, this`length
      ensures State() == SaveBlock(old(State()), block)
    {
      blocks := blocks[block.index := block];
      length := Some(block.index + 1);
    }

    method SaveMetadata(id: string, version: string)
      modifies this`nodeId, this`schema
      ensures nodeId == Some(id) && schema == Some(version)
    {
      nodeId := Some(id);
      schema := Some(version);
    }

    method Load() returns (r: Result<seq<Block>, nat>)
      ensures r == LoadChain(State())
    {
      if length.None? {
        return Ok([]);
      }
      var chain: seq<Block> := [];
      for index := 0 to length.value
        invariant LoadFirst(blocks, index) == Ok(chain)
      {
        if index !in blocks {
          FirstGapPersists(blocks, index, length.value);
          return Err(index);
        }
        chain := chain + [blocks[index]];
      }
      return Ok(chain);
    }

    method LoadCheckpoints() returns (hashes: seq<string>)
      ensures hashes == CheckpointsFrom(checkpoints, CHECKPOINT_INTERVAL)
    {
      hashes := [];
      var index: nat := CHECKPOINT_INTERVAL;
      while index in checkpoints
        invariant hashes + CheckpointsFrom(checkpoints, index) ==
                  CheckpointsFrom(checkpoints, CHECKPOINT_INTERVAL)
        decreases KeysFrom(checkpoints, index)
      {
        KeysShrink(checkpoints, index);
        hashes := hashes + [checkpoints[index]];
        index := index + CHECKPOINT_INTERVAL;
      }
    }

    method Clear()
      modifies this
      ensures State() == ClearAll(old(State()))
    {
      if length.None? {
        return;
      }
      var n := length.value;
      for index := 0 to n
        invariant blocks == map i | i in old(blocks) && i >= index :: old(blocks)[i]
        invariant checkpoints == old(checkpoints)
      {
        blocks := blocks - {index};
      }
      length, nodeId, schema := None, None, None;
    }
  }

  lemma {:induction false} FirstGapPersists(blocks: map<nat, Block>, gap: nat, n: nat)
    requires gap < n && gap !in blocks && LoadFirst(blocks, gap).Ok?
    ensures LoadFirst(blocks, n) == Err(gap)
  {
    if n > gap + 1 {
      FirstGapPersists(blocks, gap, n - 1);
    }
  }

  /** Start-up: reload a store of the current schema, otherwise begin with the genesis block. */
  function Start(s: Store, p: Primitives, cfg: ValidatorConfig, id: string): (Store, Result<Node, nat>)
    requires Valid(cfg)
  {
    if s.length.Some? && s.schema == Some(SCHEMA_VERSION) then
      match LoadChain(s)
      case Err(i) => (s, Err(i))
      case Ok(chain) => (s, Ok(Node(chain, CheckpointsFrom(s.checkpoints, CHECKPOINT_INTERVAL), [], [])))
    else
      (SaveBlock(ClearAll(s), Genesis(p, cfg)).(nodeId := Some(id), schema := Some(SCHEMA_VERSION)),
       Ok(InitialNode(p, cfg)))
  }

  method LoadBlockchain(store: BlockchainStore, p: Primitives, cfg: ValidatorConfig, id: string)
    returns (r: Result<Node, nat>)
    requires Valid(cfg)
    modifies store
    ensures (store.State(), r) == Start(old(store.State()), p, cfg, id)
  {
    if store.length.Some? {
      if store.schema == Some(SCHEMA_VERSION) {
        var chain := store.Load();
        if chain.Err? {
          return Err(chain.error);
        }
        var hashes := store.LoadCheckpoints();
        return Ok(Node(chain.value, hashes, [], []));
      }
      store.Clear();
    }
    store.Save(Genesis(p, cfg));
    store.SaveMetadata(id, SCHEMA_VERSION);
    return Ok(InitialNode(p, cfg));
  }

  // ----- Saving and loading -----

  /** The checkpoint hashes found are those at `index + 100 * j` up to the first gap. */
  lemma {:induction false} CheckpointsByPosition(checkpoints: map<nat, string>, index: nat, j: nat)
    ensures var found := CheckpointsFrom(checkpoints, index);
            && (j < |found| <==> forall i: nat :: i <= j ==> index + 100 * i in checkpoints)
            && (j < |found| ==> index + 100 * j in checkpoints && found[j] == checkpoints[index + 100 * j])
    decreases j
  {
    assert index + 100 * 0 == index;
    if index in checkpoints {
      var found, rest := CheckpointsFrom(checkpoints, index), CheckpointsFrom(checkpoints, index + 100);
      assert found == [checkpoints[index]] + rest;
      if j > 0 {
        CheckpointsByPosition(checkpoints, index + 100, j - 1);
        AllFromNext(checkpoints, index, j);
      }
    }
  }

  lemma AllFromNext(checkpoints: map<nat, string>, index: nat, j: nat)
    requires index in checkpoints && j > 0
    ensures (forall i: nat :: i <= j ==> index + 100 * i in checkpoints) <==>
            forall i: nat :: i <= j - 1 ==> index + 100 + 100 * i in checkpoints
  {
    if forall i: nat :: i <= j ==> index + 100 * i in checkpoints {
      forall i: nat | i <= j - 1
        ensures index + 100 + 100 * i in checkpoints
      {
        assert index + 100 * (i + 1) in checkpoints;
      }
    }
    if forall i: nat :: i <= j - 1 ==> index + 100 + 100 * i in checkpoints {
      forall i: nat | i <= j
        ensures index + 100 * i in checkpoints
      {
        assert i == 0 || index + 100 + 100 * (i - 1) in checkpoints;
      }
    }
  }

  /** A store of another schema keeps its checkpoints, and blocks beyond its length, when cleared. */
  lemma ClearKeepsCheckpoints(s: Store, n: nat, i: nat)
    requires s.length == Some(n)
    ensures ClearAll(s).checkpoints == s.checkpoints && LoadChain(ClearAll(s)) == Ok([])
    ensures i in ClearAll(s).blocks <==> i in s.blocks && i >= n
    ensures i in ClearAll(s).blocks ==> ClearAll(s).blocks[i] == s.blocks[i]
  {
  }

  /**
   A second start changes nothing in the store and yields the node of the first one, except
   that after a fresh start it picks up checkpoints left behind by the cleared chain.
   */
  lemma SecondStart(s: Store, p: Primitives, cfg: ValidatorConfig, id: string, again: string)
    requires Valid(cfg)
    ensures var (s1, first) := Start(s, p, cfg, id);
            var (s2, second) := Start(s1, p, cfg, again);
            && s2 == s1 && s1.checkpoints == s.checkpoints
            && (if s.length.Some? && s.schema == Some("v8_envelope_encryption") then s1 == s && second == first
                else
                  && s1.schema == Some("v8_envelope_encryption") && s1.nodeId == Some(id)
                  && first == Ok(Node([Genesis(p, cfg)], [], [], []))
                  && second == Ok(Node([Genesis(p, cfg)], CheckpointsFrom(s.checkpoints, 100), [], []))
                  && (second == first <==> 100 !in s.checkpoints))
  {
    if !(s.length.Some? && s.schema == Some("v8_envelope_encryption")) {
      FreshStartLoads(s, p, cfg, id);
    }
  }

  lemma FreshStartLoads(s: Store, p: Primitives, cfg: ValidatorConfig, id: string)
    requires Valid(cfg) && !(s.length.Some? && s.schema == Some(SCHEMA_VERSION))
    ensures LoadChain(Start(s, p, cfg, id).0) == Ok([Genesis(p, cfg)])
  {
    LoadFirstFrom(Start(s, p, cfg, id).0.blocks, [Genesis(p, cfg)], 1);
    assert [Genesis(p, cfg)][..1] == [Genesis(p, cfg)];
  }

  lemma {:induction false} LoadFirstFrom(blocks: map<nat, Block>, chain: seq<Block>, n: nat)
    requires n <= |chain| && forall i :: 0 <= i < n ==> i in blocks && blocks[i] == chain[i]
    ensures LoadFirst(blocks, n) == Ok(chain[..n])
  {
    if n == 0 {
    } else {
      LoadFirstFrom(blocks, chain, n - 1);
      assert chain[..n] == chain[..n - 1] + [chain[n - 1]];
    }
  }

  /** Saving at or below the stored length truncates there and appends the block. */
  lemma SaveTruncates(s: Store, chain: seq<Block>, b: Block)
    requires LoadChain(s) == Ok(chain) && b.index <= |chain|
    ensures LoadChain(SaveBlock(s, b)) == Ok(chain[..b.index] + [b])
  {
    var blocks := s.blocks[b.index := b];
    var kept := chain[..b.index] + [b];
    LoadFirstFrom(blocks, kept, b.index + 1);
    assert kept[..b.index + 1] == kept;
  }

  /** Saving beyond the stored length loads again exactly when old blocks fill the gap. */
  lemma SaveBeyondLengthLeavesGap(s: Store, chain: seq<Block>, b: Block)
    requires LoadChain(s) == Ok(chain) && b.index > |chain|
    ensures LoadChain(SaveBlock(s, b)).Ok? <==> forall i :: |chain| <= i < b.index ==> i in s.blocks
    ensures |chain| !in s.blocks ==> LoadChain(SaveBlock(s, b)) == Err(|chain|)
  {
    var blocks := s.blocks[b.index := b];
    var r := LoadFirst(blocks, b.index + 1);
    assert forall i :: 0 <= i < |chain| ==> i in s.blocks && i in blocks;
    assert forall i :: i != b.index && i in blocks ==> i in s.blocks;
    assert r.Ok? ==> forall i :: 0 <= i < b.index ==> i in blocks;
  }

  /** What a node does with a block it has appended. */
  function Persist(store: Store, b: Block, withCheckpoint: bool): Store {
    var saved := SaveBlock(store, b);
    if withCheckpoint && b.index % CHECKPOINT_INTERVAL == 0 then SaveCheckpoint(saved, b) else saved
  }
}
