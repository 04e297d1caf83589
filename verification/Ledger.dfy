/**
 A node's blockchain: pending data, block creation by the designated validator,
 reception of a peer's block and replacement by a peer's chain.
 */
module Ledger {
  import opened Wrappers
  import opened Config
  import opened Blocks
  import Text
  import Merkle

  const CHECKPOINT_INTERVAL := 100

  datatype PendingAccount = PendingAccount(account: Account, apiKey: string)

  datatype Node = Node(
    chain: seq<Block>,
    checkpoints: seq<string>,
    accounts: seq<PendingAccount>,
    collections: seq<Collection>)

  /** What creating one block takes from outside: salt, clock and timestamp jitter. */
  datatype Draw = Draw(salt: string, now: int, jitter: int)

  function InitialNode(p: Primitives, cfg: ValidatorConfig): Node
    requires Valid(cfg)
  {
    Node([Genesis(p, cfg)], [], [], [])
  }

  // ----- Creating a block -----

  datatype AddError =
    | NoPendingData
    | EmptyBlockchain
    | NotAuthorizedValidator(expected: string, blockNumber: nat)
    | SealingFailed

  function SealAll(p: Primitives, pending: seq<PendingAccount>, salt: string): (r: Option<seq<AccountEnvelope>>)
    ensures r.Some? ==> |r.value| == |pending|
    ensures r.Some? ==> forall i :: 0 <= i < |pending| ==>
                                      (p.seal)(pending[i].account, pending[i].apiKey, salt) == Some(r.value[i])
  {
    if pending == [] then Some([])
    else
      var n := |pending| - 1;
      match (SealAll(p, pending[..n], salt), (p.seal)(pending[n].account, pending[n].apiKey, salt))
      case (Some(sealed), Some(e)) => Some(sealed + [e])
      case _ => None
  }

  /** The block that follows the chain and carries all pending data. */
  function NextBlock(p: Primitives, cfg: ValidatorConfig, s: Node, sealed: seq<AccountEnvelope>, d: Draw): Block
    requires Valid(cfg) && s.chain != []
  {
    var last := s.chain[|s.chain| - 1];
    NewBlock(p, last.index + 1, sealed, s.collections, last.hash, ValidatorFor(cfg, last.index + 1), [],
             d.salt, d.now, d.jitter)
  }

  function WithBlock(s: Node, b: Block): Node {
    Node(s.chain + [b],
         if b.index % CHECKPOINT_INTERVAL == 0 then s.checkpoints + [b.hash] else s.checkpoints,
         [], [])
  }

  function CreateBlock(p: Primitives, cfg: ValidatorConfig, id: string, s: Node, d: Draw): Result<Node, AddError>
    requires Valid(cfg)
  {
    if s.accounts == [] && s.collections == [] then Err(NoPendingData)
    else if s.chain == [] then Err(EmptyBlockchain)
    else
      var number := s.chain[|s.chain| - 1].index + 1;
      if !Authorized(cfg, id, number) then Err(NotAuthorizedValidator(ValidatorFor(cfg, number), number))
      else
        match SealAll(p, s.accounts, d.salt)
        case None => Err(SealingFailed)
        case Some(sealed) => Ok(WithBlock(s, NextBlock(p, cfg, s, sealed, d)))
  }

  // ----- Receiving a block -----

  datatype Reception = NoChain | AlreadyKnown | NonSequential | Diverged | BadHash | BadRoot | Appended

  predicate Knows(chain: seq<Block>, hash: string) {
    exists i :: 0 <= i < |chain| && chain[i].hash == hash
  }

  function Receive(p: Primitives, chain: seq<Block>, b: Block): Reception {
    if chain == [] then NoChain
    else
      var last := chain[|chain| - 1];
      if Knows(chain, b.hash) then AlreadyKnown
      else if b.index != last.index + 1 then NonSequential
      else if b.previousHash != last.hash then Diverged
      else if b.hash != CalculateHash(p, b) then BadHash
      else if b.merkleRoot != Merkle.Root(p.hash, b.data, b.blindIndexes) then BadRoot
      else Appended
  }

  function AfterReceive(p: Primitives, s: Node, b: Block): Node {
    if Receive(p, s.chain, b) == Appended then s.(chain := s.chain + [b]) else s
  }

  // ----- Replacing the chain -----

  /** The first block with the hash, if any. */
  function FindByHash(chain: seq<Block>, hash: string): (r: Option<Block>)
    ensures r.Some? ==> r.value in chain && r.value.hash == hash
    ensures r.None? ==> !Knows(chain, hash)
  {
    if chain == [] then None
    else if chain[0].hash == hash then Some(chain[0])
    else FindByHash(chain[1..], hash)
  }

  /** The last checkpoint forbids chains no longer than its block index. */
  predicate CheckpointForbids(s: Node, theirs: seq<Block>) {
    s.checkpoints != [] &&
    match FindByHash(s.chain, s.checkpoints[|s.checkpoints| - 1])
    case None => false
    case Some(b) => |theirs| <= b.index
  }

  predicate SameHashes(a: seq<Block>, b: seq<Block>)
    requires |a| == |b|
  {
    forall i :: 0 <= i < |a| ==> a[i].hash == b[i].hash
  }

  /** Longer wins; at equal length a proper last validator, then the smaller last hash. */
  predicate Prefers(cfg: ValidatorConfig, ours: seq<Block>, theirs: seq<Block>)
    requires Valid(cfg)
  {
    if |theirs| > |ours| then true
    else if |theirs| == |ours| && |theirs| > 1 then
      if SameHashes(ours, theirs) then false
      else
        var ourLast, theirLast := ours[|ours| - 1], theirs[|theirs| - 1];
        var expected := ValidatorFor(cfg, ourLast.index);
        var ourProper, theirProper := ourLast.validator == expected, theirLast.validator == expected;
        if theirProper && !ourProper then true
        else if ourProper && !theirProper then false
        else Text.LexLess(theirLast.hash, ourLast.hash)
    else false
  }

  datatype Replacement = Kept | Replaced | Refused

  ghost function Replace(p: Primitives, cfg: ValidatorConfig, s: Node, theirs: seq<Block>, now: int): Replacement
    requires Valid(cfg)
  {
    if CheckpointForbids(s, theirs) then Kept
    else if !Prefers(cfg, s.chain, theirs) then Kept
    else if ValidChain(p, cfg, theirs, now) then Replaced
    else Refused
  }

  ghost function AfterReplace(p: Primitives, cfg: ValidatorConfig, s: Node, theirs: seq<Block>, now: int): Node
    requires Valid(cfg)
  {
    if Replace(p, cfg, s, theirs, now) == Replaced then s.(chain := theirs) else s
  }

  // ----- The stateful blockchain -----

  class Blockchain {
    const p: Primitives
    const cfg: ValidatorConfig
    const nodeId: string
    var chain: seq<Block>
    var checkpoints: seq<string>
    var pendingAccounts: seq<PendingAccount>
    var pendingCollections: seq<Collection>

    constructor (p: Primitives, cfg: ValidatorConfig, nodeId: string)
      requires Valid(cfg)
      ensures this.p == p && this.cfg == cfg && this.nodeId == nodeId
      ensures State() == InitialNode(p, cfg)
    {
      this.p := p;
      this.cfg := cfg;
      this.nodeId := nodeId;
      chain := [Genesis(p, cfg)];
      checkpoints := [];
      pendingAccounts := [];
      pendingCollections := [];
    }

    ghost function State(): Node
      reads this
    {
      Node(chain, checkpoints, pendingAccounts, pendingCollections)
    }

    method AddAccountWithKey(account: Account, apiKey: string)
      modifies this`pendingAccounts
      ensures pendingAccounts == old(pendingAccounts) + [PendingAccount(account, apiKey)]
    {
      pendingAccounts := pendingAccounts + [PendingAccount(account, apiKey)];
    }

    method AddCollection(collection: Collection)
      modifies this`pendingCollections
      ensures pendingCollections == old(pendingCollections) + [collection]
    {
      pendingCollections := pendingCollections + [collection];
    }

    method EncryptAccounts(salt: string) returns (sealed: Option<seq<AccountEnvelope>>)
      ensures sealed == SealAll(p, pendingAccounts, salt)
    {
      var envelopes := [];
      for i := 0 to |pendingAccounts|
        invariant SealAll(p, pendingAccounts[..i], salt) == Some(envelopes)
      {
        assert pendingAccounts[..i + 1][..i] == pendingAccounts[..i];
        var e := (p.seal)(pendingAccounts[i].account, pendingAccounts[i].apiKey, salt);
        if e.None? {
          SealFailsLater(p, pendingAccounts, salt, i + 1);
          return None;
        }
        envelopes := envelopes + [e.value];
      }
      assert pendingAccounts[..|pendingAccounts|] == pendingAccounts;
      return Some(envelopes);
    }

    method AddBlock(d: Draw) returns (r: Result<Block, AddError>)
      requires Valid(cfg)
      modifies this
      ensures match CreateBlock(p, cfg, nodeId, old(State()), d)
              case Err(e) => r == Err(e) && State() == old(State())
              case Ok(s) => r.Ok? && State() == s && s.chain == old(chain) + [r.value]
    {
      if pendingAccounts == [] && pendingCollections == [] {
        return Err(NoPendingData);
      }
      if chain == [] {
        return Err(EmptyBlockchain);
      }
      var previous := chain[|chain| - 1];
      var number := previous.index + 1;
      var validator := ValidatorFor(cfg, number);
      if !Authorized(cfg, nodeId, number) {
        return Err(NotAuthorizedValidator(validator, number));
      }
      var sealed := EncryptAccounts(d.salt);
      if sealed.None? {
        return Err(SealingFailed);
      }
      var block := NewBlock(p, number, sealed.value, pendingCollections, previous.hash, validator, [],
                            d.salt, d.now, d.jitter);
      chain := chain + [block];
      pendingAccounts := [];
      pendingCollections := [];
      if block.index % CHECKPOINT_INTERVAL == 0 {
        checkpoints := checkpoints + [block.hash];
      }
      return Ok(block);
    }

    /** `replace_chain`: Ok(true) when the peer's chain was taken over. */
    method ReplaceChain(theirs: seq<Block>, now: int) returns (r: Result<bool, Fault>)
      requires Valid(cfg)
      modifies this`chain
      ensures State() == AfterReplace(p, cfg, old(State()), theirs, now)
      ensures match Replace(p, cfg, old(State()), theirs, now)
              case Kept => r == Ok(false)
              case Replaced => r == Ok(true)
              case Refused => r.Err? && FirstFault(p, cfg, theirs, now, r.error)
    {
      if checkpoints != [] {
        var found := FindByHash(chain, checkpoints[|checkpoints| - 1]);
        if found.Some? && |theirs| <= found.value.index {
          return Ok(false);
        }
      }
      if !Prefers(cfg, chain, theirs) {
        return Ok(false);
      }
      var fault := IsValid(p, cfg, theirs, now);
      if fault.Some? {
        return Err(fault.value);
      }
      chain := theirs;
      return Ok(true);
    }
  }

  lemma {:induction false} SealFailsLater(p: Primitives, pending: seq<PendingAccount>, salt: string, i: nat)
    requires i <= |pending| && SealAll(p, pending[..i], salt).None?
    ensures SealAll(p, pending, salt).None?
    decreases |pending| - i
  {
    if i == |pending| {
      assert pending[..i] == pending;
    } else {
      assert pending[..i + 1][..i] == pending[..i];
      SealFailsLater(p, pending, salt, i + 1);
    }
  }

  // ----- What a creation answers and makes -----

  /** Which error, if any, decided by the queues, the tip and the sealing alone. */
  lemma CreateOutcome(p: Primitives, cfg: ValidatorConfig, id: string, s: Node, d: Draw)
    requires Valid(cfg)
    ensures var r := CreateBlock(p, cfg, id, s, d);
            if |s.accounts| + |s.collections| == 0 then r == Err(NoPendingData)
            else if |s.chain| == 0 then r == Err(EmptyBlockchain)
            else
              var h := s.chain[|s.chain| - 1].index + 1;
              var due := cfg.validators[h % |cfg.validators|];
              if (id, due) !in cfg.nodeToValidator.Items then r == Err(NotAuthorizedValidator(due, h))
              else
                (r.Ok? || r == Err(SealingFailed)) &&
                (r.Ok? <==> forall a :: a in s.accounts ==> (p.seal)(a.account, a.apiKey, d.salt).Some?)
  {
    if s.chain != [] {
      SealsIff(p, s.accounts, d.salt);
    }
  }

  lemma {:induction false} SealsIff(p: Primitives, pending: seq<PendingAccount>, salt: string)
    ensures SealAll(p, pending, salt).Some? <==>
            forall a :: a in pending ==> (p.seal)(a.account, a.apiKey, salt).Some?
  {
    if pending == [] {
    } else {
      var n := |pending| - 1;
      SealsIff(p, pending[..n], salt);
      assert pending == pending[..n] + [pending[n]];
      assert forall a :: a in pending <==> a in pending[..n] || a == pending[n];
    }
  }

  /** The made block, field by field, and the node that holds it. */
  lemma CreatedBlockFields(p: Primitives, cfg: ValidatorConfig, id: string, s: Node, d: Draw)
    requires Valid(cfg) && CreateBlock(p, cfg, id, s, d).Ok?
    ensures var s' := CreateBlock(p, cfg, id, s, d).value;
            && |s'.chain| == |s.chain| + 1 && s'.chain[..|s.chain|] == s.chain
            && s'.accounts == [] && s'.collections == []
            && var b, last := s'.chain[|s.chain|], s.chain[|s.chain| - 1];
               && b.index == last.index + 1 && b.previousHash == last.hash && b.salt == d.salt && b.blindIndexes == []
               && b.validator == cfg.validators[(last.index + 1) % |cfg.validators|]
               && (d.now >= 0 ==> b.timestamp == d.now - d.now % 86400 + d.jitter)
               && b.data == (p.encode)(Container(SealAll(p, s.accounts, d.salt).value, s.collections, b.validator))
               && b.merkleRoot == Merkle.Root(p.hash, b.data, []) && b.hash == CalculateHash(p, b)
               && s'.checkpoints == s.checkpoints + if b.index % 100 == 0 then [b.hash] else []
  {
    var s' := CreateBlock(p, cfg, id, s, d).value;
    var b := s'.chain[|s.chain|];
    assert HeaderText(b) == HeaderText(b.(hash := ""));
  }

  // ----- What reception looks at -----

  /** A block that was appended is known from then on. */
  lemma ReceptionIsIdempotent(p: Primitives, s: Node, b: Block)
    requires Receive(p, s.chain, b) == Appended
    ensures AfterReceive(p, s, b) == s.(chain := s.chain + [b])
    ensures Receive(p, AfterReceive(p, s, b).chain, b) == AlreadyKnown
  {
    var chain := AfterReceive(p, s, b).chain;
    assert chain[|s.chain|] == b;
  }

  /** Change one field of an acceptable block and reception names it; the salt it does not look at. */
  lemma TamperedBlockIsNamed(p: Primitives, chain: seq<Block>, b: Block, index: nat, text: string, salt: string)
    requires Receive(p, chain, b) == Appended
    ensures index != b.index ==> Receive(p, chain, b.(index := index)) == NonSequential
    ensures text != b.previousHash ==> Receive(p, chain, b.(previousHash := text)) == Diverged
    ensures text != b.hash ==>
              Receive(p, chain, b.(hash := text)) == if Knows(chain, text) then AlreadyKnown else BadHash
    ensures Merkle.Root(p.hash, text, b.blindIndexes) != b.merkleRoot ==> Receive(p, chain, b.(data := text)) == BadRoot
    ensures Receive(p, chain, b.(salt := salt)) == Appended
  {
    assert HeaderText(b.(hash := text)) == HeaderText(b);
    assert HeaderText(b.(data := text)) == HeaderText(b) && HeaderText(b.(salt := salt)) == HeaderText(b);
  }

  /** The checks come in order: an outcome says that every earlier check passed and its own did not. */
  lemma ReceptionMeans(p: Primitives, chain: seq<Block>, b: Block)
    requires chain != []
    ensures var known := exists i :: 0 <= i < |chain| && chain[i].hash == b.hash;
            var next, linked := b.index == chain[|chain| - 1].index + 1, b.previousHash == chain[|chain| - 1].hash;
            var hashed := b.hash == CalculateHash(p, b);
            var rooted := b.merkleRoot == Merkle.Root(p.hash, b.data, b.blindIndexes);
            match Receive(p, chain, b)
            case NoChain => false
            case AlreadyKnown => known
            case NonSequential => !known && !next
            case Diverged => !known && next && !linked
            case BadHash => !known && next && linked && !hashed
            case BadRoot => !known && next && linked && hashed && !rooted
            case Appended => !known && next && linked && hashed && rooted
  {
  }

  // ----- The checkpoint guard -----

  lemma {:induction false} FoundFirst(chain: seq<Block>, k: nat)
    requires k < |chain| && forall i :: 0 <= i < k ==> chain[i].hash != chain[k].hash
    ensures FindByHash(chain, chain[k].hash) == Some(chain[k])
  {
    if k == 0 {
    } else {
      FoundFirst(chain[1..], k - 1);
    }
  }

  /** The guard compares the offered length with the index of the last checkpoint's block, and with nothing else. */
  lemma GuardForbidsIff(s: Node, theirs: seq<Block>, k: nat)
    requires k < |s.chain| && s.checkpoints != [] && s.checkpoints[|s.checkpoints| - 1] == s.chain[k].hash
    requires forall i :: 0 <= i < k ==> s.chain[i].hash != s.chain[k].hash
    ensures CheckpointForbids(s, theirs) <==> |theirs| <= s.chain[k].index
  {
    FoundFirst(s.chain, k);
  }

  /** Without a checkpoint, or with one whose block is gone, the guard forbids nothing. */
  lemma GuardIdle(s: Node, theirs: seq<Block>)
    requires s.checkpoints == [] || !Knows(s.chain, s.checkpoints[|s.checkpoints| - 1])
    ensures !CheckpointForbids(s, theirs)
  {
    if s.checkpoints != [] {
      FoundIffKnown(s.chain, s.checkpoints[|s.checkpoints| - 1]);
    }
  }

  lemma FoundIffKnown(chain: seq<Block>, hash: string)
    ensures FindByHash(chain, hash).Some? <==> Knows(chain, hash)
  {
    if FindByHash(chain, hash).Some? {
      var i :| 0 <= i < |chain| && chain[i] == FindByHash(chain, hash).value;
    }
  }
}
