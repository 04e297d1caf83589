/**
 Blocks, the envelopes they carry, and how a block is built and checked. The
 cryptography and the encodings a node calls are the function-valued fields of
 `Primitives`; nothing is assumed of them here.
 */
module Blocks {
  import opened Wrappers
  import opened Config
  import Text
  import Merkle

  const GENESIS_PREVIOUS_HASH := "0"
  const GENESIS_TIMESTAMP := 1704067200
  const GENESIS_SALT := "genesis_salt"
  const TIMESTAMP_GRANULARITY := 86400
  const TIMESTAMP_JITTER := 14400
  const TIMESTAMP_TOLERANCE := 14400

  datatype Account = Account(accountId: string, apiKeyHash: string, body: string)

  datatype Collection = Collection(collectionId: string, ownerKeyHash: string, body: string)

  datatype AccountEnvelope = AccountEnvelope(apiKeyHash: string, sealedData: string)

  /** What `encrypted_block_data` encodes. */
  datatype Container = Container(accounts: seq<AccountEnvelope>, collections: seq<Collection>, validator: string)

  datatype Primitives = Primitives(
    hash: Merkle.Hash,
    encode: Container -> string,
    decode: string -> Option<Container>,
    verifyCollection: Collection -> bool,
    seal: (Account, string, string) -> Option<AccountEnvelope>,
    unseal: (AccountEnvelope, string, string) -> Option<Account>,
    hashKey: string -> string,
    accountIndex: (string, string) -> Option<string>)

  datatype Block = Block(
    index: nat,
    timestamp: int,
    data: string,
    blindIndexes: seq<string>,
    salt: string,
    validator: string,
    previousHash: string,
    merkleRoot: string,
    hash: string)

  /** The text that `calculate_hash` hashes: five fields without separators. */
  function HeaderText(b: Block): string {
    Text.Decimal(b.index) + Text.SignedDecimal(b.timestamp) + b.merkleRoot + b.previousHash + b.validator
  }

  function CalculateHash(p: Primitives, b: Block): string {
    (p.hash)(HeaderText(b))
  }

  /** Rust's remainder, which takes the sign of the dividend. */
  function Remainder(a: int, b: nat): int
    requires b > 0
  {
    if a >= 0 then a % b else -((-a) % b)
  }

  /** The day of the clock reading, moved by the jitter drawn for the block. */
  function ObfuscateTimestamp(now: int, jitter: int): int {
    now - Remainder(now, TIMESTAMP_GRANULARITY) + jitter
  }

  function NewBlock(p: Primitives, index: nat, accounts: seq<AccountEnvelope>, collections: seq<Collection>,
                    previousHash: string, validator: string, blindIndexes: seq<string>, salt: string,
                    now: int, jitter: int): (b: Block)
  {
    var timestamp := if index == 0 then GENESIS_TIMESTAMP else ObfuscateTimestamp(now, jitter);
    var data := (p.encode)(Container(accounts, collections, validator));
    var root := Merkle.Root(p.hash, data, blindIndexes);
    var b := Block(index, timestamp, data, blindIndexes, salt, validator, previousHash, root, "");
    b.(hash := CalculateHash(p, b))
  }

  /** Every node with the same configuration starts from the same block. */
  function Genesis(p: Primitives, cfg: ValidatorConfig): Block
    requires Valid(cfg)
  {
    NewBlock(p, 0, [], [], GENESIS_PREVIOUS_HASH, ValidatorFor(cfg, 0), [], GENESIS_SALT, 0, 0)
  }

  /** The block data decodes and every collection in it carries a good signature. */
  predicate DataVerifies(p: Primitives, data: string) {
    match (p.decode)(data)
    case None => false
    case Some(c) => forall i :: 0 <= i < |c.collections| ==> (p.verifyCollection)(c.collections[i])
  }

  function CollectionsOf(p: Primitives, b: Block): seq<Collection> {
    match (p.decode)(b.data)
    case None => []
    case Some(c) => c.collections
  }

  // ----- Chain validity -----

  datatype Fault =
    | InvalidBlockHash(position: nat)
    | BrokenChain(position: nat)
    | FutureTimestamp(timestamp: int)
    | InvalidTimestamp(position: nat)
    | InvalidMerkleRoot(position: nat)
    | InvalidData(position: nat)
    | InvalidValidator(position: nat, expected: string, actual: string)

  /** The checks on the block at position `i`, in the order they are made. */
  function FaultAt(p: Primitives, cfg: ValidatorConfig, chain: seq<Block>, i: nat, now: int): Option<Fault>
    requires Valid(cfg) && 1 <= i < |chain|
  {
    var b, previous := chain[i], chain[i - 1];
    if b.hash != CalculateHash(p, b) then Some(InvalidBlockHash(i))
    else if b.previousHash != previous.hash then Some(BrokenChain(i))
    else if b.timestamp > now + TIMESTAMP_TOLERANCE then Some(FutureTimestamp(b.timestamp))
    else if b.timestamp < previous.timestamp then Some(InvalidTimestamp(i))
    else if b.merkleRoot != Merkle.Root(p.hash, b.data, b.blindIndexes) then Some(InvalidMerkleRoot(i))
    else if !DataVerifies(p, b.data) then Some(InvalidData(i))
    else if b.validator != ValidatorFor(cfg, b.index) then
      Some(InvalidValidator(i, ValidatorFor(cfg, b.index), b.validator))
    else None
  }

  /** Every block after the first passes every check. */
  ghost predicate ValidChain(p: Primitives, cfg: ValidatorConfig, chain: seq<Block>, now: int)
    requires Valid(cfg)
  {
    forall i :: 1 <= i < |chain| ==> FaultAt(p, cfg, chain, i, now).None?
  }

  /** The first fault of the first faulty block. */
  ghost predicate FirstFault(p: Primitives, cfg: ValidatorConfig, chain: seq<Block>, now: int, fault: Fault)
    requires Valid(cfg)
  {
    exists i :: 1 <= i < |chain| && FaultAt(p, cfg, chain, i, now) == Some(fault) &&
                forall j :: 1 <= j < i ==> FaultAt(p, cfg, chain, j, now).None?
  }

  /** `is_valid`: reports the first fault of the first faulty block. */
  method IsValid(p: Primitives, cfg: ValidatorConfig, chain: seq<Block>, now: int)
    returns (fault: Option<Fault>)
    requires Valid(cfg)
    ensures fault.None? <==> ValidChain(p, cfg, chain, now)
    ensures fault.Some? ==> FirstFault(p, cfg, chain, now, fault.value)
  {
    var i := 1;
    while i < |chain|
      invariant 1 <= i
      invariant forall j :: 1 <= j < i && j < |chain| ==> FaultAt(p, cfg, chain, j, now).None?
    {
      fault := FaultAt(p, cfg, chain, i, now);
      if fault.Some? {
        return;
      }
      i := i + 1;
    }
    fault := None;
  }

  ghost predicate IndexIsPosition(chain: seq<Block>) {
    forall i :: 0 <= i < |chain| ==> chain[i].index == i
  }

  // ----- The values that go into a block -----

  /** The remainder has the sign of the dividend and leaves a multiple. */
  lemma RemainderTruncates(a: int, b: nat)
    requires b > 0
    ensures (a - Remainder(a, b)) % b == 0 && 0 - b < Remainder(a, b) < b
    ensures a >= 0 ==> Remainder(a, b) >= 0
    ensures a <= 0 ==> Remainder(a, b) <= 0
  {
    if a >= 0 {
      assert a == b * (a / b) + a % b;
      MultipleHasNoRemainder(a / b, b);
    } else {
      assert -a == b * ((-a) / b) + (-a) % b;
      var q: int := -((-a) / b);
      assert a - Remainder(a, b) == b * q;
      MultipleHasNoRemainder(q, b);
    }
  }

  lemma MultipleHasNoRemainder(q: int, b: nat)
    requires b > 0
    ensures (b * q) % b == 0
  {
    var r := (b * q) % b;
    assert b * q == b * ((b * q) / b) + r;
    assert b * (q - (b * q) / b) == r;
    var d := q - (b * q) / b;
    assert d >= 1 ==> b * d >= b;
    assert d <= -1 ==> b * d <= 0 - b;
  }

  /** Block times are whole days in the clock's past, moved by the jitter. */
  lemma StampIsDayPlusJitter(now: int, jitter: int)
    requires now >= 0
    ensures (ObfuscateTimestamp(now, jitter) - jitter) % 86400 == 0
    ensures now - 86400 < ObfuscateTimestamp(now, jitter) - jitter <= now
  {
    RemainderTruncates(now, TIMESTAMP_GRANULARITY);
  }

  /** The block that every node of a configuration starts with. */
  lemma GenesisFields(p: Primitives, cfg: ValidatorConfig)
    requires Valid(cfg)
    ensures var g := Genesis(p, cfg);
            && g.index == 0 && g.timestamp == 1704067200 && g.previousHash == "0" && g.salt == "genesis_salt"
            && g.validator == cfg.validators[0] && g.blindIndexes == []
            && g.data == (p.encode)(Container([], [], cfg.validators[0]))
            && g.merkleRoot == Merkle.Root(p.hash, g.data, []) && g.hash == CalculateHash(p, g)
  {
    var g := Genesis(p, cfg);
    assert HeaderText(g) == HeaderText(g.(hash := ""));
  }

  // ----- What a reported fault means -----

  /** All checks before the one that reports the fault passed, and that one did not. */
  lemma FaultMeans(p: Primitives, cfg: ValidatorConfig, chain: seq<Block>, i: nat, now: int, fault: Fault)
    requires Valid(cfg) && 1 <= i < |chain| && FaultAt(p, cfg, chain, i, now) == Some(fault)
    ensures var b, before := chain[i], chain[i - 1];
            var hashed, linked := b.hash == CalculateHash(p, b), b.previousHash == before.hash;
            var rooted := b.merkleRoot == Merkle.Root(p.hash, b.data, b.blindIndexes);
            match fault
            case InvalidBlockHash(k) => k == i && !hashed
            case BrokenChain(k) => k == i && hashed && !linked
            case FutureTimestamp(t) => t == b.timestamp && hashed && linked && t > now + 14400
            case InvalidTimestamp(k) =>
              k == i && hashed && linked && b.timestamp <= now + 14400 && b.timestamp < before.timestamp
            case InvalidMerkleRoot(k) =>
              k == i && hashed && linked && before.timestamp <= b.timestamp <= now + 14400 && !rooted
            case InvalidData(k) =>
              && k == i && hashed && linked && before.timestamp <= b.timestamp <= now + 14400 && rooted
              && !DataVerifies(p, b.data)
            case InvalidValidator(k, expected, actual) =>
              && k == i && hashed && linked && before.timestamp <= b.timestamp <= now + 14400 && rooted
              && DataVerifies(p, b.data) && actual == b.validator && actual != expected
              && expected == cfg.validators[b.index % |cfg.validators|]
  {
  }

  /** Data verifies when it decodes and each of its collections does. */
  lemma DataVerifiesIff(p: Primitives, c: Container, data: string)
    requires (p.decode)(data) == Some(c)
    ensures DataVerifies(p, data) <==> forall x :: x in c.collections ==> (p.verifyCollection)(x)
  {
  }
}
