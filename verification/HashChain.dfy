/** What the hash of the last block says about the whole chain behind it. */
module HashChain {
  import opened Wrappers
  import opened Config
  import opened Blocks
  import Text
  import Ledger
  import opened Merkle
  import opened MerkleBinding

  /** The sizes that make the header text parse in one way. */
  ghost predicate WellSized(b: Block) {
    && Text.TenDigits(b.timestamp)
    && |b.merkleRoot| == HASH_LENGTH
    && |b.previousHash| == HASH_LENGTH
  }

  /** Everything but the salt, which no hash covers. */
  function Unsalted(b: Block): Block {
    b.(salt := "")
  }

  /** The unseparated header text of blocks with one index determines the other fields. */
  lemma HeaderParsesUniquely(a: Block, b: Block)
    requires a.index == b.index && WellSized(a) && WellSized(b)
    requires HeaderText(a) == HeaderText(b)
    ensures a.timestamp == b.timestamp && a.merkleRoot == b.merkleRoot
    ensures a.previousHash == b.previousHash && a.validator == b.validator
  {
    var i := Text.Decimal(a.index);
    var ta, tb := Text.SignedDecimal(a.timestamp), Text.SignedDecimal(b.timestamp);
    Text.TenDigitText(a.timestamp);
    Text.TenDigitText(b.timestamp);
    assert HeaderText(a) == i + (ta + (a.merkleRoot + (a.previousHash + a.validator)));
    assert HeaderText(b) == i + (tb + (b.merkleRoot + (b.previousHash + b.validator)));
    Text.SplitAt(i, ta + (a.merkleRoot + (a.previousHash + a.validator)),
            i, tb + (b.merkleRoot + (b.previousHash + b.validator)));
    Text.SplitAt(ta, a.merkleRoot + (a.previousHash + a.validator), tb, b.merkleRoot + (b.previousHash + b.validator));
    Text.SplitAt(a.merkleRoot, a.previousHash + a.validator, b.merkleRoot, b.previousHash + b.validator);
    Text.SplitAt(a.previousHash, a.validator, b.previousHash, b.validator);
    Text.SignedDecimalInjective(a.timestamp, b.timestamp);
  }

  /** Every string hashed to check one block. */
  function BlockInputs(p: Primitives, b: Block): set<string> {
    {HeaderText(b)} + RootInputs(p.hash, b.data, b.blindIndexes)
  }

  ghost function ChainInputs(p: Primitives, chain: seq<Block>): set<string> {
    set i, s | 1 <= i < |chain| && s in BlockInputs(p, chain[i]) :: s
  }

  ghost predicate Checked(p: Primitives, b: Block) {
    b.hash == CalculateHash(p, b) && b.merkleRoot == Root(p.hash, b.data, b.blindIndexes)
  }

  /** Equal in everything but the salt, with contents that are equal up to folding. */
  ghost predicate Matches(p: Primitives, a: Block, b: Block) {
    && Unsalted(a) == Unsalted(b).(data := a.data, blindIndexes := a.blindIndexes)
    && SameUpToFolding(p.hash, a.data, a.blindIndexes, b.data, b.blindIndexes)
  }

  /** Blocks of one index share their hash exactly when they match. */
  lemma BlockBinds(p: Primitives, a: Block, b: Block)
    requires FixedLength(p.hash)
    requires CollisionFree(p.hash, BlockInputs(p, a) + BlockInputs(p, b))
    requires a.index == b.index && WellSized(a) && WellSized(b) && Checked(p, a) && Checked(p, b)
    ensures a.hash == b.hash <==> Matches(p, a, b)
  {
    if a.hash == b.hash {
      HeaderParsesUniquely(a, b);
      FewerInputs(p.hash, RootInputs(p.hash, a.data, a.blindIndexes) + RootInputs(p.hash, b.data, b.blindIndexes),
                  BlockInputs(p, a) + BlockInputs(p, b));
      SameRootIff(p.hash, a.data, a.blindIndexes, b.data, b.blindIndexes);
    }
  }

  /** What two chains must share for the tip to bind them. */
  ghost predicate Comparable(p: Primitives, cfg: ValidatorConfig, a: seq<Block>, b: seq<Block>, now: int)
    requires Valid(cfg)
  {
    && |a| == |b| && a != []
    && ValidChain(p, cfg, a, now) && ValidChain(p, cfg, b, now)
    && IndexIsPosition(a) && IndexIsPosition(b)
    && WellStarted(a[0]) && WellStarted(b[0]) && Text.TenDigits(now + TIMESTAMP_TOLERANCE)
    && (p.decode)("").None?
    && FixedLength(p.hash) && CollisionFree(p.hash, ChainInputs(p, a) + ChainInputs(p, b))
  }

  /** What `is_valid` does not look at: the first block's time and hash have their usual sizes. */
  ghost predicate WellStarted(b: Block) {
    Text.TenDigits(b.timestamp) && |b.hash| == HASH_LENGTH
  }

  lemma {:induction false} TimesAscend(p: Primitives, cfg: ValidatorConfig, chain: seq<Block>, now: int, k: nat)
    requires Valid(cfg) && ValidChain(p, cfg, chain, now) && k < |chain|
    ensures chain[0].timestamp <= chain[k].timestamp
  {
    if k == 0 {
    } else {
      assert FaultAt(p, cfg, chain, k, now).None?;
      TimesAscend(p, cfg, chain, now, k - 1);
    }
  }

  lemma RootLength(p: Primitives, b: Block)
    requires FixedLength(p.hash) && b.data != ""
    ensures |Root(p.hash, b.data, b.blindIndexes)| == HASH_LENGTH
  {
    ClimbLength(p.hash, HashAll(p.hash, [b.data] + b.blindIndexes));
  }

  /** In a valid chain with a usual first block every later block has the sizes. */
  lemma SizesFollow(p: Primitives, cfg: ValidatorConfig, chain: seq<Block>, now: int, k: nat)
    requires Valid(cfg) && ValidChain(p, cfg, chain, now) && 1 <= k < |chain| && FixedLength(p.hash)
    requires WellStarted(chain[0]) && Text.TenDigits(now + TIMESTAMP_TOLERANCE) && (p.decode)("").None?
    ensures WellSized(chain[k])
  {
    assert FaultAt(p, cfg, chain, k, now).None?;
    TimesAscend(p, cfg, chain, now, k);
    RootLength(p, chain[k]);
    if k > 1 {
      assert FaultAt(p, cfg, chain, k - 1, now).None?;
    }
  }

  lemma LinkedAndChecked(p: Primitives, cfg: ValidatorConfig, chain: seq<Block>, now: int, k: nat)
    requires Valid(cfg) && ValidChain(p, cfg, chain, now) && 1 <= k < |chain|
    ensures Checked(p, chain[k]) && chain[k].previousHash == chain[k - 1].hash
    ensures BlockInputs(p, chain[k]) <= ChainInputs(p, chain)
  {
    assert FaultAt(p, cfg, chain, k, now).None?;
  }

  /** Equal hashes at one position make the blocks there match and carry over to the position before. */
  ghost predicate BindsAt(p: Primitives, a: seq<Block>, b: seq<Block>, k: nat)
    requires |a| == |b| && 1 <= k < |a|
  {
    a[k].hash == b[k].hash ==> Matches(p, a[k], b[k]) && a[k - 1].hash == b[k - 1].hash
  }

  lemma PositionBinds(p: Primitives, cfg: ValidatorConfig, a: seq<Block>, b: seq<Block>, now: int, k: nat)
    requires Valid(cfg) && Comparable(p, cfg, a, b, now) && 1 <= k < |a|
    ensures BindsAt(p, a, b, k)
  {
    LinkedAndChecked(p, cfg, a, now, k);
    LinkedAndChecked(p, cfg, b, now, k);
    FewerInputs(p.hash, BlockInputs(p, a[k]) + BlockInputs(p, b[k]), ChainInputs(p, a) + ChainInputs(p, b));
    assert a[k].index == b[k].index;
    SizesFollow(p, cfg, a, now, k);
    SizesFollow(p, cfg, b, now, k);
    BlockBinds(p, a[k], b[k]);
  }

  ghost predicate BindsEverywhere(p: Primitives, a: seq<Block>, b: seq<Block>) {
    |a| == |b| && forall k :: 1 <= k < |a| ==> BindsAt(p, a, b, k)
  }

  /** The blocks at positions 1 to `k` match. */
  ghost predicate MatchUpTo(p: Primitives, a: seq<Block>, b: seq<Block>, k: nat) {
    k < |a| == |b| && forall i :: 1 <= i <= k ==> Matches(p, a[i], b[i])
  }

  lemma {:induction false} PrefixBinds(p: Primitives, a: seq<Block>, b: seq<Block>, k: nat)
    requires BindsEverywhere(p, a, b) && k < |a| && a[k].hash == b[k].hash
    ensures a[0].hash == b[0].hash && MatchUpTo(p, a, b, k)
  {
    if k == 0 {
    } else {
      assert BindsAt(p, a, b, k);
      PrefixBinds(p, a, b, k - 1);
    }
  }

  lemma EveryPositionBinds(p: Primitives, cfg: ValidatorConfig, a: seq<Block>, b: seq<Block>, now: int)
    requires Valid(cfg) && Comparable(p, cfg, a, b, now)
    ensures a != [] && BindsEverywhere(p, a, b)
  {
    forall k | 1 <= k < |a|
      ensures BindsAt(p, a, b, k)
    {
      PositionBinds(p, cfg, a, b, now, k);
    }
  }

  /** Equal tips force every block to match, whatever the data. */
  lemma TipBindsUpToFolding(p: Primitives, cfg: ValidatorConfig, a: seq<Block>, b: seq<Block>, now: int)
    requires Valid(cfg) && Comparable(p, cfg, a, b, now)
    requires a[|a| - 1].hash == b[|b| - 1].hash
    ensures a[0].hash == b[0].hash && MatchUpTo(p, a, b, |a| - 1)
  {
    var tip := |a| - 1;
    assert a[tip].hash == b[tip].hash;
    EveryPositionBinds(p, cfg, a, b, now);
    PrefixBinds(p, a, b, tip);
  }

  /**
   Two digests are not the Base64 text of a container: Base64 of a JSON object or array
   does not consist of lower-case hexadecimal digits.
   */
  ghost predicate DigestsDoNotDecode(p: Primitives) {
    forall x, y :: (p.decode)((p.hash)(x) + (p.hash)(y)).None?
  }

  lemma ValidIsNotFolded(p: Primitives, cfg: ValidatorConfig, chain: seq<Block>, now: int, k: nat)
    requires Valid(cfg) && ValidChain(p, cfg, chain, now) && 1 <= k < |chain| && DigestsDoNotDecode(p)
    ensures !TwoDigests(p.hash, chain[k].data)
  {
    assert FaultAt(p, cfg, chain, k, now).None?;
  }

  /** One tip hash, one chain: equal tips force equal blocks, up to salts. */
  lemma TipBindsChain(p: Primitives, cfg: ValidatorConfig, a: seq<Block>, b: seq<Block>, now: int)
    requires Valid(cfg) && Comparable(p, cfg, a, b, now) && DigestsDoNotDecode(p)
    requires a[|a| - 1].hash == b[|b| - 1].hash
    ensures a[0].hash == b[0].hash
    ensures forall i :: 1 <= i < |a| ==> Unsalted(a[i]) == Unsalted(b[i])
  {
    TipBindsUpToFolding(p, cfg, a, b, now);
    forall i | 1 <= i < |a|
      ensures Unsalted(a[i]) == Unsalted(b[i])
    {
      ValidIsNotFolded(p, cfg, a, now, i);
      ValidIsNotFolded(p, cfg, b, now, i);
      assert Matches(p, a[i], b[i]);
      UnfoldedAreEqual(p.hash, a[i].data, a[i].blindIndexes, b[i].data, b[i].blindIndexes);
    }
  }

  // ----- Folded blocks and salts -----

  /** The block with its contents folded once. */
  function Folded(p: Primitives, b: Block): Block
    requires b.blindIndexes != []
  {
    var texts := Fold(p.hash, Texts(b.data, b.blindIndexes));
    b.(data := texts[0], blindIndexes := texts[1..])
  }

  /** A folded block keeps hash, root and links, and only its data can be at fault. */
  lemma FoldedBlockValidIff(p: Primitives, cfg: ValidatorConfig, chain: seq<Block>, now: int, k: nat)
    requires Valid(cfg) && ValidChain(p, cfg, chain, now) && FixedLength(p.hash)
    requires 1 <= k < |chain| && chain[k].blindIndexes != []
    ensures ValidChain(p, cfg, chain[k := Folded(p, chain[k])], now) <==> DataVerifies(p, Folded(p, chain[k]).data)
  {
    var folded := Folded(p, chain[k]);
    var other := chain[k := folded];
    EveryIndexedRootFolds(p.hash, chain[k].data, chain[k].blindIndexes);
    assert HeaderText(folded) == HeaderText(chain[k]);
    assert FaultAt(p, cfg, chain, k, now).None?;
    assert FaultAt(p, cfg, other, k, now).None? <==> DataVerifies(p, folded.data);
    forall i | 1 <= i < |other| && i != k
      ensures FaultAt(p, cfg, other, i, now).None?
    {
      assert FaultAt(p, cfg, chain, i, now).None?;
    }
  }

  /** Since two digests do not decode, a folded block is refused by the full check. */
  lemma FoldedBlockIsRefused(p: Primitives, cfg: ValidatorConfig, chain: seq<Block>, now: int, k: nat)
    requires Valid(cfg) && ValidChain(p, cfg, chain, now) && FixedLength(p.hash) && DigestsDoNotDecode(p)
    requires 1 <= k < |chain| && chain[k].blindIndexes != []
    ensures !ValidChain(p, cfg, chain[k := Folded(p, chain[k])], now)
  {
    EveryIndexedRootFolds(p.hash, chain[k].data, chain[k].blindIndexes);
    FoldedBlockValidIff(p, cfg, chain, now, k);
  }

  /** Reception does not read the data and treats a folded block like the block itself. */
  lemma FoldedBlockIsReceived(p: Primitives, chain: seq<Block>, b: Block)
    requires FixedLength(p.hash) && b.blindIndexes != []
    ensures Ledger.Receive(p, chain, Folded(p, b)) == Ledger.Receive(p, chain, b)
  {
    EveryIndexedRootFolds(p.hash, b.data, b.blindIndexes);
    assert HeaderText(Folded(p, b)) == HeaderText(b);
  }

  /** Any salt may be replaced in a valid chain. */
  lemma SaltIsFree(p: Primitives, cfg: ValidatorConfig, chain: seq<Block>, now: int, k: nat, salt: string)
    requires Valid(cfg) && ValidChain(p, cfg, chain, now) && k < |chain|
    ensures ValidChain(p, cfg, chain[k := chain[k].(salt := salt)], now)
  {
    var other := chain[k := chain[k].(salt := salt)];
    forall i | 1 <= i < |other|
      ensures FaultAt(p, cfg, other, i, now).None?
    {
      assert FaultAt(p, cfg, chain, i, now).None?;
      assert HeaderText(other[i]) == HeaderText(chain[i]);
    }
  }

  /** The header text read by position: index, ten characters of time, root, previous hash, validator. */
  lemma HeaderByPosition(b: Block)
    requires WellSized(b)
    ensures var t, n := HeaderText(b), |Text.Decimal(b.index)|;
            && |t| == n + 138 + |b.validator| && Text.AllDigits(t[..n + 10])
            && Text.Number(t[..n]) == b.index && Text.Number(t[n..n + 10]) == b.timestamp
            && t[n + 10..n + 74] == b.merkleRoot && t[n + 74..n + 138] == b.previousHash
            && t[n + 138..] == b.validator
  {
    var t, i, time := HeaderText(b), Text.Decimal(b.index), Text.SignedDecimal(b.timestamp);
    var n := |i|;
    Text.TenDigitText(b.timestamp);
    Text.NumberOfDecimal(b.index);
    Text.NumberOfDecimal(b.timestamp);
    assert t == i + time + b.merkleRoot + b.previousHash + b.validator;
    assert t[..n] == i && t[n..n + 10] == time && t[..n + 10] == i + time;
  }
}
