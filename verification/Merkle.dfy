/**
 The Merkle root of a block: leaf hashes of the block data and of every blind
 index, combined level by level. `hash` stands for BLAKE3 in hexadecimal.
 */
module Merkle {
  type Hash = string -> string

  const EMPTY_ROOT := "0"
  const HASH_LENGTH := 64

  ghost predicate FixedLength(hash: Hash) {
    forall s :: |hash(s)| == HASH_LENGTH
  }

  /** No two of these strings share a hash. */
  ghost predicate CollisionFree(hash: Hash, inputs: set<string>) {
    forall a, b :: a in inputs && b in inputs && hash(a) == hash(b) ==> a == b
  }

  // ----- Level by level -----

  /** Hash neighbours together; a last element without a neighbour is hashed alone. */
  function NextLevel(hash: Hash, level: seq<string>): (next: seq<string>)
    ensures |next| == (|level| + 1) / 2
  {
    if |level| == 0 then []
    else if |level| == 1 then [hash(level[0])]
    else [hash(level[0] + level[1])] + NextLevel(hash, level[2..])
  }

  function Climb(hash: Hash, level: seq<string>): string
    requires level != []
    decreases |level|
  {
    if |level| == 1 then level[0] else Climb(hash, NextLevel(hash, level))
  }

  function HashAll(hash: Hash, items: seq<string>): (hashes: seq<string>)
    ensures |hashes| == |items|
    ensures forall i :: 0 <= i < |items| ==> hashes[i] == hash(items[i])
  {
    seq(|items|, i requires 0 <= i < |items| => hash(items[i]))
  }

  function Root(hash: Hash, data: string, indexes: seq<string>): string {
    if data == "" && indexes == [] then EMPTY_ROOT
    else Climb(hash, HashAll(hash, [data] + indexes))
  }

  lemma NextLevelAppend(hash: Hash, a: seq<string>, b: seq<string>)
    requires |a| % 2 == 0
    ensures NextLevel(hash, a + b) == NextLevel(hash, a) + NextLevel(hash, b)
    decreases |a|
  {
    if a == [] {
      assert a + b == b;
    } else {
      assert (a + b)[2..] == a[2..] + b;
      NextLevelAppend(hash, a[2..], b);
    }
  }

  /** The in-place loops of `calculate_merkle_root`. */
  method CalculateMerkleRoot(hash: Hash, data: string, indexes: seq<string>) returns (root: string)
    ensures root == Root(hash, data, indexes)
  {
    if data == "" && indexes == [] {
      return EMPTY_ROOT;
    }
    var hashes := [hash(data)];
    for i := 0 to |indexes|
      invariant hashes == HashAll(hash, [data] + indexes[..i])
    {
      hashes := hashes + [hash(indexes[i])];
      assert [data] + indexes[..i + 1] == [data] + indexes[..i] + [indexes[i]];
    }
    assert indexes[..|indexes|] == indexes;
    while |hashes| > 1
      invariant hashes != [] && Climb(hash, hashes) == Root(hash, data, indexes)
      decreases |hashes|
    {
      hashes := CombinePairs(hash, hashes);
    }
    root := hashes[0];
  }

  method CombinePairs(hash: Hash, hashes: seq<string>) returns (next: seq<string>)
    ensures next == NextLevel(hash, hashes)
  {
    next := [];
    var i := 0;
    while i < |hashes|
      invariant i % 2 == 0 || i == |hashes|
      invariant 0 <= i <= |hashes|
      invariant next == NextLevel(hash, hashes[..i])
    {
      var end := if i + 2 <= |hashes| then i + 2 else |hashes|;
      NextLevelAppend(hash, hashes[..i], hashes[i..end]);
      assert hashes[..end] == hashes[..i] + hashes[i..end];
      if end == i + 2 {
        next := next + [hash(hashes[i] + hashes[i + 1])];
      } else {
        next := next + [hash(hashes[i])];
      }
      i := end;
    }
    assert hashes[..i] == hashes;
  }

  // ----- The reference: a tree cut in half from the top -----

  function Pow2(k: nat): nat {
    if k == 0 then 1 else 2 * Pow2(k - 1)
  }

  /** Levels above `n` leaves. */
  function Height(n: nat): nat {
    if n <= 1 then 0 else 1 + Height((n + 1) / 2)
  }

  /** The value of a tree of the given height; a right half may be missing. */
  function Tree(hash: Hash, leaves: seq<string>, height: nat): string
    requires 1 <= |leaves| <= Pow2(height)
  {
    if height == 0 then leaves[0]
    else
      var half := Pow2(height - 1);
      if |leaves| <= half then hash(Tree(hash, leaves, height - 1))
      else hash(Tree(hash, leaves[..half], height - 1) + Tree(hash, leaves[half..], height - 1))
  }

  lemma {:induction false} HeightFits(n: nat)
    requires 1 <= n
    ensures n <= Pow2(Height(n))
  {
    if n <= 1 {
    } else {
      HeightFits((n + 1) / 2);
    }
  }

  lemma TreeOfHalves(hash: Hash, left: seq<string>, right: seq<string>, height: nat)
    requires 1 <= height && |left| == Pow2(height - 1) && 1 <= |right| <= Pow2(height - 1)
    ensures |left + right| <= Pow2(height)
    ensures Tree(hash, left + right, height) ==
            hash(Tree(hash, left, height - 1) + Tree(hash, right, height - 1))
  {
    assert (left + right)[..Pow2(height - 1)] == left && (left + right)[Pow2(height - 1)..] == right;
  }

  /** Combining the lowest level once removes one level from the tree. */
  ghost predicate Lifts(hash: Hash, leaves: seq<string>, height: nat) {
    && 1 <= height && 1 <= |leaves| <= Pow2(height)
    && (|leaves| + 1) / 2 <= Pow2(height - 1)
    && Tree(hash, leaves, height) == Tree(hash, NextLevel(hash, leaves), height - 1)
  }

  lemma LiftsOnePair(hash: Hash, leaves: seq<string>)
    requires 1 <= |leaves| <= 2
    ensures Lifts(hash, leaves, 1)
  {
    assert Pow2(1) == 2 * Pow2(0);
    if |leaves| == 2 {
      TreeOfHalves(hash, [leaves[0]], [leaves[1]], 1);
      assert leaves == [leaves[0]] + [leaves[1]];
    }
  }

  lemma LiftsOneHalf(hash: Hash, leaves: seq<string>, height: nat)
    requires 2 <= height && Lifts(hash, leaves, height - 1)
    ensures Lifts(hash, leaves, height)
  {
  }

  lemma HalfOf(left: nat, right: nat, quarter: nat)
    requires left == 2 * quarter && 1 <= right <= 2 * quarter
    ensures left % 2 == 0 && (left + 1) / 2 == quarter && 1 <= (right + 1) / 2 <= quarter
  {
  }

  lemma HalvesOfLevel(left: nat, right: nat, height: nat)
    requires 2 <= height && left == Pow2(height - 1) && 1 <= right <= Pow2(height - 1)
    ensures left % 2 == 0 && (left + 1) / 2 == Pow2(height - 2)
    ensures 1 <= (right + 1) / 2 <= Pow2(height - 2)
  {
    var quarter := Pow2(height - 2);
    assert Pow2(height - 1) == 2 * quarter;
    HalfOf(left, right, quarter);
  }

  lemma TreesOfEqualHalves(
    hash: Hash, left: seq<string>, right: seq<string>, l: seq<string>, r: seq<string>, height: nat)
    requires 2 <= height
    requires |left| == Pow2(height - 1) && 1 <= |right| <= Pow2(height - 1)
    requires |l| == Pow2(height - 2) && 1 <= |r| <= Pow2(height - 2)
    requires Tree(hash, left, height - 1) == Tree(hash, l, height - 2)
    requires Tree(hash, right, height - 1) == Tree(hash, r, height - 2)
    ensures |left + right| <= Pow2(height) && |l + r| <= Pow2(height - 1)
    ensures Tree(hash, left + right, height) == Tree(hash, l + r, height - 1)
  {
    TreeOfHalves(hash, left, right, height);
    TreeOfHalves(hash, l, r, height - 1);
  }

  lemma LiftsBothHalves(hash: Hash, left: seq<string>, right: seq<string>, height: nat)
    requires 2 <= height && |left| == Pow2(height - 1)
    requires Lifts(hash, left, height - 1) && Lifts(hash, right, height - 1)
    ensures Lifts(hash, left + right, height)
  {
    HalvesOfLevel(|left|, |right|, height);
    NextLevelAppend(hash, left, right);
    TreesOfEqualHalves(hash, left, right, NextLevel(hash, left), NextLevel(hash, right), height);
  }

  lemma {:induction false} TreeOverNextLevel(hash: Hash, leaves: seq<string>, height: nat)
    requires 1 <= height && 1 <= |leaves| <= Pow2(height)
    ensures Lifts(hash, leaves, height)
  {
    var half := Pow2(height - 1);
    if height == 1 {
      LiftsOnePair(hash, leaves);
    } else if |leaves| <= half {
      TreeOverNextLevel(hash, leaves, height - 1);
      LiftsOneHalf(hash, leaves, height);
    } else {
      TreeOverNextLevel(hash, leaves[..half], height - 1);
      TreeOverNextLevel(hash, leaves[half..], height - 1);
      LiftsBothHalves(hash, leaves[..half], leaves[half..], height);
      assert leaves == leaves[..half] + leaves[half..];
    }
  }

  lemma {:induction false} ClimbIsTree(hash: Hash, leaves: seq<string>)
    requires leaves != []
    ensures |leaves| <= Pow2(Height(|leaves|))
    ensures Climb(hash, leaves) == Tree(hash, leaves, Height(|leaves|))
    decreases |leaves|
  {
    HeightFits(|leaves|);
    if |leaves| <= 1 {
    } else {
      var next := NextLevel(hash, leaves);
      ClimbIsTree(hash, next);
      TreeOverNextLevel(hash, leaves, Height(|leaves|));
    }
  }

  /** The level loop computes the recursive tree over any number of leaves. */
  lemma RootIsTree(hash: Hash, data: string, indexes: seq<string>)
    requires data != "" || indexes != []
    ensures |indexes| + 1 <= Pow2(Height(|indexes| + 1))
    ensures Root(hash, data, indexes) ==
            Tree(hash, HashAll(hash, [data] + indexes), Height(|indexes| + 1))
  {
    ClimbIsTree(hash, HashAll(hash, [data] + indexes));
  }

  /** Small roots written out; the empty block has the text "0". */
  lemma SmallRoots(hash: Hash, d: string, i: string, j: string)
    requires d != ""
    ensures Root(hash, "", []) == "0"
    ensures Root(hash, d, []) == hash(d)
    ensures Root(hash, d, [i]) == hash(hash(d) + hash(i))
    ensures Root(hash, d, [i, j]) == hash(hash(hash(d) + hash(i)) + hash(hash(j)))
  {
    var one, two, three := HashAll(hash, [d] + []), HashAll(hash, [d] + [i]), HashAll(hash, [d] + [i, j]);
    assert one == [hash(d)] && two == [hash(d), hash(i)] && three == [hash(d), hash(i), hash(j)];
    assert NextLevel(hash, []) == [] && NextLevel(hash, [hash(j)]) == [hash(hash(j))];
    OnePair(hash, hash(d), hash(i), []);
    OnePair(hash, hash(d), hash(i), [hash(j)]);
    OnePair(hash, hash(hash(d) + hash(i)), hash(hash(j)), []);
    var above := [hash(hash(d) + hash(i)), hash(hash(j))];
    assert [hash(d), hash(i)] + [hash(j)] == three && [hash(d), hash(i)] + [] == two;
    assert [hash(hash(d) + hash(i)), hash(hash(j))] + [] == above;
    assert NextLevel(hash, two) == [hash(hash(d) + hash(i))] && NextLevel(hash, three) == above;
    assert Climb(hash, two) == Climb(hash, NextLevel(hash, two));
    assert Climb(hash, three) == Climb(hash, above) == Climb(hash, NextLevel(hash, above));
  }

  lemma OnePair(hash: Hash, x: string, y: string, rest: seq<string>)
    ensures NextLevel(hash, [x, y] + rest) == [hash(x + y)] + NextLevel(hash, rest)
  {
    assert ([x, y] + rest)[2..] == rest;
  }
}
