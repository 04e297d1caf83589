/**
 What a Merkle root binds. Hashing pairs of digests is itself hashing of texts, so
 a level read as texts has the same root as the leaves below it. That folding is
 the only ambiguity, and the length of the block data rules it out.
 */
module MerkleBinding {
  import opened Merkle

  /** The texts that combining one level hashes, in order. */
  function PairTexts(level: seq<string>): (texts: seq<string>)
    ensures |texts| == (|level| + 1) / 2
  {
    if |level| == 0 then []
    else if |level| == 1 then [level[0]]
    else [level[0] + level[1]] + PairTexts(level[2..])
  }

  /** The level above the given texts, read as texts again. */
  function Fold(hash: Hash, texts: seq<string>): (folded: seq<string>)
    ensures |folded| == (|texts| + 1) / 2
  {
    PairTexts(HashAll(hash, texts))
  }

  function Summit(hash: Hash, texts: seq<string>): string
    requires texts != []
  {
    Climb(hash, HashAll(hash, texts))
  }

  /** Every string hashed on the way from the texts to their root. */
  function Inputs(hash: Hash, texts: seq<string>): set<string>
    decreases |texts|
  {
    (set s | s in texts) + if |texts| > 1 then Inputs(hash, Fold(hash, texts)) else {}
  }

  function RootInputs(hash: Hash, data: string, indexes: seq<string>): set<string> {
    if data == "" && indexes == [] then {} else Inputs(hash, [data] + indexes)
  }

  /** Folding some number of times takes one list of texts to the other. */
  ghost predicate FoldsTo(hash: Hash, a: seq<string>, b: seq<string>)
    decreases |a|
  {
    a == b || (|a| > 1 && FoldsTo(hash, Fold(hash, a), b))
  }

  // ----- Folding keeps the root -----

  lemma HashAllFront(hash: Hash, first: string, rest: seq<string>)
    ensures HashAll(hash, [first] + rest) == [hash(first)] + HashAll(hash, rest)
  {
  }

  lemma {:induction false} NextLevelHashesPairs(hash: Hash, level: seq<string>)
    ensures NextLevel(hash, level) == HashAll(hash, PairTexts(level))
    decreases |level|
  {
    if |level| > 1 {
      NextLevelHashesPairs(hash, level[2..]);
      HashAllFront(hash, level[0] + level[1], PairTexts(level[2..]));
    } else if |level| == 1 {
      HashAllFront(hash, level[0], []);
    }
  }

  lemma FoldKeepsSummit(hash: Hash, texts: seq<string>)
    requires |texts| > 1
    ensures Summit(hash, Fold(hash, texts)) == Summit(hash, texts)
  {
    NextLevelHashesPairs(hash, HashAll(hash, texts));
  }

  lemma {:induction false} FoldsKeepSummit(hash: Hash, a: seq<string>, b: seq<string>)
    requires a != [] && b != [] && FoldsTo(hash, a, b)
    ensures Summit(hash, a) == Summit(hash, b)
    decreases |a|
  {
    if a != b {
      FoldKeepsSummit(hash, a);
      FoldsKeepSummit(hash, Fold(hash, a), b);
    }
  }

  /** The text is what combining two digests hashes. */
  ghost predicate TwoDigests(hash: Hash, text: string) {
    exists x, y :: text == hash(x) + hash(y)
  }

  /** Folding shortens the list and leaves two digests in front. */
  lemma {:induction false} FoldedShape(hash: Hash, a: seq<string>, b: seq<string>)
    requires FixedLength(hash) && FoldsTo(hash, a, b) && a != b
    ensures 1 <= |b| < |a| && |b[0]| == 2 * HASH_LENGTH && TwoDigests(hash, b[0])
    decreases |a|
  {
    if Fold(hash, a) == b {
      assert b[0] == hash(a[0]) + hash(a[1]);
    } else {
      FoldedShape(hash, Fold(hash, a), b);
    }
  }

  // ----- Equal roots are related by folding -----

  ghost predicate AllDigests(level: seq<string>) {
    forall i :: 0 <= i < |level| ==> |level[i]| == HASH_LENGTH
  }

  /** A pair has 128 characters and a single digest 64, so the texts split in one way. */
  lemma {:induction false} PairTextsParse(a: seq<string>, b: seq<string>)
    requires AllDigests(a) && AllDigests(b) && PairTexts(a) == PairTexts(b)
    ensures a == b
    decreases |a|
  {
    var x, y := PairTexts(a), PairTexts(b);
    assert |x| == |y|;
    if |a| >= 2 && |b| >= 2 {
      assert x[0] == a[0] + a[1] && y[0] == b[0] + b[1];
      assert x[1..] == PairTexts(a[2..]) && y[1..] == PairTexts(b[2..]);
      PairTextsParse(a[2..], b[2..]);
      assert a[0] == x[0][..HASH_LENGTH] == b[0];
      assert a[1] == x[0][HASH_LENGTH..] == b[1];
      assert a == [a[0], a[1]] + a[2..] && b == [b[0], b[1]] + b[2..];
    } else if |a| == 1 || |b| == 1 {
      assert |x[0]| == |y[0]|;
      assert |a| == |b| == 1;
      assert a[0] == x[0] == b[0];
    }
  }

  lemma DigestsParse(hash: Hash, a: seq<string>, b: seq<string>)
    requires CollisionFree(hash, Inputs(hash, a) + Inputs(hash, b)) && HashAll(hash, a) == HashAll(hash, b)
    ensures a == b
  {
    assert |a| == |b|;
    forall i | 0 <= i < |a|
      ensures a[i] == b[i]
    {
      assert a[i] in Inputs(hash, a) && b[i] in Inputs(hash, b);
      assert HashAll(hash, a)[i] == HashAll(hash, b)[i];
    }
  }

  lemma FoldParses(hash: Hash, a: seq<string>, b: seq<string>)
    requires FixedLength(hash) && CollisionFree(hash, Inputs(hash, a) + Inputs(hash, b))
    requires Fold(hash, a) == Fold(hash, b)
    ensures a == b
  {
    PairTextsParse(HashAll(hash, a), HashAll(hash, b));
    DigestsParse(hash, a, b);
  }

  lemma FewerInputs(hash: Hash, some: set<string>, all: set<string>)
    requires some <= all && CollisionFree(hash, all)
    ensures CollisionFree(hash, some)
  {
  }

  lemma FoldInputs(hash: Hash, a: seq<string>, b: seq<string>)
    requires |a| > 1 && CollisionFree(hash, Inputs(hash, a) + Inputs(hash, b))
    ensures CollisionFree(hash, Inputs(hash, Fold(hash, a)) + Inputs(hash, b))
  {
    FewerInputs(hash, Inputs(hash, Fold(hash, a)) + Inputs(hash, b), Inputs(hash, a) + Inputs(hash, b));
  }

  /** Whatever folds to the fold of `a` either is that fold or folds to `a` first. */
  lemma {:induction false} ThroughUnfolded(hash: Hash, b: seq<string>, a: seq<string>)
    requires FixedLength(hash) && CollisionFree(hash, Inputs(hash, b) + Inputs(hash, a))
    requires |a| > 1 && FoldsTo(hash, b, Fold(hash, a))
    ensures b == Fold(hash, a) || FoldsTo(hash, b, a)
    decreases |b|
  {
    if b != Fold(hash, a) {
      if Fold(hash, b) == Fold(hash, a) {
        FoldParses(hash, b, a);
      } else {
        FoldInputs(hash, b, a);
        ThroughUnfolded(hash, Fold(hash, b), a);
      }
    }
  }

  lemma OneSideFolded(hash: Hash, a: seq<string>, b: seq<string>)
    requires FixedLength(hash) && CollisionFree(hash, Inputs(hash, b) + Inputs(hash, a)) && |a| > 1
    requires FoldsTo(hash, Fold(hash, a), b) || FoldsTo(hash, b, Fold(hash, a))
    ensures FoldsTo(hash, a, b) || FoldsTo(hash, b, a)
  {
    if !FoldsTo(hash, Fold(hash, a), b) {
      ThroughUnfolded(hash, b, a);
    }
  }

  lemma {:induction false} SameSummit(hash: Hash, a: seq<string>, b: seq<string>)
    requires FixedLength(hash) && CollisionFree(hash, Inputs(hash, a) + Inputs(hash, b))
    requires a != [] && b != [] && Summit(hash, a) == Summit(hash, b)
    ensures FoldsTo(hash, a, b) || FoldsTo(hash, b, a)
    decreases |a| + |b|
  {
    assert Inputs(hash, a) + Inputs(hash, b) == Inputs(hash, b) + Inputs(hash, a);
    if |a| > 1 {
      FoldKeepsSummit(hash, a);
      FoldInputs(hash, a, b);
      SameSummit(hash, Fold(hash, a), b);
      OneSideFolded(hash, a, b);
    } else if |b| > 1 {
      FoldKeepsSummit(hash, b);
      FoldInputs(hash, b, a);
      SameSummit(hash, Fold(hash, b), a);
      OneSideFolded(hash, b, a);
    } else {
      DigestsParse(hash, a, b);
    }
  }

  // ----- Roots -----

  lemma {:induction false} ClimbLength(hash: Hash, level: seq<string>)
    requires FixedLength(hash) && level != [] && AllDigests(level)
    ensures |Climb(hash, level)| == HASH_LENGTH
    decreases |level|
  {
    if |level| <= 1 {
    } else {
      NextLevelHashesPairs(hash, level);
      ClimbLength(hash, NextLevel(hash, level));
    }
  }

  /** The texts whose root a block carries. */
  function Texts(data: string, indexes: seq<string>): seq<string> {
    [data] + indexes
  }

  /** One of two blocks' contents is a folding of the other's, or they are equal. */
  ghost predicate SameUpToFolding(hash: Hash, data: string, indexes: seq<string>, data': string,
                                  indexes': seq<string>) {
    || FoldsTo(hash, Texts(data, indexes), Texts(data', indexes'))
    || FoldsTo(hash, Texts(data', indexes'), Texts(data, indexes))
  }

  /** Two roots are equal if and only if the contents are equal up to folding. */
  lemma SameRootIff(hash: Hash, data: string, indexes: seq<string>, data': string, indexes': seq<string>)
    requires FixedLength(hash)
    requires CollisionFree(hash, RootInputs(hash, data, indexes) + RootInputs(hash, data', indexes'))
    ensures Root(hash, data, indexes) == Root(hash, data', indexes') <==>
            SameUpToFolding(hash, data, indexes, data', indexes')
  {
    var a, b := Texts(data, indexes), Texts(data', indexes');
    ClimbLength(hash, HashAll(hash, a));
    ClimbLength(hash, HashAll(hash, b));
    assert a == [""] <==> data == "" && indexes == [];
    assert b == [""] <==> data' == "" && indexes' == [];
    if a == [""] || b == [""] {
      if SameUpToFolding(hash, data, indexes, data', indexes') {
        assert a == b by {
          if a != b {
            EmptyIsNoFolding(hash, a, b);
          }
        }
      }
    } else if Root(hash, data, indexes) == Root(hash, data', indexes') {
      SameSummit(hash, a, b);
    } else if FoldsTo(hash, a, b) {
      FoldsKeepSummit(hash, a, b);
    } else if FoldsTo(hash, b, a) {
      FoldsKeepSummit(hash, b, a);
    }
  }

  lemma EmptyIsNoFolding(hash: Hash, a: seq<string>, b: seq<string>)
    requires FixedLength(hash) && a != b && (a == [""] || b == [""])
    ensures !FoldsTo(hash, a, b) && !FoldsTo(hash, b, a)
  {
    if FoldsTo(hash, a, b) {
      FoldedShape(hash, a, b);
    }
    if FoldsTo(hash, b, a) {
      FoldedShape(hash, b, a);
    }
  }

  /** Contents with as many indexes, or with no data that is two digests, are not foldings. */
  ghost predicate Unfolded(hash: Hash, data: string, indexes: seq<string>, data': string, indexes': seq<string>) {
    |indexes| == |indexes'| || (!TwoDigests(hash, data) && !TwoDigests(hash, data'))
  }

  lemma UnfoldedAreEqual(hash: Hash, data: string, indexes: seq<string>, data': string, indexes': seq<string>)
    requires FixedLength(hash) && Unfolded(hash, data, indexes, data', indexes')
    requires SameUpToFolding(hash, data, indexes, data', indexes')
    ensures data == data' && indexes == indexes'
  {
    var a, b := Texts(data, indexes), Texts(data', indexes');
    if a != b {
      if FoldsTo(hash, a, b) {
        FoldedShape(hash, a, b);
      } else {
        FoldedShape(hash, b, a);
      }
    }
    assert data == a[0] && indexes == a[1..];
    assert data' == b[0] && indexes' == b[1..];
  }

  /** Equal roots mean equal data and indexes, the number of indexes included. */
  lemma RootBinds(hash: Hash, data: string, indexes: seq<string>, data': string, indexes': seq<string>)
    requires FixedLength(hash) && Unfolded(hash, data, indexes, data', indexes')
    requires CollisionFree(hash, RootInputs(hash, data, indexes) + RootInputs(hash, data', indexes'))
    requires Root(hash, data, indexes) == Root(hash, data', indexes')
    ensures data == data' && indexes == indexes'
  {
    SameRootIff(hash, data, indexes, data', indexes');
    UnfoldedAreEqual(hash, data, indexes, data', indexes');
  }

  /** The condition is needed: contents with an index share their root with their folding. */
  lemma EveryIndexedRootFolds(hash: Hash, data: string, indexes: seq<string>)
    requires FixedLength(hash) && indexes != []
    ensures var folded := Fold(hash, Texts(data, indexes));
            && 1 <= |folded| <= |indexes| && |folded[0]| == 2 * HASH_LENGTH && TwoDigests(hash, folded[0])
            && Root(hash, folded[0], folded[1..]) == Root(hash, data, indexes)
  {
    var a := Texts(data, indexes);
    var folded := Fold(hash, a);
    FoldKeepsSummit(hash, a);
    assert folded[0] == hash(a[0]) + hash(a[1]);
    assert Texts(folded[0], folded[1..]) == folded;
  }

  /** Data that is two digests admits another number of indexes. */
  lemma TwoDigestsUnfold(hash: Hash, x: string, y: string)
    requires FixedLength(hash)
    ensures Root(hash, hash(x) + hash(y), []) == Root(hash, x, [y])
  {
    EveryIndexedRootFolds(hash, x, [y]);
    var folded := Fold(hash, Texts(x, [y]));
    assert folded == [hash(x) + hash(y)];
  }
}
