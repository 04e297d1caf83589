/**
 Reading a user's data back from the chain. Lookups skip a block whose blind
 indexes rule the user out; the theorems say when skipping loses nothing.
 */
module Lookup {
  import opened Wrappers
  import opened Config
  import opened Blocks
  import opened Ledger
  import Conservation

  // ----- One block -----

  datatype Access<T> = Failed | Found(value: T) | Missing

  /** The first envelope for the key hash decides; failing to open it is an error. */
  function OpenFirst(p: Primitives, envelopes: seq<AccountEnvelope>, apiKey: string, salt: string): Access<Account> {
    if envelopes == [] then Missing
    else if envelopes[0].apiKeyHash == (p.hashKey)(apiKey) then
      match (p.unseal)(envelopes[0], apiKey, salt)
      case None => Failed
      case Some(a) => Found(a)
    else OpenFirst(p, envelopes[1..], apiKey, salt)
  }

  function AccountIn(p: Primitives, b: Block, apiKey: string): Access<Account> {
    match (p.decode)(b.data)
    case None => Failed
    case Some(c) => OpenFirst(p, c.accounts, apiKey, b.salt)
  }

  /** `get_account` */
  method GetAccount(p: Primitives, b: Block, apiKey: string) returns (r: Access<Account>)
    ensures r == AccountIn(p, b, apiKey)
  {
    var keyHash := (p.hashKey)(apiKey);
    var container := (p.decode)(b.data);
    if container.None? {
      return Failed;
    }
    var envelopes := container.value.accounts;
    for i := 0 to |envelopes|
      invariant OpenFirst(p, envelopes[i..], apiKey, b.salt) == OpenFirst(p, envelopes, apiKey, b.salt)
    {
      assert envelopes[i..][1..] == envelopes[i + 1..];
      if envelopes[i].apiKeyHash == keyHash {
        var account := (p.unseal)(envelopes[i], apiKey, b.salt);
        return if account.None? then Failed else Found(account.value);
      }
    }
    return Missing;
  }

  /** The collections of one owner, in order. */
  function Owned(collections: seq<Collection>, keyHash: string): seq<Collection> {
    if collections == [] then []
    else
      var n := |collections| - 1;
      Owned(collections[..n], keyHash) + if collections[n].ownerKeyHash == keyHash then [collections[n]] else []
  }

  lemma {:induction false} OwnedConcat(a: seq<Collection>, b: seq<Collection>, keyHash: string)
    ensures Owned(a + b, keyHash) == Owned(a, keyHash) + Owned(b, keyHash)
  {
    if b == [] {
      assert a + b == a;
    } else {
      var n := |b| - 1;
      assert (a + b)[..|a| + n] == a + b[..n];
      OwnedConcat(a, b[..n], keyHash);
    }
  }

  lemma {:induction false} OwnedMembers(collections: seq<Collection>, keyHash: string, c: Collection)
    ensures c in Owned(collections, keyHash) <==> c in collections && c.ownerKeyHash == keyHash
  {
    if collections == [] {
    } else {
      var n := |collections| - 1;
      assert collections == collections[..n] + [collections[n]];
      OwnedMembers(collections[..n], keyHash, c);
    }
  }

  /** What `get_collections_by_owner` yields; an unreadable block counts as empty. */
  function CollectionsFor(p: Primitives, b: Block, apiKey: string): seq<Collection> {
    Owned(CollectionsOf(p, b), (p.hashKey)(apiKey))
  }

  // ----- The chain -----

  /** The block may hold data of the key hash, going by its blind indexes. */
  predicate Searched(p: Primitives, b: Block, keyHash: string) {
    b.blindIndexes == [] ||
    match (p.accountIndex)(keyHash, b.salt)
    case None => false
    case Some(index) => index in b.blindIndexes
  }

  /** The account in the first searched block that yields one. */
  function FirstAccount(p: Primitives, chain: seq<Block>, apiKey: string, keyHash: string): Option<Account> {
    if chain == [] then None
    else if Searched(p, chain[0], keyHash) && AccountIn(p, chain[0], apiKey).Found? then
      Some(AccountIn(p, chain[0], apiKey).value)
    else FirstAccount(p, chain[1..], apiKey, keyHash)
  }

  /** The reference: every block is opened. */
  function ScanAccount(p: Primitives, chain: seq<Block>, apiKey: string): Option<Account> {
    if chain == [] then None
    else if AccountIn(p, chain[0], apiKey).Found? then Some(AccountIn(p, chain[0], apiKey).value)
    else ScanAccount(p, chain[1..], apiKey)
  }

  /** The collections of the searched blocks, in chain order. */
  function ListedCollections(p: Primitives, chain: seq<Block>, apiKey: string): seq<Collection> {
    if chain == [] then []
    else
      var n := |chain| - 1;
      ListedCollections(p, chain[..n], apiKey) +
      if Searched(p, chain[n], (p.hashKey)(apiKey)) then CollectionsFor(p, chain[n], apiKey) else []
  }

  /** The reference: the owner's share of everything the chain holds. */
  function ScanCollections(p: Primitives, chain: seq<Block>, apiKey: string): seq<Collection> {
    Owned(Conservation.CollectionsIn(p, chain), (p.hashKey)(apiKey))
  }

  function FirstWithId(collections: seq<Collection>, id: string): Option<Collection> {
    if collections == [] then None
    else if collections[0].collectionId == id then Some(collections[0])
    else FirstWithId(collections[1..], id)
  }

  method FindAccountWithHash(p: Primitives, chain: seq<Block>, apiKey: string, keyHash: Option<string>)
    returns (account: Option<Account>)
    ensures account == FirstAccount(p, chain, apiKey, if keyHash.Some? then keyHash.value else (p.hashKey)(apiKey))
  {
    var h := if keyHash.Some? then keyHash.value else (p.hashKey)(apiKey);
    for i := 0 to |chain|
      invariant FirstAccount(p, chain[i..], apiKey, h) == FirstAccount(p, chain, apiKey, h)
    {
      assert chain[i..][1..] == chain[i + 1..];
      if Searched(p, chain[i], h) {
        var r := GetAccount(p, chain[i], apiKey);
        if r.Found? {
          return Some(r.value);
        }
      }
    }
    return None;
  }

  method FindCollectionsByOwner(p: Primitives, chain: seq<Block>, apiKey: string) returns (results: seq<Collection>)
    ensures results == ListedCollections(p, chain, apiKey)
  {
    results := [];
    for i := 0 to |chain|
      invariant results == ListedCollections(p, chain[..i], apiKey)
    {
      assert chain[..i + 1][..i] == chain[..i];
      if Searched(p, chain[i], (p.hashKey)(apiKey)) {
        results := results + CollectionsFor(p, chain[i], apiKey);
      }
    }
    assert chain[..|chain|] == chain;
  }

  /** The first match of the id in the owner's full share; the owner test inside never decides. */
  method FindCollection(p: Primitives, chain: seq<Block>, id: string, apiKey: string)
    returns (found: Option<Collection>)
    ensures found == FirstWithId(ScanCollections(p, chain, apiKey), id)
  {
    for i := 0 to |chain|
      invariant FirstWithId(ScanCollections(p, chain[..i], apiKey), id).None?
    {
      found := FindInBlock(p, chain[i], id, apiKey);
      if found.Some? {
        FoundInBlock(p, chain, i, apiKey, id);
        return;
      }
      ScanStep(p, chain, i, apiKey);
      FirstWithIdConcat(ScanCollections(p, chain[..i], apiKey), CollectionsFor(p, chain[i], apiKey), id);
    }
    assert chain[..|chain|] == chain;
    return None;
  }

  method FindInBlock(p: Primitives, b: Block, id: string, apiKey: string) returns (found: Option<Collection>)
    ensures found == FirstWithId(CollectionsFor(p, b, apiKey), id)
  {
    var keyHash := (p.hashKey)(apiKey);
    var mine := CollectionsFor(p, b, apiKey);
    for j := 0 to |mine|
      invariant FirstWithId(mine[j..], id) == FirstWithId(mine, id)
    {
      assert mine[j..][1..] == mine[j + 1..];
      OwnedMembers(CollectionsOf(p, b), keyHash, mine[j]);
      if mine[j].collectionId == id && mine[j].ownerKeyHash == keyHash {
        return Some(mine[j]);
      }
    }
    return None;
  }

  lemma {:induction false} FirstWithIdConcat(a: seq<Collection>, b: seq<Collection>, id: string)
    ensures FirstWithId(a + b, id) ==
            if FirstWithId(a, id).Some? then FirstWithId(a, id) else FirstWithId(b, id)
  {
    if a == [] {
      assert a + b == b;
    } else {
      assert (a + b)[1..] == a[1..] + b;
      FirstWithIdConcat(a[1..], b, id);
    }
  }

  lemma ScanStep(p: Primitives, chain: seq<Block>, i: nat, apiKey: string)
    requires i < |chain|
    ensures ScanCollections(p, chain[..i + 1], apiKey) ==
            ScanCollections(p, chain[..i], apiKey) + CollectionsFor(p, chain[i], apiKey)
  {
    assert chain[..i + 1] == chain[..i] + [chain[i]];
    Conservation.CollectionsInAppend(p, chain[..i], chain[i]);
    OwnedConcat(Conservation.CollectionsIn(p, chain[..i]), CollectionsOf(p, chain[i]), (p.hashKey)(apiKey));
  }

  /** A match in a block after blocks without one is the first match of the chain. */
  lemma {:induction false} FoundInBlock(p: Primitives, chain: seq<Block>, i: nat, apiKey: string, id: string)
    requires i < |chain| && FirstWithId(ScanCollections(p, chain[..i], apiKey), id).None?
    requires FirstWithId(CollectionsFor(p, chain[i], apiKey), id).Some?
    ensures FirstWithId(ScanCollections(p, chain, apiKey), id) ==
            FirstWithId(CollectionsFor(p, chain[i], apiKey), id)
  {
    ScanStep(p, chain, i, apiKey);
    FirstWithIdConcat(ScanCollections(p, chain[..i], apiKey), CollectionsFor(p, chain[i], apiKey), id);
    MatchStays(p, chain, i + 1, apiKey, id);
  }

  lemma {:induction false} MatchStays(p: Primitives, chain: seq<Block>, n: nat, apiKey: string, id: string)
    requires n <= |chain| && FirstWithId(ScanCollections(p, chain[..n], apiKey), id).Some?
    ensures FirstWithId(ScanCollections(p, chain, apiKey), id) ==
            FirstWithId(ScanCollections(p, chain[..n], apiKey), id)
    decreases |chain| - n
  {
    if n == |chain| {
      assert chain[..n] == chain;
    } else {
      ScanStep(p, chain, n, apiKey);
      FirstWithIdConcat(ScanCollections(p, chain[..n], apiKey), CollectionsFor(p, chain[n], apiKey), id);
      MatchStays(p, chain, n + 1, apiKey, id);
    }
  }

  // ----- What decides a lookup -----

  /** The first envelope with the key's hash decides, whatever later ones hold. */
  lemma {:induction false} FirstEnvelopeDecides(p: Primitives, envelopes: seq<AccountEnvelope>, apiKey: string,
                                                salt: string, k: nat)
    requires k < |envelopes| && envelopes[k].apiKeyHash == (p.hashKey)(apiKey)
    requires forall i :: 0 <= i < k ==> envelopes[i].apiKeyHash != (p.hashKey)(apiKey)
    ensures var account := (p.unseal)(envelopes[k], apiKey, salt);
            OpenFirst(p, envelopes, apiKey, salt) == if account.Some? then Found(account.value) else Failed
    decreases k
  {
    if k > 0 {
      FirstEnvelopeDecides(p, envelopes[1..], apiKey, salt, k - 1);
    }
  }

  lemma {:induction false} NoEnvelopeIsMissing(p: Primitives, envelopes: seq<AccountEnvelope>, apiKey: string,
                                               salt: string)
    ensures OpenFirst(p, envelopes, apiKey, salt) == Missing <==>
            forall i :: 0 <= i < |envelopes| ==> envelopes[i].apiKeyHash != (p.hashKey)(apiKey)
  {
    if envelopes != [] {
      NoEnvelopeIsMissing(p, envelopes[1..], apiKey, salt);
    }
  }

  /** The first match by position, and none exactly when no collection has the id. */
  lemma {:induction false} FirstWithIdIff(collections: seq<Collection>, id: string, c: Collection)
    ensures FirstWithId(collections, id) == Some(c) <==> exists k: nat :: FirstMatch(collections, id, k, c)
    ensures FirstWithId(collections, id).None? <==>
            forall i :: 0 <= i < |collections| ==> collections[i].collectionId != id
  {
    if collections != [] {
      FirstWithIdIff(collections[1..], id, c);
      if collections[0].collectionId == id {
        assert collections[0] == c ==> FirstMatch(collections, id, 0, c);
      } else {
        if k: nat :| FirstMatch(collections[1..], id, k, c) {
          assert FirstMatch(collections, id, k + 1, c);
        }
        if k: nat :| FirstMatch(collections, id, k, c) {
          assert FirstMatch(collections[1..], id, k - 1, c);
        }
      }
    }
  }

  ghost predicate FirstMatch(collections: seq<Collection>, id: string, k: nat, c: Collection) {
    && k < |collections| && collections[k] == c && c.collectionId == id
    && forall i :: 0 <= i < k ==> collections[i].collectionId != id
  }

  /** The block carries the account indexes of exactly these key hashes. */
  ghost predicate IndexesOf(p: Primitives, b: Block, keyHashes: set<string>) {
    && keyHashes != {}
    && (forall h :: h in keyHashes ==> exists x :: (p.accountIndex)(h, b.salt) == Some(x) && x in b.blindIndexes)
    && (forall x :: x in b.blindIndexes ==> exists h :: h in keyHashes && (p.accountIndex)(h, b.salt) == Some(x))
  }

  /** A block without indexes is searched for every key, an indexed one for exactly the keys it was indexed for. */
  lemma SearchedIff(p: Primitives, b: Block, keyHashes: set<string>, keyHash: string)
    requires b.blindIndexes == [] || IndexesOf(p, b, keyHashes)
    requires forall h :: h in keyHashes && (p.accountIndex)(h, b.salt) == (p.accountIndex)(keyHash, b.salt) ==>
                           h == keyHash
    ensures Searched(p, b, keyHash) <==> b.blindIndexes == [] || keyHash in keyHashes
  {
    if b.blindIndexes != [] && keyHash in keyHashes {
      var x :| (p.accountIndex)(keyHash, b.salt) == Some(x) && x in b.blindIndexes;
    }
  }

  // ----- When skipping loses nothing -----

  /** The blind indexes are absent, or name the key whenever the block has data for it. */
  ghost predicate Indexed(p: Primitives, b: Block, apiKey: string) {
    b.blindIndexes == [] ||
    (AccountIn(p, b, apiKey).Found? || CollectionsFor(p, b, apiKey) != [] ==>
       Searched(p, b, (p.hashKey)(apiKey)))
  }

  /** No skipped block has collections of the key. */
  ghost predicate NothingSkipped(p: Primitives, chain: seq<Block>, apiKey: string) {
    forall i :: 0 <= i < |chain| && !Searched(p, chain[i], (p.hashKey)(apiKey)) ==>
                  CollectionsFor(p, chain[i], apiKey) == []
  }

  /** The listing is the owner's full share exactly when no skipped block has a part of it. */
  lemma {:induction false} ListingCompleteIff(p: Primitives, chain: seq<Block>, apiKey: string)
    ensures |ListedCollections(p, chain, apiKey)| <= |ScanCollections(p, chain, apiKey)|
    ensures ListedCollections(p, chain, apiKey) == ScanCollections(p, chain, apiKey) <==>
            NothingSkipped(p, chain, apiKey)
  {
    if chain == [] {
    } else {
      var n := |chain| - 1;
      ListingCompleteIff(p, chain[..n], apiKey);
      ScanStep(p, chain, n, apiKey);
      assert chain[..n + 1] == chain;
      NothingSkippedStep(p, chain, apiKey);
      PartsAgree(ListedCollections(p, chain[..n], apiKey), ScanCollections(p, chain[..n], apiKey),
                 CollectionsFor(p, chain[n], apiKey), Searched(p, chain[n], (p.hashKey)(apiKey)));
    }
  }

  lemma NothingSkippedStep(p: Primitives, chain: seq<Block>, apiKey: string)
    requires chain != []
    ensures var n := |chain| - 1;
            NothingSkipped(p, chain, apiKey) <==>
            && NothingSkipped(p, chain[..n], apiKey)
            && (Searched(p, chain[n], (p.hashKey)(apiKey)) || CollectionsFor(p, chain[n], apiKey) == [])
  {
    var n := |chain| - 1;
    assert forall i :: 0 <= i < n ==> chain[..n][i] == chain[i];
  }

  /** Appending a part to the longer sequence, and perhaps to the shorter one. */
  lemma PartsAgree<T>(shorter: seq<T>, longer: seq<T>, part: seq<T>, both: bool)
    requires |shorter| <= |longer|
    ensures var extended := shorter + if both then part else [];
            && |extended| <= |longer + part|
            && (extended == longer + part <==> shorter == longer && (both || part == []))
  {
    if both {
      SameSuffix(shorter, longer, part);
    } else if part != [] {
      assert |shorter + []| < |longer + part|;
    } else {
      assert shorter + [] == shorter && longer + part == longer;
    }
  }

  lemma SameSuffix<T>(a: seq<T>, b: seq<T>, c: seq<T>)
    ensures a + c == b + c <==> a == b
  {
    if a + c == b + c {
      assert |a| == |b|;
      assert a == (a + c)[..|a|] == (b + c)[..|b|] == b;
    }
  }

  /** With proper indexes the listing is the full scan and `FindCollection` picks from it. */
  lemma IndexedListingIsScan(p: Primitives, chain: seq<Block>, apiKey: string, id: string)
    requires forall i :: 0 <= i < |chain| ==> Indexed(p, chain[i], apiKey)
    ensures ListedCollections(p, chain, apiKey) == ScanCollections(p, chain, apiKey)
    ensures FirstWithId(ScanCollections(p, chain, apiKey), id) ==
            FirstWithId(ListedCollections(p, chain, apiKey), id)
  {
    ListingCompleteIff(p, chain, apiKey);
  }

  /** A block indexed for others only hides its data from the listing, not from `FindCollection`. */
  lemma FoundButNotListed(p: Primitives, b: Block, apiKey: string)
    requires !Searched(p, b, (p.hashKey)(apiKey)) && CollectionsFor(p, b, apiKey) != []
    ensures FirstWithId(ScanCollections(p, [b], apiKey), CollectionsFor(p, b, apiKey)[0].collectionId).Some?
    ensures ListedCollections(p, [b], apiKey) == []
  {
    ScanStep(p, [b], 0, apiKey);
    assert [b][..1] == [b] && [b][..0] == [];
    assert ScanCollections(p, [], apiKey) == [];
    assert ScanCollections(p, [b], apiKey) == CollectionsFor(p, b, apiKey);
  }

  /** The position of the first block that yields an account, or the chain's length. */
  function FirstHolder(p: Primitives, chain: seq<Block>, apiKey: string): (k: nat)
    ensures k <= |chain| && forall i :: 0 <= i < k ==> !AccountIn(p, chain[i], apiKey).Found?
    ensures k < |chain| ==> AccountIn(p, chain[k], apiKey).Found?
  {
    if chain == [] || AccountIn(p, chain[0], apiKey).Found? then 0
    else 1 + FirstHolder(p, chain[1..], apiKey)
  }

  lemma {:induction false} LookupsFromHolder(p: Primitives, chain: seq<Block>, apiKey: string, keyHash: string)
    ensures var k := FirstHolder(p, chain, apiKey);
            if k == |chain| then
              ScanAccount(p, chain, apiKey).None? && FirstAccount(p, chain, apiKey, keyHash).None?
            else
              && ScanAccount(p, chain, apiKey) == Some(AccountIn(p, chain[k], apiKey).value)
              && (Searched(p, chain[k], keyHash) ==>
                    FirstAccount(p, chain, apiKey, keyHash) == ScanAccount(p, chain, apiKey))
              && (!Searched(p, chain[k], keyHash) ==>
                    FirstAccount(p, chain, apiKey, keyHash) == FirstAccount(p, chain[k + 1..], apiKey, keyHash))
  {
    if chain != [] && !AccountIn(p, chain[0], apiKey).Found? {
      LookupsFromHolder(p, chain[1..], apiKey, keyHash);
      var k := FirstHolder(p, chain, apiKey);
      if k < |chain| {
        assert chain[1..][k..] == chain[k + 1..];
      }
    }
  }

  /**
   At every stage of the chain's growth the skipping lookup gives the scan's answer
   exactly when the first block with the account is searched.
   */
  lemma AccountLookupExactIff(p: Primitives, chain: seq<Block>, apiKey: string, keyHash: string)
    ensures (forall n :: 0 <= n <= |chain| ==>
                           FirstAccount(p, chain[..n], apiKey, keyHash) == ScanAccount(p, chain[..n], apiKey)) <==>
            var k := FirstHolder(p, chain, apiKey);
            k < |chain| ==> Searched(p, chain[k], keyHash)
  {
    var k := FirstHolder(p, chain, apiKey);
    forall n | 0 <= n <= |chain|
      ensures FirstHolder(p, chain[..n], apiKey) == if k < n then k else n
    {
      HolderOfPrefix(p, chain, n, apiKey);
    }
    if k < |chain| && !Searched(p, chain[k], keyHash) {
      var upTo := chain[..k + 1];
      LookupsFromHolder(p, upTo, apiKey, keyHash);
      assert upTo[k + 1..] == [];
      assert FirstAccount(p, upTo, apiKey, keyHash) != ScanAccount(p, upTo, apiKey);
    } else {
      forall n | 0 <= n <= |chain|
        ensures FirstAccount(p, chain[..n], apiKey, keyHash) == ScanAccount(p, chain[..n], apiKey)
      {
        LookupsFromHolder(p, chain[..n], apiKey, keyHash);
      }
    }
  }

  lemma {:induction false} HolderOfPrefix(p: Primitives, chain: seq<Block>, n: nat, apiKey: string)
    requires n <= |chain|
    ensures var k := FirstHolder(p, chain, apiKey);
            FirstHolder(p, chain[..n], apiKey) == if k < n then k else n
  {
    if n > 0 && !AccountIn(p, chain[0], apiKey).Found? {
      assert chain[..n][1..] == chain[1..][..n - 1];
      HolderOfPrefix(p, chain[1..], n - 1, apiKey);
    }
  }

  // ----- What is submitted can be read back -----

  ghost predicate Unindexed(chain: seq<Block>) {
    forall i :: 0 <= i < |chain| ==> chain[i].blindIndexes == []
  }

  lemma {:induction false} LocalRunUnindexed(p: Primitives, cfg: ValidatorConfig, id: string,
                                             events: seq<Conservation.Event>)
    requires Valid(cfg) && forall i :: 0 <= i < |events| ==> !events[i].Arrive?
    ensures Unindexed(Conservation.Run(p, cfg, id, events).chain)
  {
    if events == [] {
    } else {
      LocalRunUnindexed(p, cfg, id, events[..|events| - 1]);
    }
  }

  /** Over every local run: what an owner can list, then the queue, is what was submitted, in order. */
  lemma SubmittedIsListed(p: Primitives, cfg: ValidatorConfig, id: string, events: seq<Conservation.Event>,
                          apiKey: string)
    requires Valid(cfg) && Conservation.RoundTrips(p)
    requires forall i :: 0 <= i < |events| ==> !events[i].Arrive?
    ensures var s := Conservation.Run(p, cfg, id, events);
            ListedCollections(p, s.chain, apiKey) + Owned(s.collections, (p.hashKey)(apiKey)) ==
            Owned(Conservation.Submitted(events), (p.hashKey)(apiKey))
  {
    var s := Conservation.Run(p, cfg, id, events);
    Conservation.FirstInFirstOut(p, cfg, id, events);
    LocalRunUnindexed(p, cfg, id, events);
    ListingCompleteIff(p, s.chain, apiKey);
    OwnedConcat(Conservation.CollectionsIn(p, s.chain), s.collections, (p.hashKey)(apiKey));
  }

  lemma {:induction false} OwnedCount(collections: seq<Collection>, keyHash: string)
    ensures forall c :: multiset(Owned(collections, keyHash))[c] ==
                        if c.ownerKeyHash == keyHash then multiset(collections)[c] else 0
  {
    if collections == [] {
    } else {
      var n := |collections| - 1;
      assert collections == collections[..n] + [collections[n]];
      OwnedCount(collections[..n], keyHash);
    }
  }

  /** Every received block comes without blind indexes, as honest nodes make them. */
  ghost predicate ArriveUnindexed(events: seq<Conservation.Event>) {
    forall i :: 0 <= i < |events| && events[i].Arrive? ==> events[i].block.blindIndexes == []
  }

  lemma {:induction false} RunUnindexed(p: Primitives, cfg: ValidatorConfig, id: string,
                                        events: seq<Conservation.Event>)
    requires Valid(cfg) && ArriveUnindexed(events)
    ensures Unindexed(Conservation.Run(p, cfg, id, events).chain)
  {
    if events == [] {
    } else {
      RunUnindexed(p, cfg, id, events[..|events| - 1]);
    }
  }

  /** Over every run without replacement: what an owner can list and the queue are what came in for the owner. */
  lemma EverythingIsListed(p: Primitives, cfg: ValidatorConfig, id: string, events: seq<Conservation.Event>,
                           apiKey: string)
    requires Valid(cfg) && Conservation.RoundTrips(p) && ArriveUnindexed(events)
    ensures var s, keyHash := Conservation.Run(p, cfg, id, events), (p.hashKey)(apiKey);
            multiset(ListedCollections(p, s.chain, apiKey)) + multiset(Owned(s.collections, keyHash)) ==
            multiset(Owned(Conservation.Submitted(events), keyHash)) +
            multiset(Owned(Conservation.Received(p, cfg, id, events), keyHash))
  {
    var s, keyHash := Conservation.Run(p, cfg, id, events), (p.hashKey)(apiKey);
    RunUnindexed(p, cfg, id, events);
    ListingCompleteIff(p, s.chain, apiKey);
    Conservation.NothingLost(p, cfg, id, events);
    OwnedSums(Conservation.CollectionsIn(p, s.chain), s.collections, Conservation.Submitted(events),
              Conservation.Received(p, cfg, id, events), keyHash);
  }

  lemma OwnedSums(a: seq<Collection>, b: seq<Collection>, c: seq<Collection>, d: seq<Collection>, keyHash: string)
    requires multiset(a) + multiset(b) == multiset(c) + multiset(d)
    ensures multiset(Owned(a, keyHash)) + multiset(Owned(b, keyHash)) ==
            multiset(Owned(c, keyHash)) + multiset(Owned(d, keyHash))
  {
    OwnedCount(a, keyHash);
    OwnedCount(b, keyHash);
    OwnedCount(c, keyHash);
    OwnedCount(d, keyHash);
    forall x: Collection
      ensures (multiset(Owned(a, keyHash)) + multiset(Owned(b, keyHash)))[x] ==
              (multiset(Owned(c, keyHash)) + multiset(Owned(d, keyHash)))[x]
    {
      assert (multiset(a) + multiset(b))[x] == (multiset(c) + multiset(d))[x];
    }
  }

  /** Envelopes carry the hash of their key and open with that key under the same salt. */
  ghost predicate SealsOpen(p: Primitives) {
    forall a, k, salt :: (p.seal)(a, k, salt).Some? ==>
                           var e := (p.seal)(a, k, salt).value;
                           e.apiKeyHash == (p.hashKey)(k) && (p.unseal)(e, k, salt) == Some(a)
  }

  /** The first pending account registered under the key. */
  function FirstPending(pending: seq<PendingAccount>, apiKey: string): Access<Account> {
    if pending == [] then Missing
    else
      var n := |pending| - 1;
      match FirstPending(pending[..n], apiKey)
      case Found(a) => Found(a)
      case _ => if pending[n].apiKey == apiKey then Found(pending[n].account) else Missing
  }

  lemma {:induction false} OpenFirstAppend(p: Primitives, envelopes: seq<AccountEnvelope>, e: AccountEnvelope,
                                           apiKey: string, salt: string)
    ensures var before := OpenFirst(p, envelopes, apiKey, salt);
            OpenFirst(p, envelopes + [e], apiKey, salt) ==
            if before.Missing? then OpenFirst(p, [e], apiKey, salt) else before
  {
    if envelopes == [] {
      assert envelopes + [e] == [e];
    } else {
      assert (envelopes + [e])[1..] == envelopes[1..] + [e];
      OpenFirstAppend(p, envelopes[1..], e, apiKey, salt);
    }
  }

  lemma {:induction false} SealedOpens(p: Primitives, pending: seq<PendingAccount>, apiKey: string, salt: string)
    requires SealsOpen(p) && SealAll(p, pending, salt).Some?
    requires forall i :: 0 <= i < |pending| && (p.hashKey)(pending[i].apiKey) == (p.hashKey)(apiKey) ==>
                           pending[i].apiKey == apiKey
    ensures OpenFirst(p, SealAll(p, pending, salt).value, apiKey, salt) == FirstPending(pending, apiKey)
  {
    if pending == [] {
    } else {
      var n := |pending| - 1;
      SealedOpens(p, pending[..n], apiKey, salt);
      var e := (p.seal)(pending[n].account, pending[n].apiKey, salt).value;
      OpenFirstAppend(p, SealAll(p, pending[..n], salt).value, e, apiKey, salt);
    }
  }

  /** A block made from the queue gives every key the first account queued under it. */
  lemma NewAccountIsFound(p: Primitives, cfg: ValidatorConfig, id: string, s: Node, d: Draw, apiKey: string)
    requires Valid(cfg) && Conservation.RoundTrips(p) && SealsOpen(p) && CreateBlock(p, cfg, id, s, d).Ok?
    requires forall i :: 0 <= i < |s.accounts| && (p.hashKey)(s.accounts[i].apiKey) == (p.hashKey)(apiKey) ==>
                           s.accounts[i].apiKey == apiKey
    ensures var chain := CreateBlock(p, cfg, id, s, d).value.chain;
            var before := FirstAccount(p, s.chain, apiKey, (p.hashKey)(apiKey));
            FirstAccount(p, chain, apiKey, (p.hashKey)(apiKey)) ==
            if before.Some? then before
            else match FirstPending(s.accounts, apiKey)
                 case Found(a) => Some(a)
                 case _ => None
  {
    var s' := CreateBlock(p, cfg, id, s, d).value;
    var b := s'.chain[|s.chain|];
    Conservation.CreateMovesPending(p, cfg, id, s, d);
    SealedOpens(p, s.accounts, apiKey, d.salt);
    assert s'.chain == s.chain + [b];
    AccountAnswerIsStable(p, s.chain, [b], apiKey, (p.hashKey)(apiKey));
  }

  /** Later blocks never change an answer already found. */
  lemma {:induction false} AccountAnswerIsStable(p: Primitives, chain: seq<Block>, more: seq<Block>,
                                                 apiKey: string, keyHash: string)
    ensures var before := FirstAccount(p, chain, apiKey, keyHash);
            FirstAccount(p, chain + more, apiKey, keyHash) ==
            if before.Some? then before else FirstAccount(p, more, apiKey, keyHash)
  {
    if chain == [] {
      assert chain + more == more;
    } else {
      assert (chain + more)[1..] == chain[1..] + more;
      AccountAnswerIsStable(p, chain[1..], more, apiKey, keyHash);
    }
  }
}
