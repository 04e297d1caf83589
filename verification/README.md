# Goud Chain: verified model

A Dafny model of the stateful cores of Goud Chain, a Proof-of-Authority chain
with encrypted per-user data, and proofs of what those cores guarantee over
whole runs. `dafny verify dfyconfig.toml` checks the project.

| Area | Modules |
|---|---|
| Proof-of-Authority network and chain selection | `Config`, `Blocks`, `Ledger`, `Validity`, `Network`, `Forks`, `Convergence`, `NetworkValidity`, `Selection` |
| Hash structures | `Merkle`, `MerkleBinding`, `HashChain` |
| Rate limiter | `RequestCounts`, `CountLoss`, `RateLimits`, `PenaltyLadder`, `PenaltyTable`, `PenaltyBounds` |
| Replay protection | `Nonces`, `Replay` |
| Peers | `PeerWindow`, `Peers`, `Hosts` |
| Storage | `Persistence`, `Reload`, `Migrations`, `MigrationRuns` |
| User data | `Conservation`, `NetworkConservation`, `Lookup`, `AuditLog`, `KeyCache` |
| Shared | `Wrappers`, `Text`, `Lru` |

How to read it. Objects that the source updates in place are classes (`Ledger.Blockchain`,
`RateLimits.RateLimitStore`, `Nonces.NonceStore`, `Persistence.BlockchainStore`,
`Migrations.MigrationRunner`, `KeyCache.SharedCache`, `Peers.P2PNode`,
`PeerWindow.RateLimitTracker`). Each method is proved to move the object's state
exactly as a function on values does, and the theorems about runs are about those
functions. Clocks are parameters, RocksDB is finite maps, and hashing, encoding,
sealing, signature checks and key derivation are function-valued parameters. Nothing
is assumed of them except what a lemma's `requires` says; collision freedom is only
ever asked for on the strings actually hashed.

The main results:

* **No forks.** Honest nodes that create, deliver, repeat, lose and synchronise
  blocks in any order never fork if and only if every height that can be attained
  has a single author (`Forks.ForkFreeIffSoleAuthors`, from `Network.NoForks` and the
  constructed run of `Forks.Fork`); chains never shrink or change (`Network.ChainsOnlyGrow`). When all nodes then
  ask the one with the longest chain they agree if and only if that chain is valid or they agreed before (`Convergence.AgreementIff`).
* **Chain selection.** Every order of the offers ends in the same state if and only if no
  eligible chain outranks the node's own or a single eligible chain is at the top
  (`Selection.OrderIrrelevantIff`); distinct last hashes give the second
  (`Selection.SelectionIsOrderIndependent`), chains that differ in a salt break it
  (`Selection.SaltVariantsDependOnOrder`).
* **One tip hash, one chain.** Equal tips force equal blocks up to salts (`HashChain.TipBindsChain`), for
  any data and any number of blind indexes. Behind it: two Merkle roots are equal if and only if one content
  is a folding of the other, a level of digests read as content (`MerkleBinding.SameRootIff`), and two digests
  are never the Base64 text of a block's container. Folding matters only for reception, which does not read
  the data (`HashChain.FoldedBlockIsReceived`).
* **Validity in the network.** Whatever jitters are drawn, in a network with sole authors every chain is valid
  if and only if every block is made on a later day than the one before it in the network and from a queue
  that verifies (`NetworkValidity.AlwaysValidIff`); two authors on one day can end with an invalid chain,
  whatever the rotation (`NetworkValidity.OneDayFails`).
* **Request counts** never exceed the truth and are exact while the window's keys fit
  the cache (`RequestCounts`); in any run a count is exact if and only if no call of its counter
  missed the cache after a hit, and a miss is decided by how many other counters were used
  since (`CountLoss`). On top of that, over whole runs, what every violation is answered with and for how long
  exactly its ban blocks what (`PenaltyTable.BanLastsExactly`), and the admission bounds (`PenaltyLadder`, `PenaltyBounds`).
* **Replay.** Cache, database and cleanup together answer like one plain map
  (`Nonces.LookupAgreesWithPlainMap`); a request can be accepted again exactly when it
  was not stamped in the past (`Replay.ReplayableIffNotStampedInPast`).
* **Migrations** round-trip, resume after failure like an unbroken run, and keep the
  current schema right (`MigrationRuns`).
* **Restarts.** A restart reloads the chain in memory if and only if no chain was ever taken over
  from a peer (`Reload.ReloadYieldsChainIff`), and its checkpoints if and only if no audit flush
  made a block at a multiple of 100 (`Reload.ReloadYieldsCheckpointsIff`).
* **User data.** Without chain replacement nothing a node takes in is lost (`Conservation.NothingLost`) and an
  owner can list it (`Lookup.EverythingIsListed`). With replacement, every run of the network conserves what was
  submitted if and only if every attainable height has one author
  (`NetworkConservation.ConservesIffSoleAuthors`); otherwise a run ends in a synchronisation after which a
  submitted collection is nowhere (`NetworkConservation.ReplacedBlockIsLost`).
* **Peers.** Reputation and message window bound what one socket address can do (`Peers`). A host uses a new
  port for every connection, so the exact bound for a host is 199 messages per port in any sixty seconds
  (`Hosts.HostBound`, `Hosts.HostBoundIsReached`) and none without counting ports (`Hosts.HostIsUnlimited`).

Where code and documentation differ, the model follows the code:

* `is_valid` checks neither block 0 nor that a block's index is its position
  (`src/domain/blockchain.rs:193`); both appear as explicit hypotheses.
* The jitter can make timestamps decrease, so a chain its own node built may fail
  `is_valid` (`src/domain/block.rs:30-35`); `NetworkValidity.OneDayFails` is such a run and
  `NetworkValidity.AlwaysValidIff` says exactly when there is none.
* The salt of a block is covered by no hash (`HashChain.SaltIsFree`), and a Merkle root is shared
  by the contents and their folding, which has fewer indexes (`MerkleBinding.EveryIndexedRootFolds`).
* A first violation announces a 30-second cooldown (`src/api/rate_limiter.rs:5`) that
  no code enforces: after it the count alone decides (`PenaltyBounds.CooldownIsNotEnforced`), and a run
  is warned and one second later allowed (`PenaltyBounds.WarnedThenAllowed`).
* Reputation and rate limit are described per peer, but the key is the remote socket address with its
  ephemeral port (`src/network/p2p.rs:188`), while synchronisation rewards the configured name
  (`src/network/p2p.rs:146`); the results in `Peers` are per key, those in `Hosts` per host.
* The current schema is described as the newest version, but applying a migration sets it
  to that migration; `MigrationRuns.CurrentSchemaNewestIffAppliedNewest` says when the two agree.
* A replaced chain is never written to the store. After a longer one the next saved block leaves a
  gap and the store does not load (`Reload.LongerReplacementLeavesGap`); after an equally long one
  it loads without error to the old chain with the new block on top
  (`Reload.EqualReplacementReloadsOldChain`).
* Clearing a store of another schema leaves its checkpoints behind, so the start after a fresh start
  loads checkpoints of the cleared chain (`Persistence.SecondStart`).
* The audit flush asks whether the node may create the block after the next one, so with
  two or more distinct validators it never creates a block
  (`AuditLog.FlushNeverSealsUnderRotation`).
* `find_collections_by_owner` skips blocks by blind index and `find_collection` does not, so
  a collection can be found but not listed (`Lookup.FoundButNotListed`).
* `update_audit_index` is never called (`src/storage/audit_log.rs:453-457`), so the audit index is always
  empty today and every query scans; the lemmas about the index say what filling it would need.

## Model

| member | source | states |
|---|---|---|
| `Blocks.IsValid` | src/domain/blockchain.rs:192-241 | no fault is reported exactly when every block after the first passes every check; otherwise the fault is the first one of the first faulty block |
| `Blocks.FaultMeans` | src/domain/blockchain.rs:192-241 | which check a reported fault names and that all earlier checks passed, with the tolerance of four hours and the validator by position in the list |
| `Blocks.DataVerifiesIff` | src/domain/block.rs:221-232 | block data verifies if and only if every collection in its container does |
| `Blocks.GenesisFields` | src/domain/blockchain.rs:54-91 | the first block field by field: 1 January 2024, previous hash "0", the first configured validator, no data |
| `Blocks.StampIsDayPlusJitter` | src/domain/block.rs:30-35 | a block time is the last midnight moved by the jitter |
| `Config.RotationIsConfiguredOrder` | src/config.rs:21-24 | the first heights go to the validators as listed, and heights one round apart to the same one |
| `Config.MappedNodeIsAuthorized` | src/config.rs:27-33 | in the first round a node may create a height if and only if it is mapped to the name at that place of the list |
| `Ledger.Blockchain.constructor` | src/domain/blockchain.rs:54-91 | a new chain holds the genesis block that every node with the configuration shares, and nothing is pending |
| `Ledger.Blockchain.AddAccountWithKey` | src/domain/blockchain.rs:97-101 | the account joins the end of the queue with its key; nothing else changes |
| `Ledger.Blockchain.AddCollection` | src/domain/blockchain.rs:103-108 | the collection joins the end of the queue; nothing else changes |
| `Ledger.Blockchain.AddBlock` | src/domain/blockchain.rs:111-189 | a failure of any of the four kinds changes nothing; success appends one block with all pending data, empties the queues and adds a checkpoint every hundredth index |
| `Ledger.CreateOutcome` | src/domain/blockchain.rs:111-189 | which of the four errors comes, from the queues, the tip, the place in the list and the sealing alone; success exactly when all accounts seal |
| `Ledger.CreatedBlockFields` | src/domain/blockchain.rs:111-189 | the made block field by field, its time from the clock and the jitter, and its hash in the checkpoints exactly at a multiple of 100 |
| `Ledger.Blockchain.ReplaceChain` | src/domain/blockchain.rs:244-340 | the chain is replaced exactly when no checkpoint forbids it, it is preferred and it is valid; a preferred invalid chain is refused with its first fault, and otherwise nothing changes |
| `Ledger.GuardForbidsIff` | src/domain/blockchain.rs:245-255 | the guard forbids exactly the chains no longer than the index of the last checkpoint's block |
| `Ledger.GuardIdle` | src/domain/blockchain.rs:245-255 | without a checkpoint, or with one whose block is gone, it forbids nothing |
| `Ledger.ReceptionMeans` | src/network/p2p.rs:281-355 | each outcome of a reception says that the earlier checks passed (unknown, next index, linked, hash, root) and its own did not |
| `Ledger.TamperedBlockIsNamed` | src/network/p2p.rs:281-355 | of an acceptable block, a changed index, link, hash or data is refused under its own name, a changed salt is not noticed |
| `Ledger.ReceptionIsIdempotent` | src/network/p2p.rs:281-355 | an appended block is known when it comes again |
| `Validity.RunValidIff` | src/domain/blockchain.rs:192-241 | over every run of own and received blocks the chain passes `is_valid` if and only if times ascend within the tolerance, data verifies and validators are due: exactly the checks that creation and reception leave out |
| `Validity.CreateKeepsValidIff` | src/domain/blockchain.rs:111-189 | for one drawn jitter, creating a block keeps a valid chain valid if and only if its time is in order and within tolerance and every queued collection verifies |
| `Validity.CreateAlwaysKeepsValidIff` | src/domain/block.rs:30-35 | every jitter keeps the chain valid if and only if the last block is at least the jitter before today's midnight and the queue verifies |
| `Validity.TwoCreationsOneDayFail` | src/domain/blockchain.rs:111-189 | two creations of one day with decreasing jitter make a chain that is invalid at any time |
| `NetworkValidity.AlwaysValidIff` | src/domain/block.rs:30-35 | over every sequence of submissions, creations, deliveries and synchronisations in a network with sole authors, all jitters give valid chains if and only if each block is made on a later day than the one before it in the network (the genesis day included) and its queue verifies |
| `NetworkValidity.PlayedIsRun` | src/network/p2p.rs:281-384 | moves that name blocks by height and chains by length are runs of the network, whatever the jitters |
| `NetworkValidity.OneDayFails` | src/domain/block.rs:30-35 | when the authors of heights 1 and 2, the same node or not, make their blocks on one day, a run ends with a chain of three blocks that is invalid at any time |
| `Network.NoForks` | src/network/p2p.rs:281-384 | in every reachable state of honest nodes with one author per attainable height, any two chains are prefixes of one another |
| `Network.ChainsOnlyGrow` | src/domain/blockchain.rs:244-340 | what a node holds at one moment is a prefix of what it holds at any later one: no reorganisation |
| `Network.ChainsFollowRotation` | src/domain/blockchain.rs:21-24 | in every reachable chain, sole authors or not, the blocks name the validators in configured order from the genesis block on, and each round repeats |
| `Network.HeldIsOnOffer` | src/network/p2p.rs:388-391 | in every reachable state the chain a node would answer a request with is among those a synchronisation can take |
| `Network.OneNodePerNameSuffices` | src/config.rs:21-33 | at most one node per validator name gives every height a single author |
| `Network.StepKeepsInv` | src/domain/blockchain.rs:111-189 | every creation, delivery and synchronisation keeps one canonical chain of which all chains, snapshots and sent blocks are part |
| `Forks.Fork` | src/config.rs:27-33 | if two nodes may create one attainable height, a run of honest nodes is constructed that ends in a fork |
| `Forks.ForkFreeIffSoleAuthors` | src/config.rs:21-33 | all runs are fork free if and only if every attainable height has one author |
| `Convergence.AgreementIff` | src/network/p2p.rs:120-165 | from every reachable state with sole authors, when all nodes synchronise with the longest chain in any order, all hold it if and only if it is valid or all held it before |
| `Convergence.PartTakesWhole` | src/domain/blockchain.rs:244-340 | a node on a part of a chain takes it over exactly when it is valid, and no checkpoint is in the way |
| `Selection.PrefersIsOutranks` | src/domain/blockchain.rs:268-322 | the branches of the replacement rule are the strict order by length, proper last validator, smaller last hash |
| `Text.LexLessIff` | src/domain/blockchain.rs:317-317 | the order of hashes: a proper prefix comes first, otherwise the smaller character at the first difference decides |
| `Selection.TieGoesToSmallerHash` | src/domain/blockchain.rs:307-322 | of two equally long and equally proper chains the one whose last hash has the smaller character at the first difference is taken over, and is kept when the other is offered |
| `Selection.DueTipWins` | src/domain/blockchain.rs:300-314 | of two equally long chains the one that ends with the validator due by the list wins, whatever the hashes |
| `Selection.GuardNeverDecides` | src/domain/blockchain.rs:245-255 | whatever the checkpoint guard forbids would not have been preferred |
| `Selection.EndsWithTop` | src/domain/blockchain.rs:244-340 | after any sequence of offers the node holds a chain that no eligible chain outranks, and only its chain has changed |
| `Selection.EndsWithBest` | src/domain/blockchain.rs:244-340 | with distinct last hashes the node ends with the one chain that outranks every other eligible one |
| `Selection.SelectionIsOrderIndependent` | src/domain/blockchain.rs:244-340 | with distinct last hashes two sequences with the same set of offers end in the same state |
| `Selection.RankNeverDrops` | src/domain/blockchain.rs:244-340 | offers never lower the rank of the node's chain |
| `Selection.OrderIrrelevantIff` | src/domain/blockchain.rs:244-340 | every permutation of the offers ends in the same state if and only if no eligible chain outranks the node's own or exactly one eligible chain is not outranked; only valid offers need be well formed |
| `Selection.ValidTipIsProper` | src/domain/blockchain.rs:229-238 | a valid chain of more than one block ends with the validator that was due |
| `Selection.SaltVariantsDependOnOrder` | src/domain/blockchain.rs:274-316 | a family where the order matters: of two chains that differ in the last salt the first offered stays |
| `Merkle.CalculateMerkleRoot` | src/domain/block.rs:108-146 | the nested level loops terminate and compute the root function |
| `Merkle.RootIsTree` | src/domain/block.rs:108-146 | for any number of leaves the root is that of the recursively halved tree |
| `Merkle.SmallRoots` | src/domain/block.rs:108-146 | the roots of an empty block and of blocks with none, one and two indexes, written out |
| `MerkleBinding.SameRootIff` | src/domain/block.rs:108-146 | two roots are equal if and only if the contents are equal or one is a repeated folding of the other, for any numbers of indexes |
| `MerkleBinding.RootBinds` | src/domain/block.rs:108-146 | equal roots imply equal data, equal indexes and equal count when neither data is two digests, or when the counts are equal |
| `MerkleBinding.EveryIndexedRootFolds` | src/domain/block.rs:128-143 | the condition is needed: contents with an index share their root with their folding, whose data is two digests and which has fewer indexes |
| `MerkleBinding.TwoDigestsUnfold` | src/domain/block.rs:128-143 | data that is two digests admits another number of indexes |
| `HashChain.HeaderParsesUniquely` | src/domain/block.rs:148-155 | the concatenated header text of two blocks with one index determines timestamp, root, previous hash and validator |
| `HashChain.HeaderByPosition` | src/domain/block.rs:148-155 | the header text by position: the digits of the index, ten digits of the time, 64 characters of the root, 64 of the previous hash, and the validator |
| `Text.NumberOfDecimal` | src/domain/block.rs:148-155 | reading a rendered number back gives the number |
| `HashChain.BlockBinds` | src/domain/block.rs:148-155 | checked blocks of one index share their hash if and only if they agree up to the salt and a folding of the contents |
| `HashChain.TipBindsChain` | src/domain/blockchain.rs:192-241 | equal tip hashes of equally long valid chains imply equal blocks from position 1 on, up to salts, and equal first hashes, when two digests never decode as a container |
| `HashChain.TipBindsUpToFolding` | src/domain/blockchain.rs:192-241 | the same up to salts and foldings, whatever decodes |
| `HashChain.SizesFollow` | src/domain/blockchain.rs:192-241 | in a valid chain with a usual first block every header has the sizes that make it parse in one way |
| `HashChain.FoldedBlockIsRefused` | src/domain/blockchain.rs:192-241 | a folded block in a valid chain is refused by the full check |
| `HashChain.FoldedBlockIsReceived` | src/network/p2p.rs:281-355 | reception treats a folded block exactly like the block itself |
| `HashChain.SaltIsFree` | src/domain/block.rs:148-155 | replacing any salt leaves a valid chain valid |
| `RequestCounts.RenderInjective` | src/storage/rate_limit_store.rs:167-172 | distinct key and window pairs never share a rendered counter key |
| `RequestCounts.RenderByPosition` | src/storage/rate_limit_store.rs:171-171 | the counter key by position: key hash, colon, window |
| `RequestCounts.TrueCountIsCalls` | src/storage/rate_limit_store.rs:167-172 | the true count is the number of calls the key made in that very second |
| `RequestCounts.NeverOvercounts` | src/storage/rate_limit_store.rs:167-235 | in every run the returned count is at least 1 and at most the true number of calls of that key in that window |
| `RequestCounts.CountsExactly` | src/storage/rate_limit_store.rs:167-235 | the count is exact whenever the window's active keys fit in the cache |
| `RequestCounts.OneKeyTooManyUndercounts` | src/storage/rate_limit_store.rs:174-186 | for every capacity a run with one active key more returns 2 for a third call |
| `CountLoss.CachedIff` | src/storage/rate_limit_store.rs:174-235 | a counter is cached if and only if it was used and fewer other counters than the capacity were used since |
| `CountLoss.CountIsTrueLessLost` | src/storage/rate_limit_store.rs:167-235 | in any run the returned count is the true one less the hits that later misses forgot |
| `CountLoss.CountExactIff` | src/storage/rate_limit_store.rs:167-235 | a count is exact if and only if no call of its counter so far missed the cache after a hit |
| `RequestCounts.EvictsOnlyOlderWindows` | src/storage/rate_limit_store.rs:174-235 | while the keys fit, the evicted counter belongs to an older window |
| `RateLimits.RateLimitStore.IncrementRequestCount` | src/storage/rate_limit_store.rs:167-235 | cache and database move as the counting function says, a cache hit leaving the database alone |
| `RateLimits.RateLimitStore.RecordViolation` | src/storage/rate_limit_store.rs:269-301 | one more violation, remembering at most the last five times |
| `RateLimits.RateLimitStore.ApplyBan` | src/storage/rate_limit_store.rs:319-337 | the key's ban becomes the new one with the expiry of its level |
| `RateLimits.RateLimitStore.GetBanStatus` | src/storage/rate_limit_store.rs:340-365 | returns the unexpired ban; an expired one is deleted |
| `RateLimits.RateLimitStore.BanIp` | src/storage/rate_limit_store.rs:368-383 | the address is banned for 24 hours from now |
| `RateLimits.RateLimitStore.IsIpBanned` | src/storage/rate_limit_store.rs:386-413 | answers whether the ban still holds and deletes an expired one |
| `RateLimits.RateLimiter.CheckLimit` | src/api/rate_limiter.rs:70-211 | the verdict and the whole store after it, through every early return |
| `PenaltyLadder.RunOnLadder` | src/api/rate_limiter.rs:103-204 | after every run a key has at most five violations, and a stored ban is exactly the one for their count with its own expiry |
| `PenaltyTable.ViolationIsPenalized` | src/api/rate_limiter.rs:148-204 | over every run the violation that brings a count to 1, 2, 3, 4 or 5 is answered with 30 seconds of cooldown, a write block of 300 seconds, one of 3600, a write ban without end, a blacklisting |
| `PenaltyTable.BanLastsExactly` | src/api/rate_limiter.rs:103-135 | over every ordered run, until the key's next violation: after the second its writes are blocked for exactly 300 seconds, after the third for 3600, after the fourth for good while reads pass, after the fifth everything; the answer names the seconds left, and otherwise the count alone decides |
| `PenaltyTable.GateAnswers` | src/api/rate_limiter.rs:77-101 | a whitelisted key is always allowed and never counted; a banned address is told 86400 seconds |
| `PenaltyTable.GateDropsExpired` | src/storage/rate_limit_store.rs:340-413 | reading the bans drops what has expired for this key and address, and touches nobody else's |
| `PenaltyTable.AllowedAnswers` | src/api/rate_limiter.rs:137-162 | an allowed request is told 10 or 100, what is left of it and the next second |
| `PenaltyTable.RecordKeepsLastFive` | src/storage/rate_limit_store.rs:99-110 | after any violations the record has their number, the last time and the last five times in order |
| `PenaltyLadder.WarnedOnce` | src/api/rate_limiter.rs:164-178 | a key is warned exactly once, with its first violation |
| `PenaltyLadder.CountMonotone` | src/storage/rate_limit_store.rs:269-301 | a violation count never decreases over a run |
| `PenaltyLadder.BlockedForGood` | src/api/rate_limiter.rs:103-135 | after four violations every later write is blocked, after five every later request |
| `PenaltyLadder.WriteBanLasts` | src/storage/rate_limit_store.rs:340-365 | a write ban in force at some moment blocks every later write up to its expiry, whatever happens between |
| `PenaltyLadder.CountersAreCalls` | src/api/rate_limiter.rs:137-145 | the limiter's counters are those of the run of requests that pass the ban checks |
| `PenaltyLadder.AdmittedBound` | src/api/rate_limiter.rs:137-211 | in a window whose active keys fit the cache a key gets at most 10 allowed writes and 100 allowed requests in all |
| `PenaltyBounds.AdmittedBoundWithLoss` | src/api/rate_limiter.rs:137-211 | in every window the same bounds hold plus the calls that the cache has forgotten |
| `PenaltyBounds.AddressBanLasts` | src/storage/rate_limit_store.rs:368-413 | from a key's fifth violation on, every request from its address is blocked for 86400 seconds, whatever happens between |
| `PenaltyBounds.AddressBannedIff` | src/storage/rate_limit_store.rs:368-413 | over every ordered run an address is banned if and only if a fifth violation from it is less than 86400 seconds old |
| `PenaltyBounds.CooldownIsNotEnforced` | src/api/rate_limiter.rs:164-178 | over every run a request with one violation on record and no address ban is allowed if and only if its count is within the limit |
| `PenaltyBounds.WarnedThenAllowed` | src/api/rate_limiter.rs:164-178 | a run in which the eleventh write of a second is warned and the next request one second later is allowed |
| `Nonces.NonceStore.IsNonceUsed` | src/storage/nonce_store.rs:56-108 | answer and state after the cache, expiry and database branches |
| `Nonces.NonceStore.RecordNonce` | src/storage/nonce_store.rs:111-133 | the nonce is stored and cached with its expiry |
| `Nonces.NonceStore.CleanupExpiredNonces` | src/storage/nonce_store.rs:136-171 | exactly the expired stored nonces go, and their number is returned |
| `Nonces.LookupRefines` | src/storage/nonce_store.rs:56-108 | a lookup answers from the represented map and leaves it represented |
| `Nonces.LookupAgreesWithPlainMap` | src/storage/nonce_store.rs:56-171 | after any ordered mix of lookups, records, evictions and cleanups a lookup answers as a plain map of unexpired nonces |
| `Nonces.UsedForFiveMinutes` | src/storage/nonce_store.rs:56-171 | in every ordered run a nonce counts as used for exactly 300 seconds after its last record, and never without one |
| `Nonces.CleanupLeavesFresh` | src/storage/nonce_store.rs:136-171 | over every ordered run a cleanup leaves exactly the nonces recorded less than 300 seconds ago |
| `Nonces.LookupLeaves` | src/storage/nonce_store.rs:56-108 | a lookup puts a used nonce at the front of the cache and leaves an unused one neither cached nor stored |
| `Replay.ValidateRequest` | src/api/request_signature.rs:57-99 | verdict and store after freshness, nonce and signature checks; only an accepted request records its nonce |
| `Replay.AcceptedIff` | src/api/request_signature.rs:57-99 | over every run a request is accepted exactly when it is fresh, signed and its nonce was not accepted in the last 300 seconds |
| `Replay.NonceSpacing` | src/api/request_signature.rs:57-82 | two acceptances of one nonce are at least 300 seconds apart |
| `Replay.NoReplayOfPastStamp` | src/api/request_signature.rs:57-99 | a request stamped before its acceptance time is never accepted again |
| `Replay.MessageParsesUniquely` | src/api/request_signature.rs:46-55 | with payload texts of which neither continues the other and ten-digit stamps the unseparated signed message determines payload, nonce and stamp |
| `Replay.MessageByPosition` | src/api/request_signature.rs:46-55 | the signed message by position: payload text, nonce, ten digits that read as the stamp |
| `Replay.NoReplayOfPastMessage` | src/api/request_signature.rs:46-99 | the same holds of any request that carries the same signed message, under any signature and key |
| `Replay.ReplayableIffNotStampedInPast` | src/api/request_signature.rs:84-99 | a repeated acceptance is possible if and only if the stamp was not before the first acceptance |
| `PeerWindow.RateLimitTracker.CheckAndIncrement` | src/network/p2p.rs:38-57 | answer and new tracker state, with the unsigned difference wrapping around when the clock is behind |
| `PeerWindow.WindowAdmitsFirstHundred` | src/network/p2p.rs:38-57 | each window admits exactly its first hundred calls |
| `PeerWindow.WindowOpensAfterSixtySeconds` | src/network/p2p.rs:38-57 | a window lasts sixty seconds and the first later call opens the next |
| `PeerWindow.BackwardClockOpensWindow` | src/network/p2p.rs:38-57 | a clock that has gone back opens a window, since the difference wraps around |
| `PeerWindow.SpanBound` | src/network/p2p.rs:38-57 | any span of at most 60 seconds admits at most 200 calls |
| `PeerWindow.TwoHundredInTwoSeconds` | src/network/p2p.rs:45-48 | the bound is reached within two seconds around a window change |
| `Peers.P2PNode.HandleNewBlock` | src/network/p2p.rs:281-384 | which of the checks decides, and what becomes of chain, store, checkpoint and reputation |
| `Peers.P2PNode.HandleConnection` | src/network/p2p.rs:210-394 | reputation and message window come first; then the message decides |
| `Peers.P2PNode.SyncWith` | src/network/p2p.rs:120-165 | a replacement is rewarded and not stored; anything else changes nothing |
| `Peers.RequestedChainIsTaken` | src/network/p2p.rs:120-165 | end to end: a peer in good standing that asks for the chain is sent it, and giving it to synchronisation makes it the peer's chain whenever it is valid, preferred and not forbidden |
| `Peers.SyncSettlesRank` | src/network/p2p.rs:120-165 | after the exchange a valid chain of the asked node does not outrank the asking node's |
| `Peers.ReputationIsRecord` | src/network/p2p.rs:210-384 | the reputation of an address is good deeds minus five times bad blocks, and never below -15 |
| `Peers.BadBlocksBounded` | src/network/p2p.rs:212-221 | from one address at most three bad blocks are looked at, plus one per five good deeds |
| `Peers.ExiledAddressHasNoEffect` | src/network/p2p.rs:212-221 | once an address is below the threshold, deleting all its messages from the run changes nothing, as long as no chain is taken over from a peer of that name |
| `Peers.AtMostTwoHundredRead` | src/network/p2p.rs:210-238 | over whole runs at most 200 messages from one address are read in any 60 seconds |
| `Peers.NewAddressBound` | src/network/p2p.rs:223-238 | from an address without a tracker at most 199, since its first message opens the window |
| `Hosts.HostBound` | src/network/p2p.rs:186-238 | a host gets at most 199 messages read in any 60 seconds for every port it uses |
| `Hosts.AddressByPosition` | src/network/p2p.rs:186-190 | an address is the host, a colon and the port |
| `Hosts.HostBoundIsReached` | src/network/p2p.rs:186-238 | for every number of ports a run reaches that bound within two seconds |
| `Hosts.HostIsUnlimited` | src/network/p2p.rs:186-238 | any number of messages of one host are read in one second, each from a port of its own |
| `Hosts.BadBlocksUnlimited` | src/network/p2p.rs:324-355 | any number of bad blocks of one host are looked at, each from a port of its own |
| `Persistence.BlockchainStore.Save` | src/storage/blockchain_store.rs:97-124 | the block goes under its index and the length becomes index + 1 |
| `Persistence.BlockchainStore.Load` | src/storage/blockchain_store.rs:172-228 | the first `length` blocks, or the first missing index |
| `Persistence.BlockchainStore.LoadCheckpoints` | src/storage/blockchain_store.rs:261-292 | the hashes at 100, 200, ... up to the first gap |
| `Persistence.BlockchainStore.Clear` | src/storage/blockchain_store.rs:300-340 | counted blocks and metadata go, checkpoints stay |
| `Persistence.LoadBlockchain` | src/storage/mod.rs:28-96 | a store of the current schema is reloaded unchanged, any other one is cleared and starts from the genesis block |
| `Persistence.SecondStart` | src/storage/mod.rs:28-96 | a second start leaves the store alone and yields the same node, except that after a fresh start it finds checkpoints of the cleared chain, if and only if one is left at 100 |
| `Persistence.ClearKeepsCheckpoints` | src/storage/blockchain_store.rs:300-340 | clearing removes exactly the blocks below the stored length and no checkpoint |
| `Persistence.CheckpointsByPosition` | src/storage/blockchain_store.rs:261-292 | hash number j found from 100 on is the one stored at 100 + 100 * j, and it is found if and only if none before it is missing |
| `Persistence.SaveTruncates` | src/storage/blockchain_store.rs:97-124 | saving at or below the stored length loads as the old prefix plus the block |
| `Persistence.SaveBeyondLengthLeavesGap` | src/storage/blockchain_store.rs:172-228 | saving beyond it loads if and only if older blocks fill the gap |
| `Reload.ReloadYieldsChainIff` | src/storage/mod.rs:60-81 | over every run of own and received blocks and offered chains a restart reloads the chain in memory if and only if no offered chain was taken over |
| `Reload.LongerReplacementLeavesGap` | src/network/p2p.rs:136-143 | after a longer chain was taken over, the next appended block makes the store unloadable, at the old length |
| `Reload.EqualReplacementReloadsOldChain` | src/network/p2p.rs:136-143 | after an equally long one, the store loads to the old chain with the new block, which is not the chain in memory |
| `Reload.ReloadYieldsCheckpointsIff` | src/storage/blockchain_store.rs:261-292 | while no chain is taken over, a restart finds the checkpoints of the whole chain if and only if no audit flush made a block at a multiple of 100 |
| `Reload.RotationSavesAll` | src/storage/audit_log.rs:251-257 | with two or more distinct validators no flush makes a block, so no checkpoint goes unsaved |
| `Reload.ReloadYieldsMemoryIff` | src/storage/mod.rs:60-81 | while no chain is taken over and hashes differ, a restart finds the list of checkpoints in memory if and only if every block at a multiple of 100 was made by the node itself and saved |
| `Conservation.CreateMovesPending` | src/domain/blockchain.rs:111-189 | a created block decodes to exactly the sealed accounts and the collections that were pending, in order |
| `Conservation.NothingLost` | src/domain/blockchain.rs:97-189 | over every run without chain replacement the collections in chain and queue are, as a multiset, those submitted and received |
| `NetworkConservation.NetworkLosesNothing` | src/domain/blockchain.rs:97-340 | over every run of honest nodes with sole authors, synchronisation included, the longest chain and all queues hold, as a multiset, everything submitted |
| `NetworkConservation.ConservesIffSoleAuthors` | src/domain/blockchain.rs:97-340 | in every run some node's chain and all queues hold everything submitted if and only if every attainable height has one author |
| `NetworkConservation.ReplacedBlockIsLost` | src/domain/blockchain.rs:274-340 | where a height has two authors, a run ends in a synchronisation that replaces a block whose collection is then in no chain and no queue, unless the two blocks share their hash |
| `Conservation.FirstInFirstOut` | src/domain/blockchain.rs:97-189 | without received blocks they appear in the order of submission |
| `Conservation.OwnInOrder` | src/domain/blockchain.rs:97-189 | with received blocks, the node's own blocks and then its queue hold the submissions in order |
| `Lookup.GetAccount` | src/domain/block.rs:171-187 | the first envelope of the key hash decides; failing to open it is an error |
| `Lookup.FirstEnvelopeDecides` | src/domain/block.rs:171-187 | the first envelope with the key's hash decides by position, whatever later envelopes hold |
| `Lookup.NoEnvelopeIsMissing` | src/domain/block.rs:171-187 | no account is reported if and only if no envelope has the key's hash |
| `Lookup.SearchedIff` | src/domain/blockchain.rs:349-376 | a block without blind indexes is searched for every key, an indexed one for exactly the keys it was indexed for |
| `Lookup.FindAccountWithHash` | src/domain/blockchain.rs:349-376 | the account of the first searched block that yields one |
| `Lookup.FindCollection` | src/domain/blockchain.rs:378-400 | the first match of the id in the owner's share of the whole chain |
| `Lookup.FirstWithIdIff` | src/domain/blockchain.rs:378-400 | the found collection is the first of the share with the id, and none is found if and only if none has it |
| `Lookup.FindCollectionsByOwner` | src/domain/blockchain.rs:402-425 | the owner's collections of the searched blocks in chain order |
| `Lookup.ListingCompleteIff` | src/domain/blockchain.rs:402-425 | the skipping listing is the full scan if and only if no skipped block holds a collection of the key |
| `Lookup.IndexedListingIsScan` | src/domain/blockchain.rs:378-425 | with proper or empty blind indexes listing and scan agree, and the id search picks from the listing |
| `Lookup.FoundButNotListed` | src/domain/blockchain.rs:378-425 | a block indexed for others hides a collection from the listing but not from the id search |
| `Lookup.AccountLookupExactIff` | src/domain/blockchain.rs:349-376 | the skipping lookup agrees with the scan at every stage of growth if and only if the first block with the account is searched |
| `Lookup.SubmittedIsListed` | src/domain/blockchain.rs:97-189 | over every local run, the owner's listing followed by the owner's queue is what was submitted for that owner, in order |
| `Lookup.EverythingIsListed` | src/domain/blockchain.rs:402-425 | over every run without replacement whose received blocks have no blind indexes, listing and queue are, as a multiset, what was submitted and received for the owner |
| `Lookup.NewAccountIsFound` | src/domain/block.rs:171-187 | after a block is created every key finds its earlier account or else the first one queued under it |
| `Lookup.AccountAnswerIsStable` | src/domain/blockchain.rs:349-376 | later blocks never change an account already found |
| `AuditLog.QueryLogs` | src/storage/audit_log.rs:324-435 | the requested page of the sorted matching entries, with the totals |
| `AuditLog.SortedIsStable` | src/storage/audit_log.rs:415-416 | newest first, entries of one instant in their old order |
| `AuditLog.StableSortUnique` | src/storage/audit_log.rs:415-416 | there is only one such order, whatever the algorithm |
| `AuditLog.PagesCoverEverything` | src/storage/audit_log.rs:418-427 | all pages together are the list; a page is empty exactly from the page count on, and all but the last are full |
| `AuditLog.PagesShowEveryMatch` | src/storage/audit_log.rs:385-435 | read page by page every matching entry appears as often as gathered and no other, in stable newest-first order |
| `AuditLog.ShownIff` | src/storage/audit_log.rs:324-435 | an entry is on some page if and only if a block looked through holds it in a batch of the owner that opens for the key, it is not invalidated or invalidated ones are asked for, its type is the one asked for, and its time is between start and end, both included |
| `AuditLog.IndexedGatherIsScanIff` | src/storage/audit_log.rs:331-382 | gathering by an ascending block index, positions beyond the chain included, equals the full scan if and only if the index is empty or misses no block with entries |
| `AuditLog.AnyIndexGathersAllIff` | src/storage/audit_log.rs:331-382 | an index without repeats in any order gathers the same entries as the scan, as a multiset, under the same condition |
| `AuditLog.FlushSealsIff` | src/storage/audit_log.rs:247-310 | a flush creates a block exactly when the node may create both of the next two heights; otherwise the batch stays queued |
| `AuditLog.FlushNeverSealsUnderRotation` | src/storage/audit_log.rs:251-257 | with two or more distinct validators a flush only queues |
| `Migrations.MigrationRunner.GetAppliedMigrations` | src/storage/migration_store.rs:32-60 | the recorded versions in ascending order, however the store enumerates them |
| `Migrations.VersionByNumber` | src/storage/migration.rs:115-195 | fourteen digits are a version if and only if their value reads as a date from 2020 to 2100 and a time |
| `Text.LexIsNumeric` | src/storage/migration_store.rs:56-56 | digit texts of one length compare as their values do |
| `Migrations.ListIsChronological` | src/storage/migration_store.rs:32-60 | the listing holds every version once, with ascending values |
| `Migrations.NewestIsLatest` | src/storage/migration_store.rs:112-143 | the newest version is the one with the greatest value |
| `Migrations.LaterYearIsNewer` | src/storage/migration_store.rs:56-56 | of two versions the one with the later year is newer |
| `Migrations.IncreasingIsAscending` | src/storage/migration_store.rs:32-60 | sorting the versions has one answer |
| `Migrations.MigrationRunner.ApplyMigration` | src/storage/migration_runner.rs:69-117 | invalid, repeated and failing migrations change nothing; success records the version and sets the current schema |
| `Migrations.ApplyOutcome` | src/storage/migration_runner.rs:69-117 | which error stops a migration, and that success records its description, time and checksum under its version |
| `Migrations.MigrationRunner.GetPendingMigrations` | src/storage/migration_runner.rs:28-62 | the unapplied ones in the given order |
| `Migrations.MigrationRunner.ApplyPendingMigrations` | src/storage/migration_runner.rs:123-146 | pending migrations in order up to the first error |
| `Migrations.MigrationRunner.RollbackMigration` | src/storage/migration_runner.rs:152-188 | success undoes the data, removes the record and points at the newest remaining version |
| `Migrations.RollbackOutcome` | src/storage/migration_runner.rs:152-188 | which error stops a rollback, and which schema a success leaves |
| `Migrations.MigrationRunner.RollbackNewest` | src/storage/migration_runner.rs:194-235 | the newest versions, newest first, up to the first error |
| `Migrations.FindIsFirst` | src/storage/migration_runner.rs:194-235 | of several migrations with one version the first in the list is rolled back |
| `Migrations.RollbackTakesLatest` | src/storage/migration_runner.rs:194-235 | a rollback of several takes the end of the chronological listing, read backwards |
| `MigrationRuns.OneRoundTrip` | src/storage/migration_runner.rs:69-188 | applying a newer migration and rolling it back changes nothing |
| `MigrationRuns.MigrationRoundTrip` | src/storage/migration_runner.rs:123-235 | applying all pending migrations and rolling back as many restores data, records and current schema |
| `MigrationRuns.RollbackPicksAddedIffNewer` | src/storage/migration_runner.rs:194-235 | rolling back as many as were added picks exactly those if and only if all are newer than everything before |
| `MigrationRuns.RecordsPrefix` | src/storage/migration_runner.rs:123-146 | a broken run records exactly a prefix, as the unbroken run would, and reports the error of the next one |
| `MigrationRuns.ResumeEndsLikeUnbrokenRun` | src/storage/migration_runner.rs:28-146 | a stopped run and a later repeat end with the data, versions, current schema and outcome of one unbroken run |
| `MigrationRuns.CurrentSchemaAlwaysApplied` | src/storage/migration_store.rs:76-185 | over every run the current schema is absent if and only if nothing is applied, and otherwise names an applied version |
| `MigrationRuns.CurrentSchemaNewestIffAppliedNewest` | src/storage/migration_store.rs:76-99 | after a migration the current schema is the newest version if and only if that migration is newer than all others |
| `KeyCache.SharedCache.GetKeys` | src/crypto/key_cache.rs:52-146 | keys, cache and counters after hit, expiry, derivation and eviction |
| `KeyCache.SharedCache.Clear` | src/crypto/key_cache.rs:157-162 | back to an empty cache with zero counters |
| `KeyCache.StatisticsAddUp` | src/crypto/key_cache.rs:52-162 | since the last clear misses = size + evictions, hits + misses = lookups, and the size is at most 1000 |
| `KeyCache.DerivedKeysServeFiveMinutes` | src/crypto/key_cache.rs:52-98 | after any run, keys derived at one time answer a repeated lookup if and only if it comes less than 300 seconds later; otherwise they are dropped and derived again |
| `KeyCache.LookupMovesToFront` | src/crypto/key_cache.rs:52-98 | a lookup moves its entry to the front, and a new entry pushes the least recently used of 1000 out |
| `KeyCache.FixedLengthKeysDoNotClash` | src/crypto/key_cache.rs:148-155 | API keys of one length and a collision-free digest never share a cache entry |
| `KeyCache.CacheIsTransparent` | src/crypto/key_cache.rs:52-146 | under any mix of hits, expiry, eviction and clearing every answer holds the derived encryption key and the derived MAC key in their places |

## Left out

- Cryptography and encodings (AES-GCM, SHA-256, BLAKE3, Ed25519, JWT, Base64, bincode, serde): parameters of the model.
- HTTP routes, headers, WebSocket, TCP framing, DNS, timeouts and RocksDB tuning: input and output around the modelled cores.
- Everything under web/ and python/, label patterns, JSON depth, command line: single easy facts or user interface.
- Fixed integer widths: counters, indexes and times are unbounded, so overflow of u32, u64 and i64 is not modelled; Rust's remainder on negative times is.
- Clock: each operation reads the clock once, where the source may read it several times within one call, and clocks never go backwards.
- Concurrency: every operation is one atomic step; check-then-act races and failing store writes are not modelled, except failing migrations.
- Dishonest peers and restarts in the network model: `Network` covers honest nodes only, `Peers` covers what a bad block costs its sender, `Reload` what a restart finds.
- Reload.ReloadYieldsCheckpointsIff: covers runs in which no chain is taken over; after a replacement the stored checkpoints are those of the given-up chain.
- NetworkValidity.AlwaysValidIff: asks that different blocks of a run have different hashes, since reception drops a block whose hash is known, and that all nodes read one clock.
- HashChain.TipBindsChain: asks that the empty text and two digests do not decode; both follow from Base64 and JSON, which are parameters here.
- Reload.ReloadYieldsChainIff: asks that offered chains have index = position over the shared genesis, and that equally long chains with one last hash name equally proper validators, which a hash that covers the validator field gives.
- The blacklist of peers is never filled by the code and is not modelled.
- Pushing audit entries into batches and the interval that triggers a flush; the flush step itself is modelled for one batch.
- Checkpoint saving by the routes is a flag of a run event; forwarding a request to the current validator is not modelled.
- KeyCache.SharedCache.GetKeys: stands for both `get_encryption_key` and `get_mac_key`, which differ only in the key they return, and returns the pair.
- PeerWindow.RateLimitTracker.CheckAndIncrement: models the wrapping subtraction of a release build; a debug build stops the program when the clock is behind the window start.
- Peers.P2PNode.HandleConnection: starts where the message has been read in full.
- AuditLog.QueryLogs: requires a page size of at least 1, since the source divides by it; the stable sort is the library's and is modelled by its unique result.
- Lookup.FindAccountWithHash: a precomputed key hash is used for skipping only, as in the source, so a wrong one can hide an account.
- Replay.ValidateRequest: canonical JSON text of the payload is a field of the request.
