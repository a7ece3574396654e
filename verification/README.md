# Verified model of the sharded chain's protocol core

The program is a node of a sharded blockchain: one beacon chain and several shard chains that exchange blocks, validators and
coins. This project models the parts of it whose correctness rests on several functions working together, and proves what
they are for. `dafny verify dfyconfig.toml` checks everything.

## Validator rotation

The beacon and each shard keep their own copies of a committee and of a queue of pending validators. The copies stay in step only
through the `assign`, `random`, `swap` and `stake` instructions that blocks carry.

- `Text`, `Lists`, `Blocks`: comma-separated key lists, list facts, what blocks carry.
- `Validators`: `SwapValidator` and `RemoveValidator`. `Beacon`, `BeaconProducer`: the beacon's best state, its update and its
  instruction producer. `Shard`: a shard's best state, its update and the swap part of block production.
- `Rotation`, `RotationBeacon`, `RotationRuns`: both sides as one asynchronous system with blocks in flight in both directions. The
  main results are `RunsAgree`, `RunsConserve`, `CatchingUp` and `GenesisEstablishes`. None assumes anything of the digest:
  `RunsConserve` accounts for the candidates that a shuffle drops when two digests coincide. They also hold when a key is listed
  twice, which happens exactly when one beacon block takes two requests for an unlisted key (`ListedOnce`, `StakedInTwoBlocks`):
  the producer filters every shard block's requests by itself.

`RemoveValidator` advances its index while it re-slices, so it removes a prefix correctly exactly when at most one key is removed
(`RemoveCutsPrefix`). With an offset of one this is all the program needs, and the run theorems show that it never errs.

## Delivery between shards

- `NextHeights`: the beacon's linked list of heights for every ordered pair of shards.
- `CrossShardPool`, `CrossShardOrder`: the receiving pool and what it keeps. Promotion slices by a count, so it takes the wrong blocks
  when a block off the list lies between two blocks on it; `PromotesRightOnes` gives the exact condition and `WrongBlockPromoted`
  an input.
- `CrossShardBlocks`: the producer's walk and the verifier's loop. The pool admits a block on its signature (`signed`); the producer
  and the verifier also check its content (`Verifies`).
- `DeliveryRuns`: whole runs, with `DeliveredInOrder`, `NoGapsInRuns` and `RefreshedPoolIsTaken`. The check before signing and the
  insertion are separate steps; what the check accepted stays acceptable whatever pool and beacon do until a block is inserted
  (`AcceptanceSurvives`). The update of a body whose swaps run panics exactly when it lists a sender with no transactions, and the
  check lets such a sender through exactly when the pool has a valid block of it (`AcceptedBodyPanics`).
- `DeliveryStalls`: once the valid list has passed over a sender's next confirmed height, nothing more is ever taken over from that
  sender, whatever happens while the node runs (`StalledForGood`, `StalledOffersNothing`). A refresh stalls a sender exactly when it
  has no valid block left and a pending block lies in a gap behind a height that the pending list reaches (`UpdateStalls`,
  `ReceptionStalls`); a run from the start gets there (`StallIsReached`), and a pool without gaps never (`NoGapNoStall`).
- `Merkle`, `CrossShardContent`: the array-shaped Merkle tree, its paths, and the content a header binds. The header's hash leaves out
  outputs of return-staking transactions while the extraction includes them. A created block verifies when none of those outputs
  goes to its receiver (`StakingAtHomeVerifies`, for every hash function), and otherwise only when two different strings, of the
  few that are hashed for this block, have one hash (`CreatedBlockVerifies`).

## Fee estimation

`FeeBins`, `FeeUndo`, `FeeHistory`, `FeeRegister`, `FeeRuns`, `FeeEstimator`: the estimator and its undo stack. `FeeEstimates`: the
estimates. `Codec`, `FeeStorage`, `FeeSaving`: the binary form. A block that fails half-way has moved the height without pushing
anything, after which taking back the block below it panics exactly when that block dropped more from some bin than the failed one
added there (`UndoAfterFailedBlock`).

## Block pools

`BeaconPool` and `ShardToBeaconPool`. The beacon's check that a shard's heights step by one ends before the last pair
(`CheckMissesLastPair`); what the pool offers steps by one throughout. The heights it asks for include the first one it already has
(`WantedIs`).

## Algebra

`Modular`, `Polynomials`: division over the integers and modulo a number. `MultiSig`: combined Schnorr signatures. `Knapsack`: the coin
selection table; with coins without value its choice is not always the largest (`OptimalForPositive`).

Where a comment of the source and its code disagree, the model follows the code: `generateCommonParams` is described as hashing the
key, R and data, but reads their bytes as a number modulo the order (privacy/schnorrmultisig.go:218-223); a mined mark is described
as zero for an unmined transaction, but is 0x7fffffff (mempool/estimatefee.go:75-77).

Go maps that are ranged over are ranged over in an arbitrary order here, with `:|`. Where an object of the source is updated in place,
a class carries its fields; its methods are proved equal to functions on a value of the same fields, and invariants and whole runs are
proved about those functions. Lemmas whose names end in `Exactly`, `Is` or `Are` say in plain terms when such a function accepts and
what it returns.

## Model

| member | source | states |
|---|---|---|
| Text.SplitJoin | blockchain/beaconproducer.go:260-270 | Splitting a joined list of comma-free keys gives the list back. |
| Validators.SwapValidator | blockchain/beaconprocess.go:862-914 | For every committee size and offset: free places are filled first, then the longest-serving members give way, with the source's errors and panics. |
| Validators.SwapIsAQueue | blockchain/beaconprocess.go:862-914 | Leaving members, committee and pending list together are the old committee and pending list in the old order. |
| Validators.SwapExactly | blockchain/beaconprocess.go:862-916 | For every input: when a swap panics, when it is refused and what it then returns. |
| Validators.IncomingIsComplete | blockchain/beaconprocess.go:889-897 | The returned incoming list names everyone who joined if and only if no place was filled before the exchange. |
| Validators.RemoveFromSucceeds | blockchain/beaconprocess.go:924-938 | The exact lists for which removal succeeds, given that the index moves on while the list shrinks. |
| Validators.RemoveCutsPrefix | blockchain/beaconprocess.go:924-938 | Removing a prefix works if and only if the prefix has at most one key. |
| Validators.RemovePanicsExactly | blockchain/beaconprocess.go:924-938 | Removal panics if and only if all keys before some key match and that key is looked for behind the end. |
| Beacon.AssignedAt | blockchain/beaconprocess.go:816-858 | Every shard receives exactly the candidates that hash to it, in order, behind what it had. |
| Beacon.DealtByDigest | blockchain/beaconprocess.go:816-858 | A shard newly receives, in order, those candidates whose digest has the shard as its last byte modulo the number of shards. |
| Beacon.ShuffleKeepsCandidates | blockchain/beaconprocess.go:946-964 | Shuffling returns a permutation if and only if no two candidates share a digest. |
| Beacon.SwapsRunExactly | blockchain/beaconprocess.go:612-652 | A swap instruction runs if and only if its incoming keys can be cut off the shard's pending list and its outgoing ones off the enlarged committee; no other list changes. |
| Beacon.UpdateFails | blockchain/beaconprocess.go:586-706 | The update panics when a listed shard has no block; otherwise, once the instructions are processed, if and only if it is the genesis block and names too few keys. |
| Beacon.BestStateBeacon.Update | blockchain/beaconprocess.go:545-791 | The whole update of the beacon's state, for every block, including where it errs or panics. |
| BeaconProducer.GetValidStakers | blockchain/beaconproducer.go:310-325 | Keeps exactly the requested keys that the beacon does not list anywhere. |
| BeaconProducer.BeaconSwapExactly | blockchain/beaconproducer.go:258-270 | The beacon asks for its own swap if and only if a key is pending and the committee can take it; a member leaves only a full committee. |
| BeaconProducer.GenerateInstruction | blockchain/beaconproducer.go:242-308 | The instructions of a beacon block: the stability instructions given, shard swaps in shard order, own swap, stakes, random number and assignments. |
| Shard.BestStateShard.Update | blockchain/shardprocess.go:566-676 | The whole update of a shard's lists and best cross-shard heights, with its errors and panics. |
| Shard.UpdateNeedsNames | blockchain/shardprocess.go:643-672 | With a full committee and readable keys: the update runs if and only if the block's swaps name the next pending keys and the longest-serving members, in order, and no listed sender lacks transactions; it errs if and only if they name others; and what the lists then are. |
| Shard.OnlyTheNextSwap | blockchain/shardprocess.go:659-664 | A block with one swap runs if and only if it names the first pending key and the first member, and errs otherwise. |
| Shard.HeightsAfter | blockchain/shardprocess.go:669-672 | The best height of each listed sender is that of its last transaction; the others keep theirs. |
| Shard.NewBlockShard | blockchain/shardproducer.go:63-93 | The swap a shard's block asks for, or that no block can be made. |
| Shard.NoBlockExactly | blockchain/shardproducer.go:63-93 | No block can be made if and only if a swap is due and the committee cannot take it. |
| Rotation.ReplaySwaps | blockchain/beaconprocess.go:612-652 | The beacon's replay of one-for-one swaps removes them from the head of its queue and rotates its committee copy without an error. |
| Rotation.OwnSwapAccepted | blockchain/shardprocess.go:643-668 | A shard with a full committee finds its own swap instruction correct. |
| Rotation.ShardStepKeeps | blockchain/shardprocess.go:566-676 | A shard's step from any reachable state succeeds and keeps the agreement with the beacon. |
| RotationBeacon.DrawsOnce | blockchain/beaconproducer.go:276-306 | On schedule, the number is drawn exactly in the block after the snapshot. |
| RotationBeacon.AssignmentsRead | blockchain/shardutils.go:19-31 | Reading the assign instructions back, whatever their order, gives every shard its own candidates. |
| RotationBeacon.BeaconStepConserves | blockchain/beaconprocess.go:698-770 | A beacon step changes the multiset of listed keys by accepted stakers, members swapped out and candidates the shuffle dropped, and it drops none if and only if their digests differ; the snapshot overwrites only empty lists. |
| RotationBeacon.BeaconStepKeeps | blockchain/beaconprocess.go:612-770 | A beacon step never errs and keeps agreement, schedule and full committees of valid keys, whatever the digests and the requests. |
| RotationBeacon.StaysDisjoint | blockchain/beaconproducer.go:310-325 | From a state that lists nobody twice a beacon step leads to another if and only if no unlisted key is requested twice in the block. |
| RotationBeacon.StakedInTwoBlocks | blockchain/beaconproducer.go:383-430 | Two shard blocks that stake the same unlisted key make one beacon block list it twice. |
| RotationRuns.RunsAgree | blockchain/beaconprocess.go:612-652 | In every run, whatever the digests and the stake requests: beacon pending = in-flight swap-ins, shard pending, in-flight assignments; replaying the in-flight swaps yields the shard's committee; no step fails. |
| RotationRuns.RunsConserve | blockchain/beaconproducer.go:242-325 | Over a whole run the keys change by new stakers, swapped-out members and candidates dropped by a shuffle only; none is dropped if and only if the candidates of every draw have different digests. |
| RotationRuns.ListedOnce | blockchain/beaconproducer.go:310-430 | A run that starts with nobody listed twice never lists anybody twice if and only if no beacon block takes two requests for an unlisted key. |
| RotationRuns.CatchingUp | blockchain/shardprocess.go:607-668 | Once both sides have read everything, their committees and queues are equal. |
| RotationRuns.GenesisEstablishes | blockchain/beaconprocess.go:698-708 | The genesis blocks fill every committee and establish the invariant; they list nobody twice if and only if the keys they seat differ. |
| NextHeights.StoreOneFollows | blockchain/beaconprocess.go:162-177 | Linking one height extends the pair's list by it; naming a target twice changes nothing. |
| NextHeights.StoreKeepsExact | blockchain/beaconprocess.go:154-185 | Confirming further blocks of a shard in order keeps the list of every pair exact. |
| NextHeights.WalkListsConfirmed | blockchain/beaconprocess.go:154-185 | Following the links from 0 lists exactly the heights that name the target, in order, and ends in 0 at the recorded last height. |
| NextHeights.NextHeightStore.InsertBeaconBlock | blockchain/beaconprocess.go:154-185 | Whatever order the shards' workers take, the table is the exact list of every pair. |
| CrossShardPool.CrossShardPool_v2.UpdatePool | mempool/cross_shard_pool_v2.go:84-139 | For every sender: old blocks leave both lists, the scanned slice of pending becomes valid, and the height that the scan stopped for is returned. |
| CrossShardPool.CrossShardPool_v2.AddCrossShardBlock | mempool/cross_shard_pool_v2.go:148-204 | Which blocks are refused and why, the lists after acceptance, and the heights to ask for. |
| CrossShardPool.AcceptedExactly | mempool/cross_shard_pool_v2.go:148-200 | A block is accepted if and only if it is addressed to this shard, above the known height, at a height that neither list has, signed, and finds room or is below the highest of a full list. |
| CrossShardPool.RefusedExactly | mempool/cross_shard_pool_v2.go:148-200 | The reason for a refusal is the first one that applies. |
| CrossShardPool.CrossShardPool_v2.GetValidBlock | mempool/cross_shard_pool_v2.go:241-255 | Every sender's valid blocks up to its limit; senders without any are absent. |
| CrossShardOrder.RefreshKeepsOrder | mempool/cross_shard_pool_v2.go:84-120 | Whatever blocks arrive, both lists stay strictly ascending and share no height. |
| CrossShardOrder.AdmitKeepsOrder | mempool/cross_shard_pool_v2.go:160-200 | An accepted block joins pending in its place; only an overfull list gives up its highest block. |
| CrossShardOrder.PromotesRightOnes | mempool/cross_shard_pool_v2.go:95-119 | The promoted blocks are the recognised ones if and only if no pending block lies in a gap behind a reached height. |
| CrossShardOrder.RefreshKeepsGapFree | mempool/cross_shard_pool_v2.go:84-120 | When all pending heights are on the eventual list, valid stays a gap-free run behind the best height, the next height never stays pending, and only consumed heights are dropped. |
| CrossShardOrder.PassedOverForGood | mempool/cross_shard_pool_v2.go:88-119 | Promotion never puts a height into a valid list that has passed over it. |
| CrossShardOrder.AwaitsNext | mempool/cross_shard_pool_v2.go:95-111 | The height asked for is the successor of the last block the scan recognised, unless it read the whole list. |
| CrossShardOrder.WrongBlockPromoted | mempool/cross_shard_pool_v2.go:113-119 | With list 5, 8 and pending 5, 6, 8 the pool promotes 6 and 8 and drops 5. |
| CrossShardBlocks.GetCrossShardData | blockchain/shardproducer.go:246-313 | The transactions taken over from every sender have, one by one, the height and content of the blocks that the walk picks; no sender has an empty list. |
| CrossShardBlocks.ExtractedAreTaken | blockchain/shardproducer.go:285-290 | Of each picked block the height and the content are taken over, in order, and nothing else. |
| CrossShardBlocks.PickIsRun | blockchain/shardproducer.go:260-283 | The producer's selection is a gap-free run of the beacon's list from the best height, of verifying pool blocks. |
| CrossShardBlocks.PickIsMaximal | blockchain/shardproducer.go:260-283 | Nothing more could be taken: the pool has no verifying block at the next height of the list. |
| CrossShardBlocks.PickTakesRun | blockchain/shardproducer.go:260-283 | Of a gap-free list the producer takes exactly the longest verifying prefix. |
| CrossShardBlocks.NothingWithoutNext | blockchain/shardproducer.go:260-283 | A pool that lacks the next height offers the producer nothing. |
| CrossShardBlocks.VerifyCrossTransactions | blockchain/shardprocess.go:431-500 | The body is accepted if and only if the loop passes for every sender it lists. |
| CrossShardBlocks.VerifierAccepts | blockchain/shardprocess.go:448-496 | The loop passes if and only if the heights are a gap-free run from the best height and the pool backs each transaction with a verifying block of the same content. |
| CrossShardBlocks.ProducedIsAccepted | blockchain/shardprocess.go:431-500 | Whatever the producer selects, the verifier accepts against the same pool and table. |
| DeliveryRuns.DeliveredInOrder | blockchain/shardprocess.go:25-172 | In every run, pool and beacon steps between check and insertion included, the heights consumed from each shard are a prefix of those the beacon confirmed, in order, none skipped or repeated, each with the height and content of a block of that shard that was addressed to the receiver and whose signature and content verify; the pool holds signed blocks addressed to it only, and every approved block still passes the check. |
| DeliveryRuns.AcceptanceSurvives | blockchain/shardprocess.go:431-500 | What the check accepts for a sender it still accepts after any step of pool or beacon, as long as no block is inserted. |
| DeliveryRuns.NoGapsInRuns | mempool/cross_shard_pool_v2.go:84-204 | In runs where every offered block is confirmed in the end, the pool never leaves a gap. |
| DeliveryRuns.RefreshedPoolIsTaken | blockchain/shardproducer.go:246-313 | Then the producer takes exactly the longest prefix of a refreshed pool's list whose contents verify - all of it if and only if all verify -, the verifier accepts that, and no next block stays pending. |
| DeliveryRuns.AcceptedBodyPanics | blockchain/shardprocess.go:431-500 | For every block whose swaps run the update panics if and only if a listed sender has no transactions; such a sender passes the check if and only if the pool has a valid block of it; so a body that passes and panics exists if and only if some valid list is not empty. |
| DeliveryStalls.StalledForGood | mempool/cross_shard_pool_v2.go:84-204 | In every run: once the valid list has passed over a sender's next confirmed height, it never has it again, and the consumed transactions and the best height of that sender never change. |
| DeliveryStalls.StalledOffersNothing | blockchain/shardproducer.go:260-283 | Meanwhile the producer selects nothing of that sender and the verifier accepts no transaction of it. |
| DeliveryStalls.UpdateStalls | mempool/cross_shard_pool_v2.go:84-120 | After a refresh a sender is stalled if and only if it was before, or its trimmed valid list is empty and a pending block lies in a gap behind a reached height. |
| DeliveryStalls.ReceptionStalls | mempool/cross_shard_pool_v2.go:148-204 | The same after an accepted block, which counts as a pending one. |
| DeliveryStalls.NoGapNoStall | mempool/cross_shard_pool_v2.go:84-120 | A pool without a gap has stalled no sender. |
| DeliveryStalls.WrongBlockStalls | mempool/cross_shard_pool_v2.go:113-119 | With list 5, 8 and pending 5, 6, 8 one refresh stalls the sender. |
| DeliveryStalls.StallIsReached | mempool/cross_shard_pool_v2.go:84-204 | For every other shard: a run from the start that receives its blocks 5, 6, 8 before the list 5, 8 is confirmed stalls it. |
| Merkle.NextPowerIsLeast | blockchain/merkle.go:205-214 | `NextPowerOfTwo` is the least power of two not below its argument. |
| Merkle.BuildMerkleTreeStore | blockchain/merkle.go:46-86 | The array holds the tree over the leaves padded with missing ones, under the rule for missing children. |
| Merkle.LastIsDoubled | blockchain/merkle.go:64-83 | The rule for missing children amounts to pairing up level by level and doubling the last node of an odd level. |
| Merkle.BuildMerkleTreeOfHashes | blockchain/merkle.go:88-125 | The array holds the tree over the leaves padded with the zero hash. |
| Merkle.StoresRoot | blockchain/merkle.go:29-33 | The last entry is the root of the recursive tree over both halves. |
| Merkle.GetMerklePathForCrossShard | blockchain/merkle.go:155-185 | The cursor walk returns the neighbours on the way from the leaf to the root, and the root. |
| Merkle.PathVerifies | blockchain/merkle.go:155-200 | Every path is as long as the tree is high and climbing it ends in the root. |
| Merkle.AcceptsOnlyOwnLeaf | blockchain/merkle.go:186-200 | Unless the pair hash collides on the way up, a full-length path is accepted if and only if leaf and path are the tree's own. |
| CrossShardContent.GetCrossShardData | blockchain/shardutils.go:456-523 | The coins for the shard in order, and its token entries sorted by property. |
| CrossShardContent.GetCrossShardDataHash | blockchain/shardutils.go:359-450 | Leaf s is the combined hash of what the hashed transactions send to s. |
| CrossShardContent.CoinsAre | blockchain/shardutils.go:466-474 | The coins for a shard are exactly those of all sent coins that are for it, in order. |
| CrossShardContent.TokensAre | blockchain/shardutils.go:475-489 | A token has an entry if and only if some of its outputs is for the shard, and the entry holds, in order, all outputs of the token in all transactions that are. |
| CrossShardContent.PrivacyAre | blockchain/shardutils.go:490-504 | The same for the coins of privacy tokens. |
| CrossShardContent.InfoIsOfFirst | blockchain/shardutils.go:480-483 | An entry's name and amount are those of the first transaction with an output of the token for the shard. |
| CrossShardContent.TokensInOrder | blockchain/shardutils.go:506-513 | The list returned has every entry once, in ascending order of property IDs. |
| CrossShardContent.LeafBinds | blockchain/shardutils.go:436-448 | Two contents have one leaf if and only if their coins, token entries and privacy entries have the same bytes, unless the hash function collides on them. |
| CrossShardContent.LeafMatches | blockchain/shardutils.go:359-523 | What is extracted for s hashes to leaf s if and only if no return-staking output goes to s, or one of two named pairs of different strings has one hash. |
| CrossShardContent.CreateCrossShardBlock | blockchain/shardblock.go:196-225 | When a cross-shard block is created, and what it then contains. |
| CrossShardContent.CreatedBlockVerifies | blockchain/shardutils.go:310-327 | The receiver accepts a created block if and only if no return-staking output was sent to it, or two different strings at one place of the lists hashed for it have one hash. |
| CrossShardContent.StakingAtHomeVerifies | blockchain/shardutils.go:310-327 | With any hash function the receiver accepts a created block that was sent no return-staking output. |
| FeeEstimator.FeeEstimator.ObserveTransaction | mempool/estimatefee.go:169-189 | A new transaction is recorded once a block has been registered; the estimator stays valid. |
| FeeEstimator.FeeEstimator.RegisterBlock | mempool/estimatefee.go:192-301 | When a block is refused, what height, count and stack become for every height; for heights from 1 to 0x7ffffffe which transactions join and leave which bins, that only full bins give up entries and at most `maxReplacements` join a bin, what is forgotten, and that the estimator stays valid. |
| FeeEstimator.FeeEstimator.Rollback | mempool/estimatefee.go:320-427 | Undoes the stack down to the named block; exactly when it panics. |
| FeeHistory.RegisteredKeepsValid | mempool/estimatefee.go:192-301 | Bins, marks, observations and the stack stay consistent, whichever entries were dropped. |
| FeeHistory.KeptExactly | mempool/estimatefee.go:281-287 | After a block an observation is kept if and only if its transaction is mined or was seen fewer than 25 blocks ago. |
| FeeHistory.BinSaysWaiting | mempool/estimatefee.go:230-278 | In bin i stand transactions that were mined i + 1 blocks after they were seen. |
| FeeHistory.UndoRestores | mempool/estimatefee.go:345-427 | Undoing a registered block restores every bin as a multiset, all mined marks, height and count. |
| FeeRuns.RollbackRestores | mempool/estimatefee.go:192-427 | Whatever is registered, rolled back, observed, estimated or refused since some state: while the net number of blocks stays from 0 to maxRollback, undoing it never panics and leads back to that state. |
| FeeRuns.RestoredMultisets | mempool/estimatefee.go:192-427 | The bins are then equal as multisets, and marks, height and count are equal. |
| FeeRuns.UndoAfterFailedBlock | mempool/estimatefee.go:245-248 | After any block that failed half-way, undoing the block below works if and only if it dropped from no bin more than the failed one added there. |
| FeeRuns.FailedBlockBlocksUndo | mempool/estimatefee.go:245-248 | After a block that failed before placing anything, undoing the block below panics if and only if that block dropped something. |
| FeeEstimator.FeeEstimator.EstimateFee | mempool/estimatefee.go:523-550 | The answer equals a fresh computation whether or not it was cached, and the cache stays coherent. |
| FeeEstimates.AnswersExactly | mempool/estimatefee.go:523-550 | A question is answered if and only if enough blocks are registered and it asks for 1 to 25 blocks, and with the estimate of that bin. |
| FeeEstimates.EstimateNeverRises | mempool/estimatefee.go:450-550 | Asking for more blocks never raises the estimate, whatever the bins hold. |
| FeeEstimates.EstimateIsMiddle | mempool/estimatefee.go:450-506 | With all transactions ranked by rate, the estimate stands in the middle of the bin asked for: as many transactions as there are up to there have no lower rate, and the others no higher one. |
| FeeEstimates.EstimateIsPaid | mempool/estimatefee.go:450-506 | Every estimate is a rate that some transaction in the bins has, or zero when there are none. |
| FeeStorage.RestoreUndoesSave | mempool/estimatefee.go:597-723 | Restoring the saved bytes gives the same parameters, observations, marks, bins and undo stack, with the same sharing. |
| FeeStorage.HeaderLayout | mempool/estimatefee.go:597-621 | Where version, parameters, height, block count and number of transactions stand, most significant byte first. |
| FeeStorage.VersionExactly | mempool/estimatefee.go:656-665 | A file is refused for its version if and only if its first four bytes are not 0, 0, 0, 1. |
| FeeStorage.RefsExactly | mempool/estimatefee.go:694-709 | A list of references is read if and only if all of them are below the number of transactions, and then it has what they name. |
| FeeSaving.Save | mempool/estimatefee.go:597-650 | Writes the bytes of the estimator with the transactions in the order of their hashes, and they restore to it. |
| FeeSaving.SavedInOneOrder | mempool/estimatefee.go:580-621 | The order of ranging over the map does not change what is saved. |
| FeeSaving.RestoreFeeEstimator | mempool/estimatefee.go:654-723 | Restoring for every byte string: the estimator, or which error. |
| BeaconPool.BeaconPool.AddBeaconBlock | mempool/beacon_pool.go:83-95 | Verdict and pool after validation, insertion and promotion. |
| BeaconPool.FineExactly | mempool/beacon_pool.go:97-128 | A new block is judged fine if and only if its hash is not cached, it is ahead of the valid ones, none waits at its height, and there is room. |
| BeaconPool.FineIsHeld | mempool/beacon_pool.go:136-198 | A block judged fine is afterwards valid or pending, unless it is the next one and its successor names another; every other block stays in one of the pools. |
| BeaconPool.ForkIsRemembered | mempool/beacon_pool.go:150-152 | A block dropped for being on a fork leaves only its hash, which refuses it when it comes again. |
| BeaconPool.PromotedKeeps | mempool/beacon_pool.go:176-198 | Promotion keeps the invariant, takes nothing back and stops only where nothing more can be promoted. |
| BeaconPool.PromotionMoves | mempool/beacon_pool.go:176-198 | Promotion neither loses nor invents a block. |
| BeaconPool.AdvanceKeeps | mempool/beacon_pool.go:73-77 | Setting the state and removing old blocks moves the invariant to the new best height. |
| BeaconPool.CleanedExactly | mempool/beacon_pool.go:227-248 | Cleaning keeps the pending blocks above the height and, from height 2 on, the conflicting ones at most two below it. |
| BeaconPool.RunKeeps | mempool/beacon_pool.go:73-248 | In every run: the valid pool is the hash-linked run right behind the best block, anchored in pending, within its bounds. |
| BeaconPool.CacheStaysSmall | mempool/beacon_pool.go:68-68 | The cache repeats nothing and never outgrows its size. |
| BeaconPool.MostRecentFirst | mempool/beacon_pool.go:97-101 | Looking a hash up puts it in front, and a new one displaces the least recently used. |
| ShardToBeaconPool.ShardToBeaconPool.AddShardToBeaconBlock | mempool/shard_to_beacon_pool_v2.go:73-149 | Verdict, lists and the heights to ask for, for every block. |
| ShardToBeaconPool.FineExactly | mempool/shard_to_beacon_pool_v2.go:73-126 | Exactly which blocks are taken in. |
| ShardToBeaconPool.FineIsHeld | mempool/shard_to_beacon_pool_v2.go:113-137 | A block taken in is in the list with all others, of which only an overfull list gives up its highest. |
| ShardToBeaconPool.WantedIs | mempool/shard_to_beacon_pool_v2.go:140-148 | Heights are asked for if and only if nothing valid waits: from the first missing one up to the first block, which is included, or for a thousand heights. |
| ShardToBeaconPool.ReceivedKeeps | mempool/shard_to_beacon_pool_v2.go:73-149 | Receiving keeps the list ascending and bounded, with its first part gap-free and maximal, and never lowers the latest valid height. |
| ShardToBeaconPool.ResetKeeps | mempool/shard_to_beacon_pool_v2.go:43-63 | Any new best height, higher or lower, leaves a list that fits it. |
| ShardToBeaconPool.RunKeeps | mempool/shard_to_beacon_pool_v2.go:43-193 | The invariant holds in every run. |
| ShardToBeaconPool.OfferedIs | mempool/shard_to_beacon_pool_v2.go:195-231 | What is offered is best + 1, best + 2, ... without a gap, within the limit and the room, and as many as these allow. |
| ShardToBeaconPool.OfferedContinues | blockchain/beaconprocess.go:289-297 | At most fifty heights that pass the beacon's step-by-one check, and step by one throughout. |
| ShardToBeaconPool.CheckMissesLastPair | blockchain/beaconprocess.go:289-297 | The check amounts to stepping by one except for the last pair. |
| Polynomials.CompareExactly | privacy/polynomials.go:111-127 | The longer polynomial is greater; of two equally long ones the lowest coefficient that differs decides. |
| Polynomials.Add | privacy/polynomials.go:131-153 | Coefficient-wise sum, reduced and trimmed. |
| Polynomials.Mul | privacy/polynomials.go:205-227 | Every coefficient is the convolution of the factors, reduced. |
| Polynomials.Div | privacy/polynomials.go:230-283 | Terminates with dividend = divisor * quotient + remainder over the integers and modulo m; a small remainder unless it gave up. It never gives up modulo a prime; over the integers exactly when no integer quotient exists or the dividend has a leading zero, and it panics on a divisor with one. |
| MultiSig.SignMultiSig | privacy/schnorrmultisig.go:93-138 | The signature share of one signer, or the panic on a point at infinity. |
| MultiSig.VerifyMultiSig | privacy/schnorrmultisig.go:150-180 | Accepts if and only if the group equation holds; panics on a point at infinity. |
| MultiSig.AcceptsOnlyRight | privacy/schnorrmultisig.go:150-180 | For every signature with R not infinity: accepted if and only if S is congruent to c * X + R modulo the order, with X the weighted sum of the keys. |
| MultiSig.CombinedVerifies | privacy/schnorrmultisig.go:93-260 | The combined signatures that any sub-list of the signers makes verify against the full list, except for the panic when the combined R is infinity. |
| MultiSig.ChangedIsRejected | privacy/schnorrmultisig.go:150-180 | A combined signature whose S is changed modulo the order is rejected. |
| Knapsack.Knapsack | privacy/knapsack.go:15-48 | The chosen coins stay within the target, and for positive values no choice within it has more coins. |
| Knapsack.Choose | privacy/knapsack.go:34-47 | The read-back returns the choice given by comparing the table's rows. |
| Knapsack.ChoiceReaches | privacy/knapsack.go:34-47 | That choice stays within the target and has as many coins as the table's last entry says. |
| Knapsack.OptimalForPositive | privacy/knapsack.go:15-48 | The choice is the largest for every target if and only if every coin has a value; for target 0 alone already. |
| Knapsack.WorthlessCoinMissed | privacy/knapsack.go:24-30 | Of coins worth 0 and 5 the choice within 5 has one coin, although both fit. |

## Left out

- Networking, RPC, configuration, logging, wallet and storage engine; the next-height table is a map, and a cloned state is a copied value.
- Signatures, Base58, SHA3 and curve arithmetic: signature checks and hashes are parameters, points are written by their discrete logarithm in a cyclic group of the curve's order, and decompressing a key gives the point that was compressed.
- Goroutine interleaving: every locked method is one step, and a beacon block's next-height updates happen before the next block's.
- Instructions for parameters, rewards and bridges: `Other`, which touches none of the modelled fields.
- A general swap offset in the runs: the program's constant is one, and `RemoveCutsPrefix` shows that the beacon's replay works for no larger one.
- Numbers in instruction texts: shard numbers are values, key lists stay text.
- RotationRuns.RunsAgree: staked keys are not empty and contain no comma.
- Beacon.BestStateBeacon.Update: parameters, epoch, proposer index and hashes, and what a panic leaves behind; a genesis block with too few keys panics, also where the spare capacity of a slice would let the source read on into empty keys.
- Shard.BestStateShard.Update: the staking-transaction map, epoch, hashes and counters, and what a panic leaves behind.
- CrossShardPool.CrossShardPool_v2.AddCrossShardBlock: a committee that cannot be looked up counts as a bad signature; the same holds for `Verifies`.
- CrossShardBlocks.GetCrossShardData: the token data returned beside the transactions.
- CrossShardBlocks.VerifyCrossTransactions: the token check after the loop.
- The random number is an input, and which beacon block a shard builds on is any one that it has not passed.
- The beacon's swap branch at the end of `Update`, which the branches before it make unreachable.
- Blocks inserted without the pre-signature check, which does not run the verifier's loop.
- Blocks and hashes of transactions are identified by value; two observed transactions are the same object exactly when hash, fee rate and observed height agree.
- FeeEstimator.FeeEstimator.RegisterBlock: bins and validity for heights outside 1 to 0x7ffffffe, because a block at height 0x7fffffff would mark its transactions as unmined; the fee rate is an input, as it comes from a floating-point division.
- FeeStorage.RestoreUndoesSave: counts below 2^32, as they are saved in four bytes.
- FeeSaving.RestoreFeeEstimator: a dropped list that points to no transaction ends in its own outcome, where the source goes on with a nil pointer; saved files that repeat a hash are read by value.
- Merkle.NextPowerIsLeast: the floating-point logarithm is the exact one.
- Polynomials.Div: a modulus is positive; that reduction also overwrites the caller's coefficients is not modelled, nor are `Gcd`, `Eval` and printing.
- Knapsack.Knapsack: with coins without value, for which targets beyond 0 the choice still is the largest; a target of 2^64 - 1.
- `mempool/shard_pool.go`, `mempool/mempool.go`, transaction validation, block rewards and `getBlkNeedToGetByHeight`.
