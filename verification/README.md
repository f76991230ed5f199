# indexd, modelled and verified in Dafny

indexd keeps users' erasure-coded slabs alive on a network of storage hosts: it forms and tracks
contracts, pins and prunes sectors, repairs slabs whose hosts went bad, and tells clients where their
objects are. This project models the parts of it where something must hold across many steps, and
proves it. `dafny verify dfyconfig.toml` checks everything.

| file | models |
|---|---|
| `recovery.dfy` | chunked slab recovery: tiling, decryption at an offset, reconstruction, re-encryption |
| `chunk_race.dfy` | the racing downloads of one chunk as a step system, and the lost-sector log |
| `chunk_answers.dfy` | the races of all chunks put together with the recovery |
| `migration_plan.dfy` | spaced host sets and the choice of sectors and candidates |
| `upload_pool.dfy` | the upload workers as a step system |
| `migration_result.dfy` | persisting a migration's outcome |
| `remote_pass.dfy` | the remote worker's result collector, its backoff and host cache |
| `erasure_params.dfy` | the binomial tail of the erasure parameters |
| `chain_state.dfy` | the contract index under apply and revert, and the sync loop |
| `contract_locking.dfy` | refcounted contract locks as a protocol, and the object that implements it |
| `revisions.dfy` | revision synchronisation and spend booking |
| `pruning.dfy`, `pinning.dfy`, `funding.dfy` | the loops that work on locked contracts |
| `host_score.dfy`, `failure_rate.dfy` | host order, atomic picks, lazy decay |
| `route_trie.dfy`, `route_order.dfy` | the tree of OPTIONS routes, and the orders it can be built in |
| `sia_encoding.dfy` | encoders and decoders, digest and object ID preimages |
| `common.dfy` | Option, Result, Min, Max |

How the model stands for the program:

- Goroutines are atomic steps, interleaved in every order; a timeout is a step that fails. The lock
  object's critical sections are methods proved to be the steps of the lock protocol.
- RPCs, database calls and clocks are parameters, or methods whose contracts say all a caller may rely
  on; any of them may fail at any time. FreeSectors removes exactly the given indices and leaves the
  other sectors in any order; an append accepts any part of what it is given.
- Map iteration takes the keys in an arbitrary order, and results are proved for all of them.
- Floats are reals. Currencies are naturals. uint64 and int64 wrap-around is written out where values
  are narrowed (`Low64` in pinning and funding, `WrapInt64` in the backoff, one byte for the shard count
  of a slab slice).
- A hash is any function on byte strings; only preimages are reasoned about. Reed-Solomon is a code per
  byte position of which any MinShards columns determine the word. The cipher is a keystream indexed by
  64-byte block, as in section 2.4 of RFC 8439. Distance is any function of two locations.
- Classes keep the fields the program updates; methods are proved against specification functions, and
  the lemmas are about those.

What the proofs turned up, beyond what the comments in the code say:

- Pruning in several batches is incomplete: freed slots are refilled with other sectors, which then lie
  behind the scan. Over every order a host may leave the sectors in, it is complete exactly when all
  prunable roots lie in one batch (`Pruning.CompleteIffOneWindow`). For a host that refills each slot from
  the tail it is complete exactly when no batch moves a prunable root behind the scan
  (`Pruning.TailScanIff`); contracts of both kinds exist (`Pruning.TailCanComplete`, `Pruning.TailCanMiss`).
- The pinning branch marked unreachable is reachable: when the affordable count is close to 2^64 the
  uint64 sum with the free capacity is 0 (`Pinning.UnknownReasonIffWrapped`).
- `pinSectors` returns "all contracts failed" for an empty list. When nothing fails and the first contract
  has room, pinning on a host therefore handles every unpinned sector, and reports an error exactly when
  their number is a multiple of the batch size (`Pinning.PinOnHost`, `Pinning.FullBatchReportsError`).
- A failed store write during a revision sync is only logged. The spend it carried is lost when the retried
  revision is then written; when that is not written either, nothing is lost and a later sync may still
  book it (`Revisions.SpendIsBookedIff`, `Revisions.UnbookedSpendHappens`).
- Dropping the first `drained` contract IDs drops the wrong ones when a locked or failed contract precedes
  a drained one (`Funding.DropIsExactIff`).
- The funding backoff wraps from 28 failures in a row on. With the default maximum, and any other up to
  twenty years, it is wrong for exactly 28, 29, 31 to 36, 41, 45 to 47, 49 and from 51 on, and then there
  is no delay at all (`Funding.BackoffVanishesIff`; for any maximum, `Funding.BackoffAsIntendedIff`).
- Absorbing siblings of different shape can leave a static segment beside a wildcard
  (`RouteTrie.AddKeepsWildOnlyIff` says exactly when). The conflict check finds every conflict exactly
  when each such segment accepts whatever the wildcard beside it accepts (`RouteTrie.CheckIsCompleteIff`),
  which `/a/x`, `/b/:p`, `/:id`, added in this order, satisfy (`RouteTrie.HarmlessBesideWildcard`) and
  `/a/x/y`, `/b/:p`, `/:id` do not (`RouteTrie.MixedShapesMissConflict`).
- The tree depends on the order of the map of enabled routes, and with it the outcome of the check
  (`RouteTrie.OrderDecidesTheCheck`). The orders that leave every wildcard alone all give the same tree,
  the others do not (`RouteOrder.SameTreeIff`); every order does for routes that never have a static
  segment and a parameter in the same place (`RouteOrder.UnmixedRoutesAnyOrder`).
- A revert clears `renewed_to` instead of restoring it (`ChainIndex.RenewedToSurvivesRevertIff`), and a
  chain reset leaves element rows behind (`ChainIndex.ReplayIffNothingStale`).

## Model

| member | source | states |
|---|---|---|
| LockProtocol.StepKeepsInvariant | contracts/locking.go:40-93 | every critical section of lock, try-lock and the two unlock halves keeps: the refcount is the number of holders, waiters and releasers, an object in use is the one the table names, a taken mutex has exactly one holder |
| LockProtocol.RunKeepsInvariant | contracts/locking.go:40-93 | the same over every interleaving of any number of calls |
| LockProtocol.MutualExclusion | contracts/locking.go:40-62 | two calls never hold the same contract ID at once, across lock objects |
| LockProtocol.EntryIffUsed | contracts/locking.go:40-62 | a map entry exists exactly while some call waits for, holds or still has to release the contract |
| LockProtocol.TryLockSucceedsIffUnused | contracts/locking.go:68-84 | try-lock succeeds exactly when no call uses the contract |
| LockProtocol.ReleaseDeletesOwnEntry | contracts/locking.go:53-61 | the delete happens exactly when nobody else uses the lock object, and only ever removes that object's own entry |
| LockProtocol.SomeCallCanStep | contracts/locking.go:40-93 | no deadlock: while calls remain one of them can step |
| LockProtocol.QuiescentTableIsEmpty | contracts/locking.go:53-61 | no entry outlives the calls |
| ContractLocking.ContractLocker.LockEnter | contracts/locking.go:41-50 | the first section of LockContract is the protocol's Enter step on the object's state |
| ContractLocking.ContractLocker.LockAcquire | contracts/locking.go:52-53 | the mutex going through is the Acquire step |
| ContractLocking.ContractLocker.TryLockContract | contracts/locking.go:68-83 | null exactly when an entry exists, else the TryLock step with a fresh, already held lock object |
| ContractLocking.ContractLocker.UnlockMutex | contracts/locking.go:54 | the first unlock half is the Unlock step |
| ContractLocking.ContractLocker.UnlockRelease | contracts/locking.go:56-61 | the second unlock half is the Release step |
| ErasureParams.ChooseRatio | slabs/slabs.go:315-317 | the factor (n-i)/(i+1) of the loops is the ratio of neighbouring binomial coefficients |
| ErasureParams.NextTerm | slabs/slabs.go:316 | one loop iteration turns the term for i shards into the one for i+1 |
| ErasureParams.AtLeastStep | slabs/slabs.go:312-323 | the tail obeys the recurrence of adding one independent shard |
| ErasureParams.BinomialTheorem | slabs/slabs.go:312-323 | the probabilities of all outcomes sum to 1 |
| ErasureParams.TailIsProbability | slabs/slabs.go:312-323 | the tail lies in [0, 1] |
| ErasureParams.MoreParityNeverHurts | slabs/slabs.go:312-323 | the tail never drops with another parity shard and never rises with another data shard |
| ErasureParams.RecoveryProbability | slabs/slabs.go:312-322 | the two loops compute exactly the binomial tail from dataShards to totalShards |
| ErasureParams.ValidateECParams | slabs/slabs.go:282-330 | parameters are accepted exactly when counts are in range, redundancy is between 1.5 and 4 and the tail is at least 99.99 percent, for all pairs of integers |
| Recovery.ChunkSize | slabs/downloads.go:106-114 | whatever the configuration, the chunk size is a multiple of the leaf size between one leaf and the sector |
| Recovery.ChunksTile | slabs/downloads.go:106-144 | every byte of the sector lies in exactly one chunk |
| Recovery.ChunkIsAligned | slabs/downloads.go:139-144 | every chunk is non-empty, starts on a leaf boundary and stays inside the sector |
| Recovery.DecryptWindow | slabs/downloads.go:359-372 | decrypting an aligned window with the counter at offset / LeafSize undoes the encryption of the whole sector |
| Recovery.RebuildIsExact | slabs/downloads.go:374-376 | any MinShards decrypted columns rebuild every row of the window byte for byte |
| Recovery.SlabRecovery.constructor | slabs/downloads.go:77-105 | one sector-sized buffer per required shard, none for the others |
| Recovery.SlabRecovery.DecryptColumns | slabs/downloads.go:359-372 | downloaded ciphertext columns become the plaintext windows, in place |
| Recovery.SlabRecovery.ReconstructColumns | slabs/downloads.go:374-385 | fails exactly with fewer than MinShards columns; else every required buffer holds the plaintext on this window and is unchanged outside it |
| Recovery.SlabRecovery.RecoverChunk | slabs/downloads.go:189-385 | succeeds exactly when enough hosts answered, finishes its chunk and undoes no other |
| Recovery.SlabRecovery.RecoverAll | slabs/downloads.go:135-169 | for chunks finishing in any order and any sets of answering hosts, success exactly when every chunk got MinShards answers and the context has not ended by then, and then every required buffer is the plaintext shard |
| Recovery.RecoverForUpload | slabs/migrations.go:183-212 | after a successful recovery and re-encryption every required shard equals the stored sector byte for byte, all others are nil |
| Recovery.XorKeyStream | slabs/migrations.go:201-212 | in-place encryption from block 0 |
| ChunkRace.BuildCandidates | slabs/downloads.go:197-218 | the candidates are exactly the distinct, not excluded hosts of the slab, each with the first sector it stores |
| ChunkRace.ColumnsAreDistinct | slabs/downloads.go:197-218 | distinct hosts fill distinct columns, so counting hosts counts columns |
| ChunkRace.StepKeepsInvariant | slabs/downloads.go:189-354 | each atomic step of the main loop or a worker keeps slots, counter, reservations and the read history consistent |
| ChunkRace.RunKeepsInvariant | slabs/downloads.go:189-354 | the same over every interleaving, with cancellation at any time |
| ChunkRace.ReadsAreBounded | slabs/downloads.go:220-247 | each host is read at most once, at most MinShards reads are in flight, and the counter counts filled columns |
| ChunkRace.ReturnIsClean | slabs/downloads.go:249-354 | at return every reservation was released exactly once, and reconstruction is reached exactly with at least MinShards columns |
| ChunkRace.SomeStepIsEnabled | slabs/downloads.go:262-354 | the race cannot deadlock, although the slot of a failed re-pick is kept |
| ChunkRace.LostLog.StartChunk | slabs/downloads.go:197-218 | a chunk never reads a host that any chunk before it reported lost |
| ChunkRace.LostLog.MarkLost | slabs/downloads.go:388-394 | a report adds the host's own sector of the slab and excludes the host; excluded hosts are exactly those reported |
| ChunkAnswers.ColumnsAreCandidates | slabs/downloads.go:220-354 | only candidates of the race fill columns |
| ChunkAnswers.RaceAnswersEnough | slabs/downloads.go:197-376 | a chunk's race ends in success exactly when the shards it answered are enough to reconstruct the chunk |
| ChunkAnswers.RecoverByRaces | slabs/downloads.go:77-169 | a slab is recovered exactly when the race of every chunk succeeded and the context has not ended by then, and then every required shard is byte for byte the stored one |
| Placement.SpacedSet.constructor | hosts/distance.go:16-21 | a new set is empty and spaced |
| Placement.SpacedSet.CanAddHost | hosts/distance.go:35-51 | true exactly for a new host that keeps the minimum distance to every selected one, for every map order |
| Placement.SpacedSet.Add | hosts/distance.go:25-33 | adds exactly the hosts CanAddHost admits and keeps the set pairwise spaced |
| Placement.GoodHostMap | slabs/migrations.go:407-413 | the loop builds the map of good hosts |
| Placement.ContractMaps | slabs/migrations.go:415-428 | healthy contract IDs and hosts with an appendable contract, counting good hosts only |
| Placement.BadIndicesAreExact | slabs/migrations.go:436-470 | the listed indices are strictly increasing and are exactly the sectors that need migration |
| Placement.ScanSectors | slabs/migrations.go:434-470 | the loop lists exactly the sectors lost, on a bad or already used host, or on an unhealthy or already used contract; it removes every host of the slab from the candidates and places exactly the keeping hosts that are far enough from those placed before |
| Placement.KeptIsPlacedOrClose | slabs/migrations.go:434-470 | each host that keeps its sector is placed, or was too close to those placed before it |
| Placement.PickCandidates | slabs/migrations.go:471-486 | for every map order the candidates are distinct, eligible, spaced, and no eligible host is passed over without being too close to a placed one |
| Placement.SectorsToMigrate | slabs/migrations.go:406-487 | the plan is sound: exact indices; distinct, eligible candidates hosting no sector of the slab; placed are exactly the candidates and the keeping hosts that fit, pairwise spaced; maximality |
| Placement.CandidatesAvoidKeptHosts | slabs/migrations.go:434-487 | every candidate keeps the minimum distance from every host that keeps its sector, unless that host was itself too close to one placed before it |
| Placement.HostOkAfter | slabs/migrations.go:406-487 | after a full success every sector is on a good host no earlier sector uses |
| Placement.ReplanningAsksNothing | slabs/migrations.go:406-487 | planning is a fixed point: after a full success is applied the same state lists no index |
| UploadPool.StepKeepsInvariant | slabs/uploads.go:24-135 | every worker step keeps: a picked host is out of the pool, nobody else's and not used; entries have distinct hosts and indices |
| UploadPool.RunKeepsInvariant | slabs/uploads.go:24-135 | the same over every interleaving of the workers |
| UploadPool.UploadsAreSafe | slabs/uploads.go:24-135 | fed by a sound plan, the "host already used" panic is unreachable, no host gets two shards or already holds one, each shard is migrated at most once, at most ten workers run |
| UploadPool.SomeWorkerCanStep | slabs/uploads.go:61-135 | until the uploads are over, some step other than a cancellation is possible |
| UploadPool.UploadsEnd | slabs/uploads.go:61-135 | every interleaving ends: apart from cancellations it has at most five steps a shard and three a host of the pool |
| UploadPool.SuccessRepairsSlab | slabs/migrations.go:381-397 | when as many shards migrated as were planned, applying them leaves nothing to migrate |
| UploadPool.Pigeonhole | slabs/migrations.go:391 | comparing counts is enough: as many distinct planned entries as planned indices cover all of them |
| MigrationResults.PersistLost | slabs/migrations.go:236-249 | lost sectors are marked per host in any order; without an error all of them are marked |
| MigrationResults.PersistMigrated | slabs/migrations.go:256-273 | exactly the counted shards are recorded, each at its new host; without an error these are all whose sector and host still exist |
| MigrationResults.ApplyMigrationResult | slabs/migrations.go:234-290 | the failure count is reset only for a reported success of which every shard was recorded, and a failed recovery leaves it untouched |
| MigrationResults.SuccessLeavesExactlyTheLost | slabs/migrations.go:234-290 | after a recorded success the same state asks for exactly the sectors lost during the recovery that were not migrated |
| RemotePass.Collector.constructor | slabs/remote.go:266-272 | the collector starts with nothing received, offered or in flight |
| RemotePass.Collector.StartReport | slabs/remote.go:280-290 | a new report takes everything pending, only when none is in flight and none failed |
| RemotePass.Collector.FinishReport | slabs/remote.go:291-301 | the report in flight ends; migrated grows by its sectors exactly on success |
| RemotePass.Collector.ReceiveResult | slabs/remote.go:308-316 | a result is counted and queued, and a full group is offered |
| RemotePass.Collector.Drain | slabs/remote.go:324-341 | after the last result the in-flight report is awaited and the remainder offered once, even after a failure |
| RemotePass.RunPass | slabs/remote.go:264-351 | in every run each result is offered exactly once in arrival order, executed counts them, migrated is exactly the sectors of the groups whose report succeeded |
| RemotePass.ProgressResetsBackoff | slabs/remote.go:133-154 | only passes after the last productive one count towards the backoff |
| RemotePass.PauseIsBounded | slabs/remote.go:156-162 | the pause stays between the interval and 32 times it |
| RemotePass.Run | slabs/remote.go:127-168 | every pause is the one the history of passes prescribes |
| RemotePass.MergeKeepsHosts | slabs/remote.go:385-391 | a merge knows exactly the old hosts and those of the batch, and leaves hosts outside the batch as they were |
| RemotePass.CachedHostStore.Merge | slabs/remote.go:385-391 | the loop is that merge |
| RemotePass.CachedHostStore.Clear | slabs/remote.go:395-399 | nothing is known afterwards |
| RemotePass.CachedHostStore.MergeBatches | slabs/remote.go:372-391 | within a pass a host of any fetched batch stays known |
| ChainIndex.ApplyKeepsAgreement | contracts/chain.go:104-155 | applying the next block of a valid chain keeps elements and states equal to a replay, for every contract on the chain |
| ChainIndex.RevertKeepsAgreement | contracts/chain.go:166-213 | so does reverting the tip |
| ChainIndex.RevertBatch | contracts/chain.go:88-93 | so does reverting any number of blocks, tip first |
| ChainIndex.ApplyBatch | contracts/chain.go:95-100 | so does applying any number of blocks |
| ChainIndex.AgreementIsReplay | contracts/chain.go:82-213 | an index that went through any reorgs has the same element table and states as one replayed from scratch |
| ChainIndex.ReplayIffNothingStale | persist/postgres/chain.go:18-34 | after resets the table equals a replay exactly when no row belongs to a contract the chain never created |
| ChainIndex.ResetAgreesOnChain | persist/postgres/chain.go:18-34 | a reset leaves every element row in place, stale |
| ChainIndex.RenewedToSurvivesRevertIff | contracts/chain.go:188-193 | revert restores renewed_to exactly when the block did not renew the contract or the column was empty before |
| ChainSync.UpdateTx.constructor | contracts/chain.go:16-33 | a transaction starts from the database with an empty, correct cache |
| ChainSync.UpdateTx.IsKnownContract | contracts/chain.go:35-46 | the cached answer is the table's answer |
| ChainSync.UpdateTx.UpdateContractElements | persist/postgres/contracts.go:891-902 | upserts the given elements, the last one per contract winning |
| ChainSync.UpdateTx.DeleteContractElements | persist/postgres/contracts.go:686-692 | removes exactly the given contracts' elements |
| ChainSync.UpdateTx.UpdateContractState | persist/postgres/contracts.go:905-911 | sets the state of a contract that has a row |
| ChainSync.UpdateTx.UpdateContractRenewedTo | persist/postgres/contracts.go:807-825 | sets or clears the column; a renewal to an unknown contract is not recorded |
| ChainSync.UpdateTx.ApplyV2ContractDiffs | contracts/chain.go:104-155 | the loop with its two accumulators is the apply step of the index |
| ChainSync.UpdateTx.RevertV2ContractDiffs | contracts/chain.go:166-213 | the loop, which deletes before it upserts, is the revert step |
| ChainSync.UpdateTx.UpdateChainState | contracts/chain.go:82-102 | reverts tip first, then applies in order |
| ChainSync.Subscriber.constructor | subscriber/subscriber.go:95-144 | starts from the stored index and tables |
| ChainSync.Subscriber.UpdatesSince | subscriber/subscriber.go:168 | at most a batch of steps towards the tip, none skipped, at least one unless the tip is reached |
| ChainSync.Subscriber.Commit | subscriber/subscriber.go:185-204 | tables and index move together by the batch or not at all, and stay in step |
| ChainSync.BatchGetsCloser | subscriber/subscriber.go:185-204 | a batch of r reverts and a applies brings the index r + a blocks closer to the tip |
| ChainSync.Subscriber.Advance | subscriber/subscriber.go:168-208 | a committed batch shortens the distance to the tip, an aborted one changes nothing |
| ChainSync.Subscriber.Sync | subscriber/subscriber.go:149-213 | under every sequence of tips, fetch failures, resets and aborted transactions the index and tables stay in step; without a reset full agreement is kept; at most three resets; undisturbed for as many rounds as blocks lie between, it reaches the tip |
| Pruning.Database.PrunableContractRoots | persist/postgres/contracts.go:829-889 | returns the given roots minus those pinned to the contract or on its host and not pinned yet |
| Pruning.Database.LookupPrunable | contracts/pruning.go:143-153 | lookups in batches of 10000 find what one whole lookup would |
| Pruning.NeededSurvives | contracts/pruning.go:155-178 | freeing the marked indices loses no copy of a root the database needs |
| Pruning.PickedIsPrunable | contracts/pruning.go:155-166 | the marked indices are in range, strictly ascending, and hold exactly the prunable roots of the window |
| Pruning.MarkIndices | contracts/pruning.go:155-160 | the loop marks exactly those indices |
| Pruning.PickWindow | contracts/pruning.go:125-160 | the first half of a pass yields the prunable indices of the fetched window |
| Pruning.FreeWindow | contracts/pruning.go:161-178 | the second half frees exactly them, or fails with or without having freed them, and needed roots survive either way |
| Pruning.PruneWindow | contracts/pruning.go:124-179 | a successful pass is one round of the scan |
| Pruning.PruneContract | contracts/pruning.go:106-182 | needed roots keep their multiplicity on every path, pruned counts what is gone, pruned plus remaining sectors is constant, the loop terminates, and a successful call is a full scan |
| Pruning.CompleteIffOneWindow | contracts/pruning.go:124-178 | over every order hosts may leave the sectors in, full scans leave nothing prunable if and only if the prunable roots lie in one window |
| Pruning.FitsOneBatch | contracts/pruning.go:124-178 | a contract that fits one batch is pruned completely |
| Pruning.TailScanIff | contracts/pruning.go:124-178 | for a host that refills freed slots from the tail the scan leaves nothing prunable if and only if no window moves a prunable root from the tail behind itself |
| Pruning.TailScanIsScan | contracts/pruning.go:124-178 | the scan of such a host is one of the full scans |
| Pruning.TailCanComplete | contracts/pruning.go:124-178 | prunable roots in two windows, and such a host ends clean |
| Pruning.TailCanMiss | contracts/pruning.go:124-178 | a contract such a host leaves with a prunable root |
| Pinning.LimitFits | contracts/pinning.go:137-184 | any number of sectors up to the computed limit keeps the contract within maxSize and its growth within remaining allowance and collateral, uint64 truncation included |
| Pinning.LimitIsLargest | contracts/pinning.go:141-167 | when nothing leaves 64 bits, exactly the counts up to the limit fit, at the costs charged, where zero becomes one |
| Pinning.UnknownReasonIffWrapped | contracts/pinning.go:164-179 | the branch marked unreachable is reached exactly when there is room for a sector and the uint64 sum is 2^64 |
| Pinning.UnknownReasonHappens | contracts/pinning.go:164-179 | a contract that reaches it |
| Pinning.AllAccepted | contracts/pinning.go:206 | equal counts mean every attempted sector was accepted |
| Pinning.PinContract.AppendSectors | contracts/pinning.go:186-192 | the contract grows by exactly the accepted sectors and pays for the growth; the payments do not underflow, it stays valid and within maxSize |
| Pinning.SplitIsTook | contracts/pinning.go:203-227 | marking the missing and pinning the accepted settles exactly the attempted rows |
| Pinning.RecordAppend | contracts/pinning.go:203-227 | after the call every attempted sector is pinned to the contract or lost, no other row changed; an error exactly when a needed update failed |
| Pinning.TryContract | contracts/pinning.go:122-232 | succeeds exactly when the prices, the limit, the append and the revision write do, and then attempts min(sectors, limit); the contract grows by exactly what the host accepted, also when the write fails after a successful append; accepted sectors are pinned, other attempted ones lost; an error exactly when a needed update failed |
| Pinning.RoomGivesLimit | contracts/pinning.go:137-184 | a contract with room for some sectors has a limit of at least as many |
| Pinning.RoomAfter | contracts/pinning.go:137-192 | after an append the contract has room for what it had not attempted |
| Pinning.TakeTurn | contracts/pinning.go:122-232 | a turn on the sectors left is the next of the turns; a contract with room for all of them takes all when nothing fails |
| Pinning.AllTurns | contracts/pinning.go:116-236 | every contract has its turn while sectors are left: what is attempted, what is pinned and whether a database error ends the loop is what the turns one after the other come to, for distinct contracts |
| Pinning.AllFailedIff | contracts/pinning.go:114-238 | nothing is attempted, the "all contracts failed" error, exactly when there was nothing to pin or no contract's turn appends and writes its revision |
| Pinning.PinSectors | contracts/pinning.go:109-240 | on success the sectors split into accepted ones, now pinned, other attempted ones, now lost, and a rest left only after every contract's turn; contracts do not grow past maxSize; on every outcome rows only moved from unpinned on the host to pinned or lost, and only those of the given sectors |
| Pinning.SuccessShrinks | contracts/pinning.go:88-100 | a successful round takes exactly the sectors it handled out of the unpinned ones |
| Pinning.PinRound | contracts/pinning.go:88-100 | a round fetches min(batch, unpinned) sectors; an empty one is an error; with room and without failures all fetched sectors are handled |
| Pinning.PinOnHost | contracts/pinning.go:68-103 | the host loop terminates and, also when it fails, moves rows only from unpinned on the host to pinned or lost; undisturbed and with room in the first contract it handles every sector, and reports an error if and only if their number is a multiple of the batch size |
| Pinning.FullBatchReportsError | contracts/pinning.go:88-100 | for every batch size a contract can hold: that many unpinned sectors are all handled and the call reports an error |
| Revisions.IsBeyondMaxRevisionHeight | contracts/revision.go:184-192 | true exactly when height plus buffer reach the proof height |
| Revisions.SpendIsBookedIff | contracts/revision.go:110-125 | booked spend equals the drop of the stored allowance exactly when a sync that happens is fair: written and not raising the allowance, or unwritten and followed by no write or an unchanged allowance |
| Revisions.UnbookedSpendHappens | contracts/revision.go:118-122 | a sync write that only failed in the database, before a retried revision that is written, loses spend |
| Revisions.NeverOverbooked | contracts/revision.go:88-182 | unless the host raises the allowance no call books more than was lost |
| Revisions.RevisionManager.UpdateContractRevision | persist/postgres/contracts.go:106-129 | the write and its booking take effect exactly for a strictly higher revision number |
| Revisions.RevisionManager.SyncRevision | contracts/revision.go:88-125 | adopts the host's revision unless it is older, in which case the contract is marked bad |
| Revisions.RevisionManager.WithRevision | contracts/revision.go:132-182 | the revise function runs at most twice, exactly twice after an invalid signature and a usable sync; every write raises the number; success means a newer revision is recorded |
| Revisions.RunConserves | contracts/revision.go:132-182 | over any fair run of calls booked spend equals the drop of the allowance and the number never falls |
| Revisions.HonestRunIsFair | contracts/revision.go:110-125 | an honest host and successful sync writes make every run fair |
| Funding.TryContract | contracts/funder.go:81-140 | one contract's turn: how far it funds, whether it drains, whether the loop is done |
| Funding.FundAccounts | contracts/funder.go:63-149 | the slices of successful calls follow one another from account 0 to funded, which is the smaller of the accounts and what the contracts afford together; every contract is tried until one whose revision is stored completes the accounts; drained counts exactly the drained ones tried |
| Funding.TilesCoverOnce | contracts/funder.go:98-109 | every account below funded lies in exactly one slice, none above in any |
| Funding.SliceIsPaid | contracts/funder.go:98-102 | a slice's length times the target fits the contract's renter output, also where the quotient is narrowed to 64 bits |
| Funding.DropIsExactIff | contracts/funding.go:212 | dropping the first drained contracts drops exactly drained ones if and only if no drained one comes after one that is not |
| Funding.DropCanMiss | contracts/funding.go:212 | a locked contract in front of a drained one is dropped in its place |
| Funding.UpdateFundedAccounts | accounts/manager.go:226-238 | in place, the first n entries are reset and the others get one more failure and their backoff |
| Funding.ExactlyFundedAreReset | accounts/manager.go:226-238 | afterwards exactly the first n accounts have no failures |
| Funding.FundBatch | contracts/funding.go:195-218 | one batch over the contracts left: its first accounts, as many as those afford, are reset, and as many contracts as were drained are dropped |
| Funding.FundBatches | contracts/funding.go:163-218 | over one host's batches the re-slice is always in range; each batch handled is funded by what is left after the drops of those before it, and exactly its funded accounts are reset; the batches handled, the contracts left and the error are determined exactly |
| Funding.BackoffAsIntendedIff | accounts/manager.go:236 | up to 62 failures the delay is min(2^n minutes, maximum) exactly when there are at most 27 failures or the maximum is at most the tabled value for that number |
| Funding.WrappedIsTable | accounts/manager.go:236 | the table of what a minute times 2^n wraps to, for 28 to 62 failures |
| Funding.BackoffVanishesIff | accounts/manager.go:236 | for a positive maximum up to twenty years the delay is wrong exactly for 28, 29, 31 to 36, 41, 45 to 47, 49 and from 51 failures on, and then it is zero or negative |
| HostScore.ScoreIsTotalPreorder | client/v2/hostqueue.go:255-281 | for fixed metrics the comparison is reflexive, antisymmetric in sign and transitive |
| HostScore.ReservationDemotes | client/v2/hostqueue.go:244-281 | a reservation never moves a host ahead of another |
| HostScore.ReservesEachPick | client/v2/hostqueue.go:467-473 | each host gains as many reads as it was picked |
| HostScore.StableSortedIsSorted | client/v2/hostqueue.go:460-462 | the sort is sorted and keeps the order of equally ranked hosts, for any total preorder |
| HostScore.StableSortIsUnique | client/v2/hostqueue.go:460-462 | any two stable sorts agree, so the library's sort is this one |
| HostScore.LeastOf | client/v2/hostqueue.go:426-431 | the scan finds a least element |
| HostScore.KeepUsable | client/v2/hostqueue.go:451-456 | the usable candidates move to the front of the same array, in order |
| HostScore.SortStable | client/v2/hostqueue.go:460-462 | sorts a prefix in place |
| HostScore.Provider.PickWrite | client/v2/hostqueue.go:420-437 | a least candidate is reserved and exactly one copy of it swap-removed |
| HostScore.Provider.PickReads | client/v2/hostqueue.go:450-474 | picked followed by remaining is the sorted permutation of the usable candidates, with exactly n reservations, or none when fewer are usable |
| HostScore.Provider.Reserve | client/v2/hostqueue.go:467-472 | the loop makes one reservation per picked host |
| HostScore.SwapRemoved | client/v2/hostqueue.go:435-436 | swap-removal takes away exactly one element |
| FailureRates.LazyIsEager | client/v2/hostqueue.go:106-113 | decay on read equals a clock that halves at the end of each half-life |
| FailureRates.DecayIsIdempotent | client/v2/hostqueue.go:106-113 | an extra decay on the way changes nothing later |
| FailureRates.ReadsDoNotMatter | client/v2/hostqueue.go:76-113 | dropping all reads from any history of samples and reads leaves every later value the same |
| FailureRates.RateInRange | client/v2/hostqueue.go:76-113 | the rate stays in [0, 1] under any history |
| FailureRates.ClearsAfter | client/v2/hostqueue.go:20-27 | a rate of 0.2 reads as zero exactly from 5 half-lives on, a rate of 1 exactly from 7 |
| FailureRates.FailureRate.constructor | client/v2/hostqueue.go:70-74 | a new rate has no sample |
| FailureRates.FailureRate.AddSample | client/v2/hostqueue.go:76-89 | the first sample is the rate, later ones are averaged into the decayed rate |
| FailureRates.FailureRate.Value | client/v2/hostqueue.go:94-100 | shows what the eager clock would, with rates below 0.01 as zero |
| FailureRates.FailureRate.Decay | client/v2/hostqueue.go:106-113 | one halving per full half-life, the remainder kept |
| FailureRates.AverageIsBetween | client/v2/hostqueue.go:54-61 | the average lies between its smallest and largest sample |
| FailureRates.RpcAverage.constructor | client/v2/hostqueue.go:38-41 | a new average has no sample |
| FailureRates.RpcAverage.AddSample | client/v2/hostqueue.go:54-61 | the stored value is the average of all samples so far |
| RouteTrie.MergeIsUnion | api/app/cors.go:18-30 | merging denotes the union of the accepted paths |
| RouteTrie.MergeSwaps | api/app/cors.go:60-73 | absorbing two siblings in either order gives the same tree |
| RouteTrie.MergeAllStep | api/app/cors.go:60-73 | absorbing a set of siblings does not depend on the map order |
| RouteTrie.MergeAllIsUnion | api/app/cors.go:60-73 | the absorbed siblings' node accepts what any of them did |
| RouteTrie.MergeOptionsSub | api/app/cors.go:18-30 | the loop, in any map order, is the merge |
| RouteTrie.AbsorbSiblings | api/app/cors.go:55-73 | the loop, in any map order, merges all siblings into the wildcard |
| RouteTrie.AddOptionsPath | api/app/cors.go:34-79 | the insertion, in any map order, is the one the lemmas are about |
| RouteTrie.AddIsMonotone | api/app/cors.go:34-79 | an insertion never loses a request path |
| RouteTrie.AddCovers | api/app/cors.go:34-79 | the new path's requests are all accepted |
| RouteTrie.AddKeepsNormal | api/app/cors.go:38-41 | parameter segments are always stored as the one wildcard |
| RouteTrie.AcceptsIffSomeLeafCovers | api/app/cors.go:82-92 | the tree accepts exactly what its leaf patterns cover |
| RouteTrie.FlattenOptionsPaths | api/app/cors.go:82-92 | lists exactly the leaf patterns |
| RouteTrie.MergeKeepsWildOnlyIff | api/app/cors.go:18-30 | wildcards are without siblings after a merge exactly when both trees are so and compatible |
| RouteTrie.MergeAllWildOnlyIff | api/app/cors.go:60-73 | the same for absorbing a set of siblings: pairwise compatible |
| RouteTrie.AddKeepsWildOnlyIff | api/app/cors.go:34-79 | wildcards are without siblings after an insertion exactly when what it absorbs is compatible |
| RouteTrie.OptionsTreeContains | api/app/cors.go:96-127 | the search, in any map order, is the query the lemmas are about |
| RouteTrie.ContainsIsConflict | api/app/cors.go:94-127 | a hit always comes with a request path of both routes |
| RouteTrie.CheckIsCompleteIff | api/app/cors.go:94-127 | the search finds every conflict with the tree if and only if at every node each static child beside a wildcard accepts whatever the wildcard child accepts |
| RouteTrie.ShadowedIffWithin | api/app/cors.go:94-127 | that condition is a finite check on the tree, level by level up to its height |
| RouteTrie.ContainsIffConflict | api/app/cors.go:94-127 | on trees that meet the condition, a hit is reported exactly when some request path belongs to both |
| RouteTrie.WildOnlyIsShadowed | api/app/cors.go:94-127 | trees whose wildcards have no siblings meet the condition |
| RouteTrie.MixedShapesMissConflict | api/app/cors.go:150-165 | enabled routes /a/x/y, /b/:p, /:id, added in this order: the tree does not meet the condition, and the check misses the disabled /c/x, whose requests the tree accepts |
| RouteTrie.HarmlessBesideWildcard | api/app/cors.go:150-165 | enabled routes /a/x, /b/:p, /:id leave a static segment beside a wildcard, and the tree meets the condition all the same |
| RouteTrie.OrderDecidesTheCheck | api/app/cors.go:150-165 | the same three routes with /:id added first: the check finds the conflict, so its outcome depends on the map order |
| RouteTrie.BuildTree | api/app/cors.go:150-158 | the loop builds the tree the lemmas are about, for every order in which the map yields the enabled routes |
| RouteTrie.EnabledIsCovered | api/app/cors.go:150-170 | every request path of an enabled route is covered by a flattened pattern |
| RouteTrie.AcceptedDisabledRouteIsSafe | api/app/cors.go:159-165 | where the tree meets the condition, a disabled route that passes the check shares no request path with the OPTIONS handlers |
| RouteTrie.UnsafeDisabledRouteExists | api/app/cors.go:159-165 | where it does not, some disabled route passes the check and shares a request path with them |
| RouteOrder.AddIsMerge | api/app/cors.go:34-79 | up to siblings still to be absorbed, an insertion puts the route beside the others |
| RouteOrder.CollapseFirst | api/app/cors.go:55-73 | absorbing siblings in a part of a merged tree first does not change what absorbing them all gives |
| RouteOrder.AlikeOnceCollapsed | api/app/cors.go:150-158 | whatever the order of the enabled routes, absorbing every remaining sibling gives the same tree |
| RouteOrder.SameTreeIff | api/app/cors.go:150-158 | next to an order that leaves every wildcard without siblings, another order of the same routes gives the same tree if and only if it does so too |
| RouteOrder.UnmixedRoutesAnyOrder | api/app/cors.go:150-158 | when the routes side by side have no static segment beside a parameter, every order gives exactly that tree |
| SiaEncoding.LittleEndianRoundTrip | slabs/encoding.go:36-45 | integers survive their little-endian bytes |
| SiaEncoding.PinnedSlabRoundTrip | slabs/encoding.go:32-47 | a pinned slab decodes to itself without upload times, whatever follows |
| SiaEncoding.SliceRoundTrip | slabs/encoding.go:50-67 | a slab slice decodes to itself with the shard count modulo 256 and without upload times, whatever follows |
| SiaEncoding.CombinedIsInjective | slabs/encoding.go:55-66 | the packed word determines offset and length |
| SiaEncoding.ObjectRoundTrip | slabs/encoding.go:70-91 | a sealed object decodes to its plain form, whatever follows |
| SiaEncoding.ObjectRoundTripIff | slabs/encoding.go:70-91 | it decodes to itself exactly when slices use at most 255 minimum shards, no sector has an upload time and both times are whole seconds |
| SiaEncoding.Encoder.EncodePinnedSlab | slabs/encoding.go:32-38 | the writes append exactly the slab's encoding |
| SiaEncoding.Encoder.EncodeSlice | slabs/encoding.go:50-56 | the writes append exactly the slice's encoding |
| SiaEncoding.Encoder.EncodeObject | slabs/encoding.go:70-79 | the writes append exactly the object's encoding |
| SiaEncoding.Decoder.DecodePinnedSlab | slabs/encoding.go:41-47 | the reads are the decoding function, failing exactly when it does |
| SiaEncoding.Decoder.DecodeSlice | slabs/encoding.go:59-67 | the reads are the decoding function, failing exactly when it does |
| SiaEncoding.Decoder.DecodeObject | slabs/encoding.go:82-91 | the reads are the decoding function, failing exactly when it does |
| SiaEncoding.MarshalUnmarshal | slabs/encoding.go:100-117 | marshalling and unmarshalling never fails and gives the plain form |
| SiaEncoding.DigestPreimageIsInjective | slabs/slabs.go:161-182 | version, minimum shards, key and roots are determined by the hashed bytes, although version 0 writes no byte |
| SiaEncoding.IdPreimageIsInjective | slabs/objects.go:213-233 | the hashed bytes of an object ID determine the slab IDs, offsets and lengths |
| SiaEncoding.DigestBinds | slabs/slabs.go:171-182 | equal digests, offsets and lengths mean slices with the same fields but for the host keys, unless the hash collides on exactly their two preimages |
| SiaEncoding.ObjectIdBinds | slabs/objects.go:213-222 | equal object IDs mean as many slices, each with the same fields but for the host keys, unless the hash collides on the two ID preimages or on the preimages of the two slices in one place |
| SiaEncoding.SameSlabsSameId | slabs/objects.go:213-222 | conversely nothing but these fields enters the ID: host keys and upload times do not |
| SiaEncoding.SlabDigest | slabs/slabs.go:171-182 | the hasher loop sums exactly that preimage |
| SiaEncoding.ObjectID | slabs/objects.go:214-222 | the hasher loop sums the preimage of the slices' digests |
| SiaEncoding.PinnedObjectID | slabs/objects.go:226-233 | the hasher loop sums the preimage of the request's slabs |
| SiaEncoding.PinRequest | slabs/objects.go:186-204 | the request's ID is the one recomputed from its own slabs, all other fields are carried over |

## Left out

- RPC transports, wallet, syncer, geo-IP, HTTP handlers, configuration and metrics: input, output and thin wrappers.
- SQL text, statistics counters and logging: the database calls are updates of maps.
- The internals of Reed-Solomon, the cipher, the hash, Merkle proofs and trigonometry: only the laws named above are used.
- Merkle proof updates of contract elements, and elements pruned after expiry: the replay claim is about contract contents and states.
- The host and wallet parts of one sync transaction, and block pruning after a sync: other packages' state.
- Contract formation, renewal and scan scheduling: case splits without state across steps.
- The pool variants `FundPools` and `UpdateFundedPools` run the same code on pools and have no model of their own.
- `HostQueue`, the network-wide throughput estimates and their defaults: short getters.
- SlabPinParams.Validate beyond the erasure parameters: a chain of field checks.
- The next repair attempt of a failed repair: only the failure count is modelled.
- Pruning.PruneContract: the database's needed set does not change during a call, which holds the contract's lock; uploads that add sectors to the host meanwhile are not modelled. Completeness is stated for contracts whose recorded size is the host's.
- Pinning.AllTurns: which turns come to what is stated for lists that name no contract twice; the lookup selects each contract once.
- Pinning.PinContract.AppendSectors: prices are linear in the number of sectors, as the sector cost the limit uses assumes.
- HostScore.Provider.PickReads: the clock and the in-flight counters stand still while the lock is held; a failure rate that crosses a half-life in the middle of a sort is not modelled.
- RouteTrie.MergeOptionsSub: trees are values here, so the sharing of sub-maps between a merged and a deleted node is not captured; the deleted node is never read again.
- SiaEncoding.Decoder.DecodeObject: decoding fills a zero value; time zones and the difference of nil and empty slices are not represented. go.sia.tech/core/types is not part of this model; the behaviour of its primitive encoder is stated in the file header.
- Funding.BackoffAsIntendedIff: stated up to 62 failures; beyond, the conversion of the power to int64 is platform-defined and a parameter, which Funding.BackoffVanishesIff takes to be the least or the greatest int64.
- Pruning.TailScanIff: the order in which a host refills freed slots is the host's; from the tail, highest slot first, is one of the orders Pruning.CompleteIffOneWindow ranges over.
- Recovery.SlabRecovery.RecoverAll: chunks are applied one at a time in any order, since they write disjoint windows; the interleaving inside a chunk is the race model.
