# A verified model of crow

crow is a chunk store. `diskdb` hands out block units on zoned disks, `chunkdb`
keeps chunk records whose strips name those blocks, a key-value layer holds both,
and a console keeps the registry of racks, nodes, servers and disks. This project
models the parts of it whose correctness spans several operations, and proves what
those parts promise for every input, every run and every interleaving.

**Zones of diskdb.** `ZoneProtocol` is one zone as a state machine: busy and free
records, the snapshot and the journal on disk; the bitmap, the watermark, unwritten
claims and the phase of a compaction in memory. Persists, batches and snapshot writes
may fail, a persist may be applied and yet report an error, frees and commits come with
whatever extent their caller names (the owner check before a free is off by default,
`ddb_config.rs:105`), and a restart may happen at any point by either recovery strategy
or, when both fail, with an empty bitmap.
What the steps do is kept apart from what a run is asked to keep: each of the following
adds its own named premises on single steps.

- `ZoneDiscipline`: no live block is ever lost, for extents of any size, when every claim
  fits: a replay, now or of the snapshot being written, sets all of it or none of it,
  and no free record reaches into it; and when frees and commits name a recorded extent.
  Invariants I4 and I5 of the design are meant to give this and, as the code keeps them,
  do not: a compaction whose slot read fails anchors its snapshot at slot 0 and marks the
  zone ready (`compaction.rs:113-124`), and only zones of the active set are skipped
  (`compaction.rs:224-233`), so a claim may be in flight in a zone being compacted.
- `ZoneReady`: the same under premises that can be checked. A claim needs no compaction
  under way and no free record at or below the watermark; an anchor, no put after it for
  a clear extent; a roll-back, no snapshot that holds the claim; a full scan, no free
  record left and nothing replayed that is not live. The code checks none of these: its
  flag is set whatever the anchor was, whatever is in flight and whatever a full scan
  left (`full_scan.rs:50-54`), and the second pass of the zone rotation
  (`model/disk.rs:190-201`) takes zones without it.
- `ZoneExact`: exactly which bitmap a restart rebuilds in such runs, with frees stamped
  late. The notes at the head of `recovery.rs` say that the replay applies busy and free
  operations; the code ignores frees (I10), so replay and scan differ, and the theorem is
  the superset together with the exact condition for equality.
- `ZoneGuards`: in every run with claims in such zones, with frees and commits of any
  extent, lost answers, roll-backs, claims in flight during a compaction, lost anchors
  and all restarts, the books balance throughout exactly when each such step meets its
  guard.
- `ZoneGrid`: when all blocks are cells of one partition, live blocks are secure
  throughout exactly when no step is raced, with no discipline and any full scan.
  `ZoneWatermark`: by the watermark (I7) nothing is, unless a full scan forgets.
- `ZoneReclaim`: what a compaction reclaims while persists, frees and commits go on.
- `ZoneHazards`: runs in which dropping one premise loses a live block, or leaves a unit
  set with no record.

`Bitmap` and `ZoneLoad` are the in-place loops, proved against the functions of the
protocol. `BlockRecords` is the client that writes the records in atomic batches.

**Chunk records of chunkdb.** `Allocator` is the retry loop that collects the blocks of
a strip. `ChunkRecords` and `Lifecycle` are the request handlers as a class over the
records and the blocks, where any call may fail; a count of failed calls says when a
handler may refuse and when it must not. `ChunkLocks` is the lock table with its
reaper and the cache that shares it, as a state machine over all interleavings, and
`LockTable` what the table promises beyond exclusion. `Routing`
is the bucket table, `ChunkKey` the key encoding, `KvGroup` a key-value group with paged
scans, `Migration` the copy and cleanup loops with nothing else running,
`MigrationRun` the same migration with puts, stale puts, reads, failed old legs and
restarted copies interleaved, and `CopyRun` what a copy left alone comes to.

**Background tasks, console, views.** `BgTask` is the stop protocol of background tasks.
`OwnerAssign` is the choice of an owner for a new disk group. `Expand` is the
depth-bounded walk, `PhysicalView` the builder that must agree with it, `DepthParameter`
the query value. `ConsoleConfig` is the registry and its mutators, `ConfigRecords`,
`ConfigPersist` and `Decimal` its round trip through keyed records and text keys,
`KeyedLists`, `Lexical` and `Paging` what they need about keyed lists, orders and pages.

Where a promise turns out not to hold of the code as it is, the code is kept, a lemma
gives a run or an input that shows it, and another gives the exact condition:

- zones: `ReplayIsScanIff`, `PutSurvivesRestartIff`, `ClaimKeepsIff`, `CleanIff`,
  `AnchorAgreesIff`, `RollBackAgreesIff`, `FullScanAgreesIff`, `BooksBalanceIff` with
  `FreeBalancesIff`, `StampBalancesIff`, `CommitBalancesIff`, `RollBackBalancesIff`,
  `AnchorBalancesIff`, `ReplayBalancesIff`, `FullScanBalancesIff` and `EmptyRestartIff`,
  `RollBackSafeIff`, `GridSecureIff`, `ClearRangeSparesIff`, and the runs `LostAnchor`,
  `ClaimInFlight`, `ClaimForgotten`, `ReuseAfterFailedBatch`, `FullScanThenRace`,
  `FullScanThenClaim`, `EmptyRestartLoses`, `FreedTwice`, `FreedWhileListed`,
  `CommittedLate`, `CommittedWhileListed`, `AnswerLost`, `NeverReclaimed`;
- cache and migration: `CoherentIff` with `UncachedRefreshIsStale` and `LostPutIsStale`,
  `ReadsFollowPutsIff` with `PutDuringCopyIsLost`, `FailedOldLegIsLost` and
  `StalePutIsLost`, `SlowReadIsRightIff` with `SlowReadMisses`;
- others: `OverlapsIff`, `EmptyRangeUnbinds`, `StopsUnaidedIff` with `WakeupLost`,
  `AssignKeepsSpreadIff` with `ReassigningUnbalances`, the equivalences in the contracts
  of `LoadZone`, `Allocate`, `Append`, `Seal`, `Delete`, `DeleteRange`, `UpdateStrip`, `Serve`
  and `RemoveNode`, and `TornIsShared` and `StaleDeleteFreesOthers`.

I/O, clocks, hashing and remote answers are parameters or free choices of the model: a
failing call is a nondeterministic branch, the answers of the disk pool are an arbitrary
function, the bucket hash is an arbitrary function of the chunk id.

## Model

| member | source | states |
|---|---|---|
| `Bitmap.UsageBitmap.RangeSet` | lib/crowdb-protocol/src/bitmap.rs:93-112 | bit by bit: when every bit of the range was clear exactly those are set, otherwise none changes, and the answer says which; no other bit changes |
| `Bitmap.UsageBitmap.RangeClear` | lib/crowdb-protocol/src/bitmap.rs:129-148 | the same for clearing: exactly a fully set range or nothing |
| `Bitmap.UsageBitmap.UndoTo` | lib/crowdb-protocol/src/bitmap.rs:101-107 | the roll-back loop rewrites exactly the bits already visited |
| `Bitmap.SetRangeCoversIff` | lib/crowdb-protocol/src/bitmap.rs:93-112 | after a set the extent is covered exactly when it was not partly covered before |
| `Bitmap.ClearRangeSparesIff` | lib/crowdb-protocol/src/bitmap.rs:129-148 | a clear leaves given set units alone exactly when the extent is apart from them, or not fully set and so not cleared |
| `Bitmap.ClearUndoesSet` | app/crowdb-diskdb/src/model/zone.rs:363-399 | rolling a claim back restores the bitmap |
| `ZoneProtocol.ScanIsLive` | app/crowdb-diskdb/src/recovery/full_scan.rs:24-91 | setting the listed busy extents one by one, in any order, gives exactly the live units |
| `ZoneProtocol.ReplayGrows` | app/crowdb-diskdb/src/recovery/journal_replay.rs:32-148 | replay never clears a bit |
| `ZoneProtocol.ReplayWrite` | app/crowdb-diskdb/src/recovery/journal_replay.rs:32-148 | a write appended to the journal changes a later replay by exactly that operation |
| `ZoneProtocol.OtherWriteOnlyMovesOn` | app/crowdb-diskdb/src/recovery/journal_replay.rs:79-94 | a write of another kind takes one journal slot and changes nothing else, now or after a replay |
| `ZoneProtocol.QuietIff` | app/crowdb-diskdb/src/recovery/journal_replay.rs:79-94 | a replay changes nothing exactly when no put in it is for a wholly clear extent |
| `ZoneDiscipline.ClaimKeepsIff` | app/crowdb-diskdb/src/model/alloc.rs:148-190 | a claim, also while a compaction is under way, keeps the invariant exactly when it fits: a replay, now or of a snapshot being written, sets all of it or none of it, and no free record, on disk or listed for a merge, reaches into it |
| `ZoneDiscipline.StepKeeps` | doc/design/diskdb/design-crowdb-diskdb-zone-management.md:908-950 | every step keeps the invariant: live and claimed extents disjoint and set in memory, live ones replayed, never covered by a free record; the premises are a claim that fits, a recorded extent on frees and commits, no persist applied with an error, and an empty restart only when nothing is live; claims in flight during a compaction, failed batches and lost anchors are included |
| `ZoneDiscipline.CleanFits` | doc/design/diskdb/design-crowdb-diskdb-zone-management.md:922-930 | with no compaction under way, nothing replayed that is clear and every free record covered, every claim fits: what I4 and I5 are for |
| `ZoneDiscipline.RunKeepsInv` | doc/design/diskdb/design-crowdb-diskdb-zone-management.md:908-950 | the invariant over whole runs |
| `ZoneDiscipline.DisciplinedRunsAreSafe` | app/crowdb-diskdb/src/model/alloc.rs:148-607 | no such run of claims, persists, commits, frees, compactions, failures and restarts loses a live block: live extents never overlap and every unit of them stays set |
| `ZoneGrid.StepKeeps` | app/crowdb-diskdb/src/recovery/compaction.rs:55-170 | with claims, frees and commits on one partition every unraced step keeps the invariant: races, failed batches, late and repeated frees and full scans with free records left included |
| `ZoneGrid.MergeClearsOnly` | app/crowdb-diskdb/src/model/zone.rs:419-467 | a merge clears no cell but those of records above the watermark |
| `ZoneGrid.MergeClears` | app/crowdb-diskdb/src/model/zone.rs:419-467 | and it clears all of those |
| `ZoneGrid.GridRunsAreSafe` | app/crowdb-diskdb/src/recovery/compaction.rs:55-170 | no such run loses a live block, though claims race with compaction, the zone is used on after a failed batch and a full scan forgets free records |
| `ZoneGrid.StepSecureIff` | app/crowdb-diskdb/src/recovery/compaction.rs:55-170 | a step on cells leaves live blocks safe, however the claims and the scan under way go on, exactly when it is unraced: a claim or commit of no cell that the scan is going to clear, a scan that lists no claimed cell as newly freed, a commit of a set and unclaimed cell, no lost answer, no empty restart with live blocks |
| `ZoneGrid.GridSecureIff` | app/crowdb-diskdb/src/recovery/compaction.rs:55-170 | over every run on cells, restarts of every kind included, live blocks are secure throughout exactly when every step was unraced |
| `ZoneWatermark.PlainIsUnraced` | app/crowdb-diskdb/src/model/zone.rs:419-467 | while every free record above the watermark has its cell set, no step is raced |
| `ZoneWatermark.StepKeeps` | app/crowdb-diskdb/src/recovery/compaction.rs:55-170 | and every step keeps it so, for frees of a busy cell or of one not merged yet, commits of a busy cell, and full scans with no free record left |
| `ZoneWatermark.PlainRunsAreSafe` | app/crowdb-diskdb/src/recovery/compaction.rs:55-170 | so in such runs claims may race with compaction, batches fail and anchors be lost without any check, and no live block is lost |
| `ZoneExact.MergeExact` | app/crowdb-diskdb/src/model/zone.rs:419-467 | a merge of the listed records clears their units and nothing else |
| `ZoneExact.StepKeeps` | app/crowdb-diskdb/src/model/alloc.rs:148-607 | memory is exactly the live, claimed and freed units and replay the live and freed ones and the claims its snapshot holds, after every step whose claim finds the zone clean, whose free is stamped late and on the books, whose anchor has no put of a clear extent after it, whose roll-back is of a claim no snapshot holds, and whose restart forgets no free record and no held claim |
| `ZoneExact.ReplayIsScanIff` | app/crowdb-diskdb/src/recovery.rs:116-237 | after every such run replay gives the live units, those of the free records left and the claims its snapshot holds; it equals the scan exactly when no free record and no such claim is left |
| `ZoneExact.LoadIsLiveIff` | app/crowdb-diskdb/src/recovery/journal_replay.rs:32-148 | the same for any zone satisfying the invariant |
| `ZoneReclaim.CompactionReclaims` | app/crowdb-diskdb/src/recovery/compaction.rs:55-170 | scan, merge, anchor, snapshot and batch reclaim every freed unit, remove every free record and leave the zone clean, with claims in flight or not |
| `ZoneReclaim.ReclaimsListed` | app/crowdb-diskdb/src/recovery/compaction.rs:55-170 | with persists, roll-backs, frees, commits and other writes between its steps in any order, a compaction whose batch goes through has removed every listed record and cleared its units, and memory and replay are exactly the live and claimed units and those freed since |
| `ZoneReady.CleanIff` | app/crowdb-diskdb/src/recovery/compaction.rs:55-170 | when memory and replay are accounted for, memory holds whatever a restart would set and covers the free records exactly when every free record is newer than the watermark in memory |
| `ZoneReady.BecomesReady` | app/crowdb-diskdb/src/recovery/journal_replay.rs:32-148 | in the runs of `ZoneExact` a restart and an applied compaction batch leave the zone ready for claims, and clean |
| `ZoneReady.StaysReady` | app/crowdb-diskdb/src/model/disk.rs:149-209 | and a ready zone stays ready until its next compaction starts |
| `ZoneReady.StepKeeps` | app/crowdb-diskdb/src/recovery/compaction.rs:55-170 | every checked step leaves memory holding whatever a replay would set, but for merged records, and freed units above a watermark set in memory and replay; frees may be stamped in any way, claims be in flight when a compaction starts, and a replay come at any point |
| `ZoneReady.ReadyRunsAreSafe` | app/crowdb-diskdb/src/model/disk.rs:149-209 | so no run that makes these checks loses a live block |
| `ZoneReady.AnchorAgreesIff` | app/crowdb-diskdb/src/recovery/compaction.rs:113-150 | a compaction that goes through leaves memory holding whatever a replay would set exactly when no put after its anchor is for a clear extent |
| `ZoneReady.RollBackAgreesIff` | app/crowdb-diskdb/src/model/alloc.rs:179-190 | a roll-back does exactly when no snapshot, written or built, holds the claim |
| `ZoneReady.FullScanAgreesIff` | app/crowdb-diskdb/src/recovery/full_scan.rs:24-91 | a full scan does, and covers all free records, exactly when no free record is left and nothing is replayed, from a snapshot it goes on with, that is not live |
| `ZoneGuards.FreeBalancesIff` | app/crowdb-diskdb/src/model/alloc.rs:356-530 | a free of any extent, stamped late, keeps the books balanced, now and after the merge of a scan under way, exactly when a busy record has that extent, or a free record has it that is neither merged nor listed for a merge; the same condition keeps the invariant, and with it all that follows |
| `ZoneGuards.StampBalancesIff` | app/crowdb-diskdb/src/recovery.rs:172-234 | a free of such an extent keeps them balanced exactly when its stamp is above both watermarks and the one the merge of a scan under way will set; with any other stamp units stay set that no record accounts for |
| `ZoneGuards.CommitBalancesIff` | app/crowdb-diskdb/src/model/alloc.rs:563-607 | a commit that writes back what it read before keeps them balanced exactly when that record is still there, or is freed and neither merged nor listed for a merge |
| `ZoneGuards.RollBackSafeIff` | app/crowdb-diskdb/src/model/alloc.rs:179-190 | rolling a claim back, also during a compaction, loses no live block at once exactly when the failed persist left no busy record |
| `ZoneGuards.RollBackBalancesIff` | app/crowdb-diskdb/src/model/alloc.rs:179-190 | and leaves the books balanced, now and once a snapshot under way is written, exactly when no snapshot, written, built or about to be built, holds the claim |
| `ZoneGuards.AnchorBalancesIff` | app/crowdb-diskdb/src/recovery/compaction.rs:113-124 | an anchor, at the applied slot or at slot 0, leaves the books balanced, now and once its snapshot is written, exactly when no put after it is for a clear extent |
| `ZoneGuards.ReplayBalancesIff` | app/crowdb-diskdb/src/recovery/journal_replay.rs:32-148 | a restart by replay leaves the books balanced exactly when the snapshot holds no claim |
| `ZoneGuards.FullScanBalancesIff` | app/crowdb-diskdb/src/recovery/full_scan.rs:24-91 | a full scan leaves the books balanced and the zone clean exactly when no free record is left, and no claim in a snapshot that it goes on with |
| `ZoneGuards.EmptyRestartIff` | app/crowdb-diskdb/src/recovery.rs:183-203 | a zone that comes up empty is safe exactly when nothing was live, and balanced exactly when nothing was freed, nor held by the snapshot, either |
| `ZoneGuards.BooksBalanceIff` | app/crowdb-diskdb/src/model/alloc.rs:148-607 | over every run with claims in ready zones, with claims in flight during compactions and lost anchors: the books balance throughout exactly when every free, commit, persist, roll-back, anchor and restart met its condition, and then no live block is lost |
| `ZoneHazards.PutSurvivesRestartIff` | app/crowdb-diskdb/src/recovery/journal_replay.rs:32-148 | a written block survives a replay exactly when its extent was not partly set before its put |
| `ZoneHazards.LostAnchor` | app/crowdb-diskdb/src/recovery/compaction.rs:113-173 | a run without races and without failures but for one slot read: the snapshot is anchored at slot 0, the zone is ready, a block is written over an old put, and a restart makes half of it claimable |
| `ZoneHazards.ClaimInFlight` | app/crowdb-diskdb/src/recovery/compaction.rs:224-233 | a run in which a claim is in flight while its zone is compacted, its persist fails after the snapshot was written with it, a block is written over it in the ready zone, and a restart makes half of it claimable |
| `ZoneHazards.ClaimForgotten` | app/crowdb-diskdb/src/recovery/compaction.rs:224-233 | the same up to a restart in place of the failed persist, after which the units are set with no record |
| `ZoneHazards.ReuseAfterFailedBatch` | app/crowdb-diskdb/src/recovery/compaction.rs:55-170 | a run with mixed sizes, used on after a failed batch, that makes a live block claimable |
| `ZoneHazards.FullScanThenRace` | app/crowdb-diskdb/src/recovery/full_scan.rs:24-91 | a run with a full scan before compaction and a racing claim that makes a live block claimable |
| `ZoneHazards.FullScanThenClaim` | app/crowdb-diskdb/src/recovery/full_scan.rs:50-54 | a run without races whose every claim finds its zone ready: a full scan forgets a free record, a block is written over it, and the next merge makes half of the live block claimable |
| `ZoneHazards.EmptyRestartLoses` | app/crowdb-diskdb/src/recovery.rs:183-203 | a run in which a zone comes up empty and a live block is claimable |
| `ZoneHazards.FreedTwice` | app/crowdb-diskdb/src/model/alloc.rs:356-530 | a run in which a free arrives again after its units were given out anew, and the next merge makes half of a live block claimable |
| `ZoneHazards.AnswerLost` | app/crowdb-diskdb/src/model/alloc.rs:179-188 | a run in which an applied persist reports an error and the roll-back makes a live block claimable |
| `ZoneHazards.CommittedLate` | app/crowdb-diskdb/src/model/alloc.rs:563-607 | a run in which a late commit brings back a freed block inside a live one |
| `ZoneHazards.CommittedWhileListed` | app/crowdb-diskdb/src/model/alloc.rs:563-607 | a run in which a late commit brings back a block that a scan has listed, and the merge makes it claimable |
| `ZoneHazards.FreedWhileListed` | app/crowdb-diskdb/src/model/alloc.rs:356-530 | a run in which a free repeated after the scan leaves a record above the watermark for units that the merge has cleared |
| `ZoneHazards.NeverReclaimed` | app/crowdb-diskdb/src/recovery.rs:226-234 | a disciplined run with a free stamped at the watermark, after which a unit is set, in memory and in every replay, with no record |
| `ZoneLoad.LoadZoneInner` | app/crowdb-diskdb/src/recovery/journal_replay.rs:32-148 | the replay loop computes the replay of the journal over the snapshot; it succeeds exactly when snapshot read, busy scan and free scan all do, and which of the three failing gives which error; newest freed stamp and backlog |
| `ZoneLoad.ReplayBusy` | app/crowdb-diskdb/src/recovery/journal_replay.rs:79-94 | the in-place loop over the busy operations computes their replay |
| `ZoneLoad.ReadFreed` | app/crowdb-diskdb/src/recovery/journal_replay.rs:100-120 | the loop over the free operations returns the newest stamp among them, and puts less deletes as the backlog |
| `ZoneLoad.NetIsDifference` | app/crowdb-diskdb/src/recovery/journal_replay.rs:100-120 | the backlog is the number of free puts less the number of free deletes |
| `ZoneLoad.RebuildZoneBitmapFullScan` | app/crowdb-diskdb/src/recovery/full_scan.rs:24-91 | the scan loop computes the bits of the listed records |
| `ZoneLoad.CompactZoneInner` | app/crowdb-diskdb/src/model/zone.rs:419-467 | the in-place merge computes the merged bits and watermark, never lowers the watermark, counts every record once and changes nothing when all are stale |
| `ZoneLoad.NewerCounts` | app/crowdb-diskdb/src/model/zone.rs:419-467 | the count of merged records is the number of those above the watermark |
| `ZoneLoad.LoadZone` | app/crowdb-diskdb/src/recovery.rs:144-203 | one zone of its own size: the journal over the snapshot when replayed, exactly the live units when scanned, no bit when neither; live blocks are covered exactly when replay or scan succeeded and the load did not panic, or there are none; a stamp only from a replay |
| `ZoneLoad.LoadDiskGroup` | app/crowdb-diskdb/src/recovery.rs:116-237 | that, for every zone of a disk group; the stamp returned is the newest of the zones replayed |
| `ZoneLoad.RunsStayRecoverable` | app/crowdb-diskdb/src/recovery.rs:116-237 | what is on disk after any disciplined run satisfies what loading needs |
| `BlockRecords.DdbKv.BatchWrite` | app/crowdb-diskdb/src/ddb_kv_client.rs:95-224 | a batch is applied whole, in order, or not at all; one that reports an error may be either, and none does when calls succeed |
| `BlockRecords.DdbKv.PersistBusyBatch` | app/crowdb-diskdb/src/ddb_kv_client.rs:129-157 | a batch of allocations, when applied, equals its single writes one after another, and it keeps busy and free keys apart |
| `BlockRecords.DdbKv.PersistFreeBatch` | app/crowdb-diskdb/src/ddb_kv_client.rs:196-224 | the same for frees |
| `BlockRecords.DdbKv.CompactZoneBatch` | app/crowdb-diskdb/src/ddb_kv_client.rs:348-373 | together or not at all, whatever is reported: the snapshot is under its key, no listed free key is left, and every other zone, busy and free key is as it was |
| `BlockRecords.CompactionPutsSnapshot` | app/crowdb-diskdb/src/ddb_kv_client.rs:348-373 | the same of the batch as a function, which also keeps busy and free keys apart |
| `BlockRecords.SnapshotDetermined` | app/crowdb-diskdb/src/ddb_kv_client.rs:348-373 | and that determines the records after it |
| `BlockRecords.HistoryIsExclusive` | app/crowdb-diskdb/src/ddb_kv_client.rs:95-224 | no history of batches leaves an offset both busy and free |
| `BlockRecords.BatchAt` | app/crowdb-diskdb/src/ddb_kv_client.rs:129-224 | offset by offset, a batch of distinct offsets leaves each record under its own key with its value, the opposite key gone, and no other offset touched |
| `BlockRecords.BatchInAnyOrder` | app/crowdb-diskdb/src/ddb_kv_client.rs:129-224 | a batch of distinct offsets is its single writes in any order |
| `Allocator.AskAll` | app/crowdb-chunkdb/src/allocator.rs:119-135 | one round asks every pending entry once for what it misses, and every answer is logged |
| `Allocator.Tally` | app/crowdb-chunkdb/src/allocator.rs:138-159 | all granted segments in order, what each short answer still misses, and the failures in order |
| `Allocator.FailedFirst` | app/crowdb-chunkdb/src/allocator.rs:138-159 | the failure reported is the first one among the answers |
| `Allocator.RoundServes` | app/crowdb-chunkdb/src/allocator.rs:119-135 | every call of a round goes to the disk group of its plan entry and asks for exactly what that entry misses at that point |
| `Allocator.BooksAfterRound` | app/crowdb-chunkdb/src/allocator.rs:138-167 | after a round without failures, what is pending is exactly what every plan entry still misses, and all other entries are served |
| `Allocator.SharesAreAll` | app/crowdb-chunkdb/src/allocator.rs:138-167 | every segment granted belongs to the share of one plan entry |
| `Allocator.GrantedByOne` | app/crowdb-chunkdb/src/allocator.rs:138-159 | what the calls granted, call by call and in order |
| `Allocator.SumOfEntries` | app/crowdb-chunkdb/src/allocator.rs:178-178 | what a plan asks for is the counts of its entries together |
| `Allocator.AllocateBlocksParallel` | app/crowdb-chunkdb/src/allocator.rs:98-205 | for every pattern of short, excess and failed answers: every plan entry got at least what it asked for from calls to its own disk group and nothing is freed, or everything any call granted is freed once; at most four rounds and no more calls for an entry than rounds; a failure is reported exactly when some answer failed, with the first one's disk group, and a partial allocation only after four rounds with some entry short |
| `ChunkRecords.PutSoundIff` | app/crowdb-chunkdb/src/lifecycle.rs:451-477 | putting a record keeps the records sound exactly when it is deleted, or its blocks are held, named once and named by no other live record |
| `ChunkRecords.FreeOwn` | app/crowdb-chunkdb/src/lifecycle.rs:629-646 | freeing blocks of a record that stays live is harmless exactly when none was freed |
| `ChunkRecords.PutForwardIff` | app/crowdb-chunkdb/src/lifecycle/state.rs:44-70 | a put moves no record backwards exactly when its state does not rank lower than the stored one |
| `ChunkRecords.StatesInOrder` | app/crowdb-chunkdb/src/lifecycle/state.rs:44-70 | the order in which states may follow each other |
| `ChunkRecords.CapacityConcat` | app/crowdb-chunkdb/src/lifecycle.rs:469-469 | capacities add up across strip lists, wrapping at 32 bits |
| `ChunkRecords.OneMoreStrip` | app/crowdb-chunkdb/src/lifecycle.rs:451-477 | what one strip adds to capacity, blocks and block counts |
| `ChunkRecords.SelectSplits` | app/crowdb-chunkdb/src/lifecycle.rs:688-707 | a range delete loses and duplicates no block: each is with a removed or a kept strip |
| `ChunkRecords.SelectMembers` | app/crowdb-chunkdb/src/lifecycle.rs:690-694 | a strip is removed exactly when the overlap test hits, as often as it was there |
| `ChunkRecords.SelectInOrder` | app/crowdb-chunkdb/src/lifecycle.rs:688-707 | the strips kept, and those removed, stay in order: exactly the places where the test says so |
| `ChunkRecords.OverlapsIff` | app/crowdb-chunkdb/src/lifecycle.rs:688-694 | the overlap test, with its saturating sums, means a shared unit, or an empty range or strip strictly inside the other |
| `ChunkRecords.FreshStripRemovedIff` | app/crowdb-chunkdb/src/allocator.rs:209-252 | since strips are laid down at offset 0, a range delete removes exactly the strips longer than its offset, unless offset and size are both 0 |
| `Lifecycle.Handler.AllocateStrips` | app/crowdb-chunkdb/src/lifecycle.rs:451-458 | the strip loop names only newly granted blocks, each once, and numbers strips on in order |
| `Lifecycle.Handler.FreeStrips` | app/crowdb-chunkdb/src/lifecycle.rs:629-637 | a free may succeed in part, and frees every block when it does not fail; its precondition, met at every call, is that no grant is freed twice |
| `Lifecycle.Handler.CommitStrips` | app/crowdb-chunkdb/src/lifecycle.rs:812-823 | a commit may succeed in part, and commits every tentative block when it does not fail; it keeps the invariant when a record names the blocks |
| `Lifecycle.Handler.Allocate` | app/crowdb-chunkdb/src/lifecycle.rs:390-490 | keeps the invariant, also when its put was applied and reported an error; `AlreadyExists` exactly for a stored id when locks are attached, any other refusal only when a call failed; a refusal commits nothing; with no failing call a new record is stored and its blocks committed; exactly when a record moves backwards |
| `Lifecycle.Handler.Append` | app/crowdb-chunkdb/src/lifecycle.rs:494-561 | only adds strips; `NotFound` only for an id not stored, `InvalidState` only for a record not Active, any other refusal only when a call failed, and with no failing call an Active record is extended and the new blocks committed; a refusal commits nothing; the invariant survives exactly when its put did not leave the old record cached, which needs an applied put that reported an error |
| `Lifecycle.Handler.Seal` | app/crowdb-chunkdb/src/lifecycle.rs:564-602 | only an Active chunk, only state and length, blocks untouched; the same causes of refusal, and with no failing call an Active record is sealed; the same equivalence for the cached record |
| `Lifecycle.Handler.Delete` | app/crowdb-chunkdb/src/lifecycle.rs:607-653 | the invariant survives exactly when the record was stored or nothing had been freed, and the cached record is right; `NotFound` only for an id not stored or deleted, `InvalidState` only for one never allocated, any other refusal only when a call failed; with no failing call the record is deleted and every block freed |
| `Lifecycle.Handler.DeleteRange` | app/crowdb-chunkdb/src/lifecycle.rs:660-714 | the same equivalence; keeps exactly the strips not hit and frees only blocks of those hit; the causes of refusal of an append, and with no failing call every block of the strips hit is freed |
| `Lifecycle.Handler.UpdateStrip` | app/crowdb-chunkdb/src/lifecycle.rs:720-784 | the invariant survives exactly when the new record fits and the cached one is right, or, when nothing was stored, when nothing was freed and nothing unnamed committed; blocks granted for the strip and named by no record always fit; refused only for an id not stored, a record neither Active nor Sealed, an index past the end, or a failed call; with no failing call the old blocks are freed and the new ones committed |
| `Lifecycle.Handler.Handle` | app/crowdb-chunkdb/src/lifecycle.rs:390-784 | one request changes at most the record it names and keeps the invariant exactly when it is not torn: no put failed after blocks were freed or committed for it, and no put was applied with an error while another record stayed cached; when no call fails it is not torn and does what it asks for, or nothing where that is refused |
| `Lifecycle.Handler.Serve` | app/crowdb-chunkdb/src/lifecycle.rs:390-784 | over every run of requests, with given and generated ids, up to the first torn one: live records share no block and name no free one, cached records are the stored ones, committed blocks have been named by a record, capacities are the sums of their strips, states only move forward, deleted records never change, and strips stay numbered in order without range deletes and strip updates; the records before and after each request show that it changed at most its own record and, when no call failed, was performed |
| `Lifecycle.TornIsShared` | app/crowdb-chunkdb/src/lifecycle.rs:629-646 | what a torn request leaves behind: a live record whose freed block can be granted again, and once another record names it no set of held blocks makes the records sound |
| `Lifecycle.StaleDeleteFreesOthers` | app/crowdb-chunkdb/src/lifecycle.rs:607-653 | a delete repeated on the record left in the cache frees blocks that another record may name |
| `Lifecycle.TornExamples` | app/crowdb-chunkdb/src/lifecycle.rs:607-784 | sound records on which a delete, a range delete and a strip update each free a block before their put |
| `ChunkLocks.ReapedUnused` | app/crowdb-chunkdb/src/lifecycle.rs:188-194 | the reaper never takes an entry someone waits for or holds; it takes out that entry and touches nothing else |
| `ChunkLocks.LockStep` | app/crowdb-chunkdb/src/lifecycle.rs:113-269 | every step keeps all users of a chunk's lock on the one mutex in the table |
| `ChunkLocks.MutualExclusion` | app/crowdb-chunkdb/src/lifecycle.rs:113-269 | in every interleaving at most one caller is inside the lock of a chunk |
| `LockTable.TableStep` | app/crowdb-chunkdb/src/lifecycle.rs:113-269 | every step keeps chunks on mutexes of their own |
| `LockTable.ChunksAreIndependent` | app/crowdb-chunkdb/src/lifecycle.rs:113-269 | in every interleaving no two chunks share a mutex, a waiting caller may enter exactly when nobody is inside its chunk, and an entry may be reaped exactly when nobody wants the chunk |
| `LockTable.LeavingLetsIn` | app/crowdb-chunkdb/src/lifecycle.rs:316-329 | whichever way the caller inside a chunk leaves, the next one may enter |
| `LockTable.ReaperPass` | app/crowdb-chunkdb/src/lifecycle.rs:188-194 | a pass of the reaper can always be made, and leaves exactly the entries of chunks in use, each with its mutex, and everything else as it was |
| `LockTable.RelockedIsNew` | app/crowdb-chunkdb/src/lifecycle.rs:239-244 | a chunk locked again after its entry was reaped gets a mutex no chunk has had before |
| `LockTable.ReapedAndRelocked` | app/crowdb-chunkdb/src/lifecycle.rs:188-244 | a run that does so: acquired, given up, reaped, acquired again with another mutex |
| `LockTable.EvictedIsFetched` | app/crowdb-chunkdb/src/lifecycle.rs:127-143 | an evicted record is read from the store by the next caller inside, and no other cached record is touched |
| `LockTable.NoCacheLeavesCache` | app/crowdb-chunkdb/src/lifecycle.rs:133-313 | what a caller with the no-cache hint reads or puts never enters the cache; with the other hint it does |
| `LockTable.UpdateIsFound` | app/crowdb-chunkdb/src/lifecycle.rs:308-313 | the put of a caller that caches is stored and cached when it leaves |
| `ChunkLocks.CacheStep` | app/crowdb-chunkdb/src/lifecycle.rs:127-225 | every step keeps cached records right but for chunks being updated, unless an uncached refresh or a put with a lost answer leaves another record behind |
| `ChunkLocks.CacheIsCoherent` | app/crowdb-chunkdb/src/lifecycle.rs:113-313 | in such runs, whenever nobody is inside a chunk's lock its cached record is the stored one; a caller about to put holds the stored record, so no update is lost |
| `ChunkLocks.RefreshIsRightIff` | app/crowdb-chunkdb/src/lifecycle.rs:308-313 | a refresh leaves the cache right exactly when it caches, or there was no other cached record |
| `ChunkLocks.StepIsRightIff` | app/crowdb-chunkdb/src/lifecycle.rs:308-313 | a step leaves the cache right exactly when it leaves no other record of its chunk behind |
| `ChunkLocks.CoherentIff` | app/crowdb-chunkdb/src/lifecycle.rs:113-313 | in every interleaving, with both hints and failing puts, the cache is right throughout exactly when no uncached refresh and no put with a lost answer leaves another record cached |
| `ChunkLocks.UncachedRefreshIsStale` | app/crowdb-chunkdb/src/lifecycle.rs:308-313 | a caller with the no-cache hint leaves the old record cached |
| `ChunkLocks.LostPutIsStale` | app/crowdb-chunkdb/src/lifecycle.rs:475-480 | so does a caller that leaves between an applied put and its refresh |
| `ChunkKey.KeyOfIdParses` | app/crowdb-chunkdb/src/storage.rs:191-197 | parsing the key of an id gives the id |
| `ChunkKey.ParsedKeyIsKeyOfId` | app/crowdb-chunkdb/src/migration.rs:190-197 | only keys of ids parse |
| `ChunkKey.KeyOrderIsIdOrder` | app/crowdb-chunkdb/src/storage.rs:191-197 | byte order of keys is the order of ids |
| `KvGroup.Group.Scan` | app/crowdb-chunkdb/src/migration.rs:78-93 | a page lists keys with the prefix behind the cursor, in order, with their values, and leaves out none up to its last key, none at all when it is the last page; it is cut short only when full |
| `Migration.InRangeIsRouting` | app/crowdb-chunkdb/src/migration.rs:106-109 | the test on a key is that it is the key of a chunk whose bucket is in the range |
| `Migration.PageCovers` | app/crowdb-chunkdb/src/migration.rs:78-133 | moving the cursor to the last key of a page skips nothing |
| `Migration.CopyPhase` | app/crowdb-chunkdb/src/migration.rs:72-133 | paging ends; on success the new group gains exactly the in-range records with their values; on failure only such records were written; it succeeds when no call fails |
| `Migration.CleanupPhase` | app/crowdb-chunkdb/src/migration.rs:136-186 | paging ends; without failed deletes the old group keeps exactly the out-of-range records; nothing out of range is ever deleted; no delete fails when no call does |
| `Migration.RunMigration` | app/crowdb-chunkdb/src/migration.rs:41-68 | nothing is deleted from the old group unless everything had been copied; without failed deletes every in-range record has changed hands with its value and every other key is as it was in both groups; that is so whenever no call fails |
| `MigrationRun.StepKeeps` | app/crowdb-chunkdb/src/migration.rs:72-186 | every step that meets its check keeps the invariant behind reads: a copied key in the new group with the same value, or absent there and unchanged in the old one; no key missing when the dual states are left; a deleted key present in the new group; a stale put on a key absent there or there with the same value |
| `MigrationRun.ReadsFollowPuts` | app/crowdb-chunkdb/src/storage.rs:51-104 | when the dual states last until the copy is finished and no put is stale, reads return the last value put at every point exactly when every copied item meets its check |
| `MigrationRun.ReadsFollowPutsIff` | app/crowdb-chunkdb/src/storage.rs:51-104 | for every run, with puts routed before the migration began included: reads are right at every point exactly when every copy, stale put, delete and leaving of the dual states meets its check |
| `MigrationRun.CopyIsRightIff` | app/crowdb-chunkdb/src/migration.rs:99-125 | copying an item leaves reads right exactly when the new group has it with the same value, or lacks its key while the old one still has that value |
| `MigrationRun.LeaveIsRightIff` | app/crowdb-chunkdb/src/migration.rs:41-68 | leaving the dual states leaves reads right exactly when no key of the old group is missing in the new one |
| `MigrationRun.StaleIsRightIff` | app/crowdb-chunkdb/src/storage.rs:51-75 | a put routed before the migration began is read exactly when the new group has its key with the same value, or lacks it in the dual states |
| `MigrationRun.DeleteIsRightIff` | app/crowdb-chunkdb/src/migration.rs:136-186 | a key deleted from the old group leaves reads right exactly when the new one has it |
| `MigrationRun.FinishedMayLeave` | app/crowdb-chunkdb/src/migration.rs:41-68 | after a finished copy the dual states may be left and any key deleted |
| `CopyRun.PageIsCopied` | app/crowdb-chunkdb/src/migration.rs:78-133 | a page that was read can be copied whole, item by item; the new group then has its items over what it had, and the next page begins behind it |
| `CopyRun.CopyFinishes` | app/crowdb-chunkdb/src/migration.rs:72-133 | from wherever it is, a copy left alone finishes, with every record ahead of it in the new group and every other key as it was |
| `CopyRun.CopyStartedOver` | app/crowdb-chunkdb/src/migration.rs:72-133 | started over, it leaves the new group with every record of the old one |
| `CopyRun.PutWritesNew` | app/crowdb-chunkdb/src/storage.rs:51-75 | a put is read at once, and has an old leg in the dual states only |
| `CopyRun.OldLegEnds` | app/crowdb-chunkdb/src/storage.rs:61-66 | however the old leg of a put ends, the key is free for the next put, and only a leg that did not fail has changed the old group |
| `MigrationRun.ScheduleSuffices` | app/crowdb-chunkdb/src/migration.rs:72-186 | reads are right throughout when no put starts on a key between its page and its copy, no page lists a key of a put half done, old legs succeed, no put is stale, and a copy is started over only in the dual states |
| `MigrationRun.SlowReadIsRightIff` | app/crowdb-chunkdb/src/storage.rs:78-104 | a read that misses the new group and then tries the old one returns a value that was last during the read exactly when nothing had been put, or the last old leg, stale put or cleanup of the key in between was no cleanup |
| `MigrationRun.PutDuringCopyIsLost` | app/crowdb-chunkdb/src/migration.rs:99-125 | a put between the page read and the copy of its key is overwritten |
| `MigrationRun.FailedOldLegIsLost` | app/crowdb-chunkdb/src/storage.rs:51-75 | a dual write whose old leg failed ahead of the copy is overwritten |
| `MigrationRun.StalePutIsLost` | app/crowdb-chunkdb/src/storage.rs:51-75 | a put routed before the migration began, between the page read and the copy of its key, is overwritten |
| `MigrationRun.SlowReadMisses` | app/crowdb-chunkdb/src/storage.rs:78-104 | a read overtaken by copy and cleanup finds nothing |
| `Routing.BindingCache.UpdateBinding` | app/crowdb-chunkdb/src/migration.rs:208-218 | retains what is clear of the new range, adds it, sorts by start, and keeps ranges disjoint |
| `Routing.RetainInOrder` | app/crowdb-chunkdb/src/migration.rs:208-218 | what is clear of the new range is retained in order |
| `Routing.UpdateKeepsDisjoint` | app/crowdb-chunkdb/src/migration.rs:208-218 | disjoint ranges stay disjoint |
| `Routing.UpdateRoutes` | app/crowdb-chunkdb/src/migration.rs:208-218 | where every bucket goes after an update: to the new binding, where it went before if that binding was clear of it, or nowhere |
| `Routing.EmptyRangeUnbinds` | app/crowdb-chunkdb/src/migration.rs:208-218 | an empty range inside a binding takes the whole binding away |
| `Routing.RouteIsFirst` | app/crowdb-chunkdb/src/routing.rs:55-57 | in any table the first binding that holds the bucket is the route |
| `Routing.RouteUnique` | app/crowdb-chunkdb/src/routing.rs:55-57 | in a disjoint table the route is the one binding that holds the bucket |
| `Routing.LastBucketUnbound` | app/crowdb-chunkdb/src/routing.rs:55-57 | no table routes bucket 65535 |
| `Routing.DefaultTableRoutesIff` | app/crowdb-chunkdb/src/routing.rs:143-155 | the default table binds exactly buckets 0 to 65534, each to the default store and group with no migration under way |
| `BgTask.AtMostOneMore` | app/crowdb-diskdb/src/bg_task.rs:169-203 | in every interleaving at most one cycle starts, and at most one wait is ended by a trigger, after the flag is stored, and never both |
| `BgTask.StopsOnlyAfterFlag` | app/crowdb-diskdb/src/bg_task.rs:169-203 | in every interleaving the task ends only after the flag is stored |
| `BgTask.TriggerRunsCycle` | app/crowdb-diskdb/src/bg_task.rs:187-203 | until then, a wait whose trigger has fired is followed by one cycle and the next wait |
| `BgTask.WakeupGoesFirst` | app/crowdb-diskdb/src/bg_task.rs:187-195 | a wakeup reaches only a wait that exists and is taken before the trigger, which then is not used up |
| `BgTask.StepsUseUpRank` | app/crowdb-diskdb/src/bg_task.rs:169-203 | once the flag is stored the task ends within three of its own steps |
| `BgTask.BlockedOnlyInWait` | app/crowdb-diskdb/src/bg_task.rs:187-191 | a task that has not stopped is blocked only in a wait that neither trigger nor wakeup has reached |
| `BgTask.StopsUnaidedIff` | app/crowdb-diskdb/src/bg_task.rs:106-109 | it stops without a further trigger exactly when the wakeup did not land between its first check and its wait |
| `BgTask.OneTriggerSuffices` | app/crowdb-diskdb/src/bg_task.rs:169-226 | even then one trigger is enough |
| `BgTask.WakeupLost` | app/crowdb-diskdb/src/bg_task.rs:169-190 | a run in which the wakeup is lost and the task waits |
| `OwnerAssign.PickLeastLoaded` | app/crowdb-web/src/lifecycle.rs:1522-1539 | nothing exactly for an empty list, else the instance that owns fewest, lowest id first |
| `OwnerAssign.LoadCounts` | app/crowdb-web/src/lifecycle.rs:1522-1539 | the load of an instance is the number of entries that name it |
| `OwnerAssign.PickIgnoresOrder` | app/crowdb-web/src/lifecycle.rs:1522-1539 | the pick does not depend on the order of the list |
| `OwnerAssign.AssignKeepsSpreadIff` | app/crowdb-web/src/lifecycle.rs:1547-1577 | giving a disk group to the pick keeps a spread from 1 up exactly when it is new, or its owner is not listed or is the pick, or the owner can lose it and stay within the spread of all others |
| `OwnerAssign.OwnerRegistry.AutoAssign` | app/crowdb-web/src/lifecycle.rs:1547-1577 | writes the pick as owner in place or at the end, touches no other entry, does nothing without instances, keeps a spread exactly under that condition |
| `OwnerAssign.OwnerRegistry.AssignAll` | app/crowdb-web/src/lifecycle.rs:1547-1577 | any number of new disk groups each end up with a listed instance, no other entry changes, and the spread is at most the larger of what it was and 1 |
| `OwnerAssign.ReassigningUnbalances` | app/crowdb-web/src/lifecycle.rs:1547-1577 | assigning two disk groups and then the second one again puts both on one of two instances, whatever the picks |
| `Expand.Walker.WalkInner` | lib/crowdb-console-shared/src/expand.rs:155-179 | the recursive walk appends exactly the preorder visits within the remaining hops and the cut-off chains, and restores its path |
| `Expand.Walk` | lib/crowdb-console-shared/src/expand.rs:143-153 | a walk enters, in preorder, exactly the resources within its depth and reports exactly those at the depth that have children |
| `Expand.PreorderReaches` | lib/crowdb-console-shared/src/expand.rs:136-179 | the traversal visits exactly the resources reached from the root |
| `Expand.UpToInOrder` | lib/crowdb-console-shared/src/expand.rs:143-179 | the visits within a depth are those of the traversal that are near enough, in its order |
| `Expand.CutAtInOrder` | lib/crowdb-console-shared/src/expand.rs:164-172 | the chains cut off are those of the visits at the depth that have children, in its order |
| `Expand.DepthInHops` | lib/crowdb-console-shared/src/expand.rs:21-48 | no depth is no hop, a number is that many, everything is eight |
| `Expand.PrunedShowsAll` | lib/crowdb-console-shared/src/expand.rs:136-153 | a view pruned at the depth shows exactly the chains the walk of the full view enters |
| `Expand.PrunedHidesCuts` | app/crowdb-web/src/physical_view.rs:153-159 | a walk of the pruned view reports nothing cut off, which is why truncation is recorded while building |
| `DepthParameter.ParseDepth` | lib/crowdb-console-shared/src/expand.rs:57-78 | an accepted text means the depth returned, at most 8 hops; a refused one means none; out of range is a number above 8 within 32 bits, malformed no such number, reported as it came |
| `DepthParameter.AcceptedIff` | lib/crowdb-console-shared/src/expand.rs:57-78 | exactly which texts are accepted and for which depth: in any white space nothing or zero, the word `all`, or a number from 1 to 8 with an optional plus sign |
| `DepthParameter.OutOfRangeIff` | lib/crowdb-console-shared/src/expand.rs:57-78 | exactly which texts are out of range: larger numbers within 32 bits |
| `DepthParameter.PrintedDepthParses` | lib/crowdb-console-shared/src/expand.rs:57-78 | every printed number, in any white space, is accepted up to 8, out of range up to 32 bits, malformed beyond |
| `DepthParameter.AllInAnyCase` | lib/crowdb-console-shared/src/expand.rs:62-64 | the word `all` in any case and white space asks for the maximum |
| `PhysicalView.NodesInRack` | app/crowdb-web/src/physical_view.rs:239-239 | the children of a rack are exactly the listed nodes that name it |
| `PhysicalView.NodesInOrder` | app/crowdb-web/src/physical_view.rs:239-239 | and they stay in order |
| `PhysicalView.PhysicalBuilder.BuildStore` | app/crowdb-web/src/physical_view.rs:323-350 | a store subtree: what is to be shown of it, the chains cut off, the path restored |
| `PhysicalView.PhysicalBuilder.BuildNode` | app/crowdb-web/src/physical_view.rs:262-321 | the same for a node and its recorded stores |
| `PhysicalView.PhysicalBuilder.BuildRack` | app/crowdb-web/src/physical_view.rs:237-258 | the chains recorded are exactly those a walk of the fully inflated rack reports at the same depth, in order; the view is what is to be shown of the rack; the path is restored |
| `PhysicalView.RackIsShown` | app/crowdb-web/src/physical_view.rs:237-350 | what is shown: the rack, with exactly the nodes that name it in order when a hop is left, each with its rack and the stores recorded for it when one more is, each of those with its groups when one more is |
| `PhysicalView.RackIsPruned` | app/crowdb-web/src/physical_view.rs:237-350 | and that is the fully inflated rack pruned at the depth |
| `PhysicalView.BuildAgreesWithWalk` | app/crowdb-web/src/physical_view.rs:105-258 | builder and walk side by side: the same cut-off chains, and the view shows what the walk enters, in full |
| `Decimal.ParsesPrinted` | lib/crowdb-console-shared/src/config.rs:34-74 | parsing a printed number gives it back exactly up to the limit of the type |
| `Decimal.ParsedPrintsIff` | lib/crowdb-console-shared/src/config.rs:44-74 | a text that parses is the printed one exactly when it has no sign and no leading zero |
| `Decimal.PairInjective` | lib/crowdb-console-shared/src/config.rs:984-997 | the composite store and group key determines both numbers |
| `KeyedLists.RestoredIsSorted` | lib/crowdb-console-shared/src/config.rs:918-1142 | a list with unique ids, collected under text keys and read back, comes back whole and ascending |
| `KeyedLists.SurvivesIff` | lib/crowdb-console-shared/src/config.rs:918-1142 | with repeated keys an entry survives exactly when no other entry with its key comes after its last occurrence |
| `KeyedLists.AscendingDetermined` | lib/crowdb-console-shared/src/config.rs:1045-1142 | an ascending list is determined by its entries |
| `KeyedLists.FilteredIff` | lib/crowdb-console-shared/src/config.rs:586-668 | a filtered list is determined by what it keeps: exactly the entries at the places to keep, in order |
| `KeyedLists.SortIsStable` | lib/crowdb-console-shared/src/config.rs:560-638 | sorting keeps the entries of one key in order |
| `ConfigPersist.FromPersisted` | lib/crowdb-console-shared/src/config.rs:1045-1142 | every list holds exactly the entries of its map, as many, in order |
| `ConfigPersist.RoundTrip` | lib/crowdb-console-shared/src/config.rs:918-1142 | reading back what was written gives the configuration with every list sorted |
| `ConfigPersist.SerializeKeys` | lib/crowdb-console-shared/src/config.rs:34-42 | every record under its printed key and nothing else |
| `ConfigPersist.DeserializeKeys` | lib/crowdb-console-shared/src/config.rs:44-79 | fails exactly when some key is no 64-bit number |
| `ConfigPersist.SaveAndLoad` | lib/crowdb-console-shared/src/config.rs:918-1150 | the whole trip through text keys; a sorted configuration comes back as it was |
| `ConfigRecords.SortedCopyUnique` | lib/crowdb-console-shared/src/config.rs:1045-1142 | there is only one sorted copy of a configuration |
| `ConsoleConfig.ConsoleConfig.AddServer` | lib/crowdb-console-shared/src/config.rs:521-536 | refused exactly for a known id or url, else appended; the registry stays valid |
| `ConsoleConfig.ConsoleConfig.RemoveServer` | lib/crowdb-console-shared/src/config.rs:542-552 | takes out and returns the first server with the id and keeps the others in order, or changes nothing |
| `ConsoleConfig.ConsoleConfig.RemoveServerForNode` | lib/crowdb-console-shared/src/config.rs:784-794 | takes out and returns the first key-value server of the node and keeps the others in order, or reports that there is none |
| `ConsoleConfig.ConsoleConfig.RecordStore` | lib/crowdb-console-shared/src/config.rs:560-569 | the store then has exactly the nodes given, once each and in order; other stores untouched |
| `ConsoleConfig.ConsoleConfig.EnsureStoreNode` | lib/crowdb-console-shared/src/config.rs:571-584 | the store gains the node and keeps the others; other stores untouched |
| `ConsoleConfig.ConsoleConfig.RemoveStoreRecord` | lib/crowdb-console-shared/src/config.rs:586-589 | removes exactly the store and its groups |
| `ConsoleConfig.ConsoleConfig.RecordGroup` | lib/crowdb-console-shared/src/config.rs:591-607 | the group then has the replicas given, sorted; other groups untouched |
| `ConsoleConfig.ConsoleConfig.RemoveGroupRecord` | lib/crowdb-console-shared/src/config.rs:609-612 | removes exactly the group |
| `ConsoleConfig.ConsoleConfig.AddGroupReplica` | lib/crowdb-console-shared/src/config.rs:614-638 | the replica takes the place of the first one with its id, or is added where there is none; replicas with other ids stay, the list stays sorted |
| `ConsoleConfig.ConsoleConfig.RemoveGroupReplica` | lib/crowdb-console-shared/src/config.rs:640-650 | the group keeps exactly its replicas of other ids, in order, and goes when that leaves none; other groups untouched |
| `ConsoleConfig.ConsoleConfig.PurgeNodeTopology` | lib/crowdb-console-shared/src/config.rs:659-668 | a store stays exactly when it had a node other than the purged one, with exactly its other nodes in order, and a group exactly when it had a replica on another node, with exactly those in order; none else is left |
| `ConsoleConfig.ConsoleConfig.AddRack` | lib/crowdb-console-shared/src/config.rs:674-683 | refused exactly for a known id |
| `ConsoleConfig.ConsoleConfig.RemoveRack` | lib/crowdb-console-shared/src/config.rs:690-706 | refused while a node is in the rack, so every node keeps its rack; else takes out and returns the rack and keeps the others in order |
| `ConsoleConfig.ConsoleConfig.AddNode` | lib/crowdb-console-shared/src/config.rs:712-727 | refused exactly for a known id or an unknown rack |
| `ConsoleConfig.ConsoleConfig.RemoveNode` | lib/crowdb-console-shared/src/config.rs:734-750 | refused while a server is on the node, else takes it out and returns it, the others in order; disk groups keep their node exactly when they had one and none was on this node |
| `ConsoleConfig.ConsoleConfig.AddDiskGroup` | lib/crowdb-console-shared/src/config.rs:810-825 | refused exactly for a known id or an unknown node |
| `ConsoleConfig.ConsoleConfig.RemoveDiskGroup` | lib/crowdb-console-shared/src/config.rs:832-848 | refused while it has disks, so every disk keeps its group; else takes it out and returns it, the others in order |
| `ConsoleConfig.ConsoleConfig.AddDisk` | lib/crowdb-console-shared/src/config.rs:872-887 | refused exactly for a known id or an unknown disk group |
| `ConsoleConfig.ConsoleConfig.RemoveDisk` | lib/crowdb-console-shared/src/config.rs:893-903 | takes out and returns the disk and keeps the others in order, or changes nothing |
| `ConsoleConfig.Apply` | lib/crowdb-console-shared/src/config.rs:516-903 | one edit of any kind, refused or not, by what it leaves in each list, the other lists untouched |
| `ConsoleConfig.EditAndReload` | lib/crowdb-console-shared/src/config.rs:516-1142 | every run of edits from an empty registry makes them one by one, keeps ids and urls unique, nodes racked, disks grouped, stores and groups sorted, and what it leaves survives a save and a load |

## Left out

- Batched allocations and frees are single journal slots one after another in the zone protocol; `BlockRecords` shows that such a batch equals its single writes.
- The compare-and-swap races between claims inside one bitmap word: a claim is one step of the zone protocol.
- `used_count`, backlog counters, zone health, metrics, logging and timestamps.
- Two concurrent calls of `update_binding`, each working on its own snapshot of the table.
- The bucket hash (xxh64) is an arbitrary function; bincode, TOML and JSON bytes are not modelled, records are values.
- Placement selection: a plan is arbitrary input, a grant any set of free blocks; the sum of a plan in an error message is unbounded.
- Lock timeouts and storage errors of a handler are one refusal before anything has changed.
- Range ownership checks, several instances sharing a range, and stale caches after a range move.
- `ChunkStore::delete_chunk`, `list_chunks` and the look-ups of the registry would only add easy members.
- Several background tasks behind one stop handle: each has its own run against the same flag, so one task is modelled.
- RPC, HTTP handlers, process and SSH lifecycle, deployers, web UI, consensus, write-ahead log and tree storage.
- Server and process details of `NodeView`: only what decides children and truncation is in the view.
- Lifecycle.Handler.Serve: takes each request as one step and says nothing of the requests after a torn one; a strip update comes with blocks granted for it. The interleaving of requests is in `ChunkLocks`.
- ZoneExact.StepKeeps: the steps outside its runs are those that `ZoneGuards.BooksBalanceIff` shows to unbalance the books, and claims in zones that are not clean.
- ZoneReady.ReadyRunsAreSafe: the flag `compacted_ready` itself is not modelled; after a lost anchor, a roll-back of a held claim or a full scan it does not mean what a claim checks here, and a live block can be lost (`ZoneHazards.LostAnchor`, `ClaimInFlight`, `FullScanThenClaim`).
- ZoneGuards.BooksBalanceIff: a free that is neither on the books nor stamped late is outside its runs.
