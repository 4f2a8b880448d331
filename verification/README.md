# QEMU 0.15.1: migration, block layer, AES and bitmaps in Dafny

This project models the parts of QEMU 0.15.1 where a simple promise (a byte array, a set of bits,
"the destination ends up with the source's memory") is kept by complicated code, and proves the
promise for every input and every run.

- **RAM migration** (`RamStream`, `RamMigration`, `RamSave`): guest writes interleave freely with the
  saving stages; a page whose dirty bit is clear always equals its replayed copy, so the receiver has
  all of RAM as soon as nothing is dirty.
- **Block migration** (`BlockMigrationProtocol`, `BlockMigrationConvergence`, `BlockMigrationRuns`,
  `BlockMigrationGiveUp`, `BlockMigration`): a step system of guest writes, asynchronous reads sampled
  sector by sector, completions, bulk and dirty passes; its invariant and convergence; and a class whose
  methods are the functions of the saving side, each proved to be a run of that system.
- **Transport** (`BufferedFile`): the buffering, rate-limited file under migration.
- **Block layer** (`MultiwriteMerge`, `MultiwriteExact`, `MultiwriteCompletion`, `Commit`, `ByteIO`, `DirtyTracking`):
  joining write requests, counting their completions, committing an overlay, byte I/O over sectors,
  and the dirty bitmap with its cached count.
- **AES** (`AesField`, `AesSpec`, `AesTables`, `AesCode`, `AesCbc`): the table-driven cipher, both key
  schedules and CBC chaining against the textbook cipher of FIPS 197.
- **Bitmaps** (`Bitops`, `Bitmap`): word-wise searches and range updates against a plain sequence of
  bits, and the aligned first-fit allocator built on them.
- `Common` holds the sector size, the error numbers and the few definitions the others share.

Code that updates state in place is modelled by classes, arrays and loops, each method proved against
a specification; the laws are lemmas about those specifications and invariants over whole runs. What
the code cannot see (the backend of a file, a driver's answers, when requests finish, qsort's choice
among equal keys, the driver's merge hook) is a parameter, and the results hold for every value of it.

Every lemma carries `{:induction false}`: no proof relies on automatic induction.

## Where the code falls short of the simple promise

- *Merging nested writes.* A request joined inside the one before it cuts off the bytes past its end
  (`MultiwriteMerge.NestingLoses`). Merging preserves the writes, whatever the requests carry, exactly
  when no byte is cut off for good (`MultiwriteExact.MergeExact`).
- *Giving up in stage 3 of block migration.* When the rate limit stops `flush_blks`, stage 3 frees what
  is still queued; data can be lost (`BlockMigrationRuns.GivingUpCanLose`), and is not exactly when each
  clean chunk with a queued read already agrees (`BlockMigrationRuns.GivingUpIsSafeExactly`). In terms of
  what the source knows, nothing is lost for any destination exactly when each such sector was last sent
  with its current contents, or never sent and served with them by a base both share
  (`BlockMigrationGiveUp.GivingUpIsSafeForAllExactly`).
- *Order after a failed flush.* A put does not look at the error its own flush met, so new bytes can
  overtake buffered ones (`BufferedFile.OvertakingRun`). A put is safe from this, whatever the backend
  does, exactly when nothing is buffered, nothing is put, the rate limit was passed or all bytes are the
  same (`BufferedFile.OrderKeptExactly`).
- *Committing to a read-only backing file* returns what reopening the file returns, so a copy that
  failed is reported as a success (`Commit.Overlay.CommitAll`, `Commit.FailedCommitReported`).
- *Enabling dirty tracking twice* zeroes the count but keeps the bits; the exact condition is in
  `DirtyTracking.BlockDriverState.SetDirtyTracking` and a run in `DirtyTracking.EnableTwice`. Writes
  submitted before tracking began are not marked on completion
  (`DirtyTracking.BlockDriverState.Complete`, `DirtyTracking.LandUntracked`). A caller who enables only
  while tracking is off and submits only while it is on meets neither (`DirtyTracking.Disciplined`).
- *The CBC ivec after a partial last block* differs between the two directions except when the cipher
  maps the block the tail is chained into to itself (`AesCbc.IvAgree`). For any short data and any round
  keys it differs under those keys or under the same with one bit changed (`AesCbc.IvCanDiffer`).

## Assumptions

Block migration: the guest is stopped and no write is in flight when stage 3 begins; no write is in
flight when tracking is enabled; reads of one chunk finish in the order they were submitted; callbacks
run from the event loop and not inside the submitting call; submissions and synchronous reads succeed;
the bulk phase is over when stage 3 begins. RAM migration: both sides have the same blocks; a guest
write marks its page dirty in the same step. AES: S and Si are a mutually inverse pair of byte tables,
and the Te and Td tables are what their comments define them to be. Commit: the driver's
`bdrv_is_allocated` answers with a nonempty run inside the image, all in one state. Multiwrite: a
request's vector holds exactly its sectors, and a submission that returns NULL never reports.

## Model

| member | source | states |
|---|---|---|
| `RamMigration.Converges` | qemu-0.15.1/arch_init.c:113-458 | in every interleaving of guest page writes with saving steps the stream replays without error, the receiver's static block is the sender's last_block once there is one, and as soon as no page is dirty destination RAM equals source RAM |
| `RamMigration.NextKeepsInv` | qemu-0.15.1/arch_init.c:113-336 | every guest write and every saving step keeps the invariant that a clean page equals its replayed copy |
| `RamMigration.SendKeepsInv` | qemu-0.15.1/arch_init.c:127-156 | sending the first dirty page keeps the invariant, whether the record names its block or continues the last one |
| `RamMigration.GuestKeepsInv` | qemu-0.15.1/arch_init.c:263-290 | a guest write marks its page and keeps the invariant |
| `RamMigration.RecordDecodes` | qemu-0.15.1/arch_init.c:338-451 | a page record decodes to its own block and page with its own contents, compressed or not, named or continued |
| `RamMigration.HeaderIsOr` | qemu-0.15.1/arch_init.c:137-146 | the bitwise or of a page address and flags is their sum, for any word that holds them |
| `RamMigration.HeaderDecodes` | qemu-0.15.1/arch_init.c:378-381 | page address and flags both come back from a header |
| `RamMigration.SizeRecordLoads` | qemu-0.15.1/arch_init.c:390-419 | a receiver with the same blocks accepts the size record of stage 1 and is unchanged by it |
| `RamMigration.StageOneInv` | qemu-0.15.1/arch_init.c:268-296 | what stage 1 sets up satisfies the invariant |
| `RamMigration.FrameUnique` | qemu-0.15.1/arch_init.c:159-169 | distinct pages have distinct addresses, so the scan may compare addresses |
| `RamSave.Sender.SaveBlock` | qemu-0.15.1/arch_init.c:113-175 | one call sends the first dirty page in scan order, cleaning exactly it, or returns 0 exactly when nothing is dirty, changing nothing; it terminates and keeps the invariant |
| `RamSave.ScanTurn` | qemu-0.15.1/arch_init.c:159-169 | a turn over a clean page moves on to the next page in block order, around the end, and the address test ends the scan exactly after a full circle |
| `RamSave.ScanDone` | qemu-0.15.1/arch_init.c:169-172 | a full circle ends at the cursor with nothing dirty anywhere |
| `RamSave.IsDupPage` | qemu-0.15.1/arch_init.c:95-108 | true exactly when every byte of the page is the given one |
| `RamSave.Sender.SaveRemaining` | qemu-0.15.1/arch_init.c:179-195 | the number of dirty pages over all blocks, 0 exactly when none is dirty |
| `RamSave.Sender.StageOne` | qemu-0.15.1/arch_init.c:268-296 | marks every page, emits the size record and establishes the invariant |
| `RamSave.Sender.SaveLive` | qemu-0.15.1/arch_init.c:298-331 | keeps the invariant in every stage; stage 3 ends with nothing dirty and all of RAM at the receiver |
| `RamSave.Loader.Load` | qemu-0.15.1/arch_init.c:368-458 | replays the records up to the first end-of-section mark; it fails only on a bad record or when the stream ends inside a section |
| `RamSave.Loader.LoadSections` | qemu-0.15.1/arch_init.c:368-458 | successive loads succeed exactly when the whole stream replays and ends a section, and leave the receiver where the replay leads |
| `RamSave.FinishMigration` | qemu-0.15.1/arch_init.c:298-458 | after stage 3 and the loads of everything sent, the destination's blocks hold the source's RAM |
| `BlockMigrationConvergence.Converges` | qemu-0.15.1/block-migration.c:205-713 | in every run since stage 1, once drained, the replayed stream holds every sector of every device except chunks whose queued read was given up |
| `BlockMigrationConvergence.ConvergesFully` | qemu-0.15.1/block-migration.c:557-713 | with nothing given up the destination disks equal the source disks |
| `BlockMigrationConvergence.InvStep` | qemu-0.15.1/block-migration.c:186-493 | every step keeps the invariant: a sector the bulk cursor has passed and whose chunk is clean agrees at the destination, will be made to by its newest pending read, or is under an unfinished guest write |
| `BlockMigrationConvergence.CompleteReadSector` | qemu-0.15.1/block-migration.c:186-203 | a read that completes keeps a sector's invariant although it moves past older reads of other chunks |
| `BlockMigrationConvergence.LandSectorOk` | qemu-0.15.1/block.c:2171-2236 | a guest write that lands between a read's sampling and its own completion keeps the invariant |
| `BlockMigrationConvergence.LoadSector` | qemu-0.15.1/block-migration.c:639-713 | loading a device record replaces exactly the sectors of its chunk on the named device |
| `BlockMigrationConvergence.StartInv` | qemu-0.15.1/block-migration.c:281-330 | the state in which migration begins satisfies the invariant |
| `BlockMigrationRuns.StageThreeSector` | qemu-0.15.1/block-migration.c:616-634 | after stage 3 a sector agrees exactly when its chunk was dirty or it agreed as stage 3 began |
| `BlockMigrationRuns.GivingUpIsSafeExactly` | qemu-0.15.1/block-migration.c:463-552 | freeing the queue loses nothing exactly when every clean chunk with a queued read already agrees |
| `BlockMigrationRuns.GivingUpCanLose` | qemu-0.15.1/block-migration.c:463-552 | a run from the start, drained, whose one sector does not arrive because its queued read was freed |
| `BlockMigrationGiveUp.GivingUpDirtyIsSafe` | qemu-0.15.1/block-migration.c:463-552 | what the source can check: if every queued read's chunk is dirty, or nothing is queued, giving up loses nothing |
| `BlockMigrationGiveUp.GivingUpIsSafeForAllExactly` | qemu-0.15.1/block-migration.c:463-552 | for one run of the source, giving up and stage 3 lose nothing over every possible destination exactly when each clean sector with a queued read was last sent with its current contents, or was never sent and lies in a base both share that holds them |
| `BlockMigrationGiveUp.GivingUpUncertainCanLose` | qemu-0.15.1/block-migration.c:463-552 | for each clean sector with a queued read of which that is not so, never sent or last sent with other contents, some destination makes the same run lose it |
| `BlockMigrationGiveUp.ReplayLast` | qemu-0.15.1/block-migration.c:639-713 | after the stream a destination sector holds what the last record for it put there, or else what it held before |
| `BlockMigrationGiveUp.RunIgnoresDst` | qemu-0.15.1/block-migration.c:186-637 | no run of the source depends on what the destination held before |
| `BlockMigrationRuns.ReadsConserved` | qemu-0.15.1/block-migration.c:186-203 | every read submitted is in flight, queued or transferred, and the counters say how many of each, so the asserts on them never fire |
| `BlockMigrationRuns.BulkIncreasing` | qemu-0.15.1/block-migration.c:205-262 | the chunks read in bulk go out in strictly increasing order, none twice |
| `BlockMigrationRuns.BulkCovers` | qemu-0.15.1/block-migration.c:205-262 | every sector the bulk cursor passed lies in a bulk read, unless a shared base holds it |
| `BlockMigrationRuns.AioStep` | qemu-0.15.1/block-migration.c:140-172 | the in-flight bitmap marks only chunks with a read in flight, after every step |
| `BlockMigration.ReachConverges` | qemu-0.15.1/block-migration.c:557-637 | a state any sequence of the methods below reaches from a start, once drained, has arrived |
| `BlockMigration.BlkMigState.SaveLiveEnd` | qemu-0.15.1/block-migration.c:616-634 | unless it fails, stage 3 drains and every disk arrives, apart from chunks that were queued as it began; what is newly lost is among those |
| `BlockMigration.BlkMigState.SaveLivePart` | qemu-0.15.1/block-migration.c:580-614 | from any state a migration reaches, stage 2 is a run of the step system and gives up nothing |
| `BlockMigration.ReachGood` | qemu-0.15.1/block-migration.c:281-637 | every state a migration reaches satisfies the invariants the methods need |
| `BlockMigration.BlkMigState.FillPipeline` | qemu-0.15.1/block-migration.c:591-606 | the stage-2 loop terminates; it ends the bulk phase only when every device is read |
| `BlockMigration.BlkMigState.DrainDirty` | qemu-0.15.1/block-migration.c:619-623 | the stage-3 loop terminates with no dirty chunk on any device |
| `BlockMigration.BlkMigState.SaveDirtyBlockSync` | qemu-0.15.1/block-migration.c:448-461 | each call that is not the last cleans exactly one chunk; the last leaves none dirty; no chunk below a cursor is dirty |
| `BlockMigration.BlkMigState.SaveDeviceDirtySync` | qemu-0.15.1/block-migration.c:379-446 | sends and cleans the first dirty chunk at or after the cursor of one device and touches no other |
| `BlockMigration.BlkMigState.SaveDeviceDirtyAsync` | qemu-0.15.1/block-migration.c:379-446 | unless the device is done, exactly one more read is under way, of the chunk at the cursor, which is now clean |
| `BlockMigration.BlkMigState.SaveDirtyBlockAsync` | qemu-0.15.1/block-migration.c:448-461 | a run of the step system with exactly one more read when it returns true and none otherwise |
| `BlockMigration.BlkMigState.SaveDeviceBulk` | qemu-0.15.1/block-migration.c:205-262 | at most one bulk read, and with none the device is done; done exactly when the cursor is at the end; other devices are untouched |
| `BlockMigration.BlkMigState.SkipUnallocated` | qemu-0.15.1/block-migration.c:212-220 | skips only unallocated sectors, and stops at an allocated one or the end |
| `BlockMigration.BlkMigState.SubmitBulkRead` | qemu-0.15.1/block-migration.c:227-262 | a run of the step system that submits exactly one read; the device is done exactly when its cursor is at the end; other devices are untouched |
| `BlockMigration.BlkMigState.SaveBulkedBlock` | qemu-0.15.1/block-migration.c:332-368 | false only when every device is finished, with nothing changed; otherwise one more read or one device fewer to finish |
| `BlockMigration.BlkMigState.ReadCb` | qemu-0.15.1/block-migration.c:186-203 | the completion step of the step system: the read moves to the queue and its chunk is released; the count of reads in flight stays non-negative |
| `BlockMigration.BlkMigState.AioFlush` | qemu-0.15.1/block-migration.c:386-390 | sectors of guest writes land and reads are sampled in pieces while requests finish in any order in which reads of one chunk keep theirs, well or not; all of it is a run of the step system; then nothing is in flight, no chunk is marked and the read total is unchanged |
| `BlockMigration.BlkMigState.FlushBlks` | qemu-0.15.1/block-migration.c:463-493 | sends a prefix of the queue, one record each in order, and keeps the rest |
| `BlockMigration.BlkMigState.SendBlk` | qemu-0.15.1/block-migration.c:86-100 | a run of the step system that takes the head off the queue and adds its record to the stream; the count of finished reads stays non-negative |
| `BlockMigration.BlkMigState.FreeQueue` | qemu-0.15.1/block-migration.c:533-555 | frees the queue, giving up exactly the chunks still in it |
| `BlockMigration.BlkMigState.ResetDirtyCursor` | qemu-0.15.1/block-migration.c:370-377 | puts every dirty cursor back to 0 and changes nothing else |
| `BlockMigration.BlkMigState.IsAllocated` | qemu-0.15.1/block.c:1645-1670 | the state of a sector and a nonempty run in that state, at most the number asked for |
| `BufferedFile.Run` | qemu-0.15.1/buffered_file.c:48-251 | over any backend and any sequence of puts, ticks and rate changes followed by a close: without an error the backend got exactly what was put, in order; a backend that only stalls gives no error |
| `BufferedFile.QEMUFileBuffered.PutBuffer` | qemu-0.15.1/buffered_file.c:109-167 | the whole new state for every sequence of backend answers; delivered plus buffered is what was accepted while there is no error, and in any case when nothing was buffered or put or the limit was passed; after an error nothing moves |
| `BufferedFile.QEMUFileBuffered.PutDirect` | qemu-0.15.1/buffered_file.c:127-150 | hands over what the backend's answers and the limit allow, nothing when frozen, and stops short only on a stall, an error or the limit |
| `BufferedFile.QEMUFileBuffered.Flush` | qemu-0.15.1/buffered_file.c:72-107 | moves to the backend the prefix of the buffer its answers allow, and records a stall or an error |
| `BufferedFile.HandFacts` | qemu-0.15.1/buffered_file.c:83-102 | bytes stay behind only on a stall, a failure or the limit; a backend that only stalls never fails |
| `BufferedFile.QEMUFileBuffered.Close` | qemu-0.15.1/buffered_file.c:169-190 | terminates with an empty buffer unless an error occurred, losing nothing |
| `BufferedFile.QEMUFileBuffered.RateTick` | qemu-0.15.1/buffered_file.c:231-251 | unless frozen, starts a new period and hands over exactly what the backend's answers allow; frozen, changes nothing; after an error, closes; loses nothing |
| `BufferedFile.QEMUFileBuffered.RateLimit` | qemu-0.15.1/buffered_file.c:192-206 | holds the sender back exactly when frozen or over the limit and without an error |
| `BufferedFile.OrderKeptExactly` | qemu-0.15.1/buffered_file.c:117-156 | a put keeps delivered plus buffered equal to accepted for every behaviour of the backend exactly when nothing is buffered, nothing is put, the limit was passed, or all the bytes are the same |
| `BufferedFile.OvertakingRun` | qemu-0.15.1/buffered_file.c:117-156 | a file opened over a backend that stalls, fails and then takes a byte: after puts of 1 and 2 the backend has 2 and the buffer 1 |
| `MultiwriteExact.MergeExact` | qemu-0.15.1/block.c:2303-2372 | requests of one geometry, whatever they carry, are always merged into what the sorted originals and the agreed zero gaps write, exactly when no byte cut off by a join stays unwritten |
| `MultiwriteExact.TellingPayload` | qemu-0.15.1/block.c:2303-2372 | for every lost byte there is a payload of the same geometry with which the merged requests write something else there, also when the vector limit keeps touching requests apart |
| `MultiwriteExact.LostShape` | qemu-0.15.1/block.c:2303-2372 | which bytes are lost depends on where the requests lie and not on what they carry |
| `MultiwriteMerge.MergeSound` | qemu-0.15.1/block.c:2303-2372 | if no byte is lost the merged requests write what was intended, for every hook and vector limit |
| `MultiwriteMerge.MergeKeeps` | qemu-0.15.1/block.c:2336-2366 | any byte that is not lost ends as the intended writes leave it |
| `MultiwriteExact.LostUnwritten` | qemu-0.15.1/block.c:2336-2366 | a byte lost within a group is written by the intended writes and by no merged request from that group on |
| `MultiwriteMerge.NoneNestedKeeps` | qemu-0.15.1/block.c:2336-2366 | sorted requests none of which ends before an earlier one lose nothing |
| `MultiwriteMerge.NestingLoses` | qemu-0.15.1/block.c:2342-2345 | a request joined inside the one before it leaves every byte past its end unwritten |
| `MultiwriteMerge.NestingExample` | qemu-0.15.1/block.c:2342-2345 | sectors 0 and 1 followed by sector 0: merging does not write what the two requests would |
| `MultiwriteMerge.IntendedIsOriginal` | qemu-0.15.1/block.c:2328-2330 | without a driver hook the intended writes are the original requests |
| `MultiwriteMerge.JoinedData` | qemu-0.15.1/block.c:2337-2360 | a joined payload is the kept part of the first, zeros for the gap and all of the second, ends where the second ends, and is exactly nb_sectors sectors |
| `MultiwriteMerge.MergeFormed` | qemu-0.15.1/block.c:2360-2361 | every request left has exactly nb_sectors sectors of payload, and there are no more of them than before |
| `MultiwriteMerge.PrefixTakes` | qemu-0.15.1/cutils.c:177-214 | concatenating a vector up to a size appends exactly its first bytes with no more entries |
| `MultiwriteMerge.MultiwriteMerge` | qemu-0.15.1/block.c:2303-2372 | the in-place loop leaves the merged requests of the sorted array at its front and returns their number |
| `MultiwriteCompletion.RunToCompletion` | qemu-0.15.1/block.c:2251-2474 | in a whole run, merging included, with results arriving during submission or after it in any order, every user callback runs exactly once and with the first error of the run |
| `MultiwriteCompletion.AioMultiwrite` | qemu-0.15.1/block.c:2388-2474 | merges and submits; fails exactly without a medium or when the first submission fails, with every error field set and no callback; otherwise what is awaited is exactly what was handed over and has not reported |
| `MultiwriteCompletion.Submit` | qemu-0.15.1/block.c:2440-2465 | the record stays live until the dummy completes, whatever reports early |
| `MultiwriteCompletion.MultiwriteCB.Cb` | qemu-0.15.1/block.c:2265-2280 | keeps the first error, and runs the callbacks exactly when the count reaches 0 |
| `MultiwriteCompletion.MultiwriteCB.Deliver` | qemu-0.15.1/block.c:2265-2280 | no callback before the last awaited result; all of them, once each, with it |
| `MultiwriteCompletion.MultiwriteCB.UserCb` | qemu-0.15.1/block.c:2251-2263 | calls every callback once, in order, with the same result |
| `MultiwriteCompletion.FirstErrorIsFirst` | qemu-0.15.1/block.c:2271-2273 | the recorded error is 0 exactly when no result is negative, and else the first negative one |
| `MultiwriteCompletion.LateFailureReported` | qemu-0.15.1/block.c:2455-2458 | a submission that fails after the first is always reported as an error |
| `MultiwriteCompletion.SuccessReported` | qemu-0.15.1/block.c:2265-2280 | without a failed submission success is reported exactly when every request succeeded |
| `Commit.Overlay.CommitAll` | qemu-0.15.1/block.c:760-861 | the sectors on disk read through the overlay as before, whatever transfer or opening fails; the backing image holds the overlay's own sectors up to where the copying got and is otherwise unchanged; when every transfer goes well it alone shows everything and the overlay is emptied if the driver can; which failures take the drive out of service, and every result |
| `Commit.Overlay.Copy` | qemu-0.15.1/block.c:815-828 | the copy loop ends well exactly when every run can be read and written and fits; at every stop the view is unchanged and the backing image holds exactly the sectors copied so far |
| `Commit.FailedCommitReported` | qemu-0.15.1/block.c:815-861 | one sector over a read-only backing image that the copy cannot read: the commit returns 0 and the backing image does not show the sector |
| `Commit.Masked` | qemu-0.15.1/block.c:823-826 | whatever a write stores under sectors the overlay holds does not show through it |
| `Commit.Copied` | qemu-0.15.1/block.c:815-828 | after a whole run is copied the backing image shows it |
| `Commit.Skipped` | qemu-0.15.1/block.c:816-816 | a run the overlay does not hold is shown by the backing image already |
| `Commit.Emptied` | qemu-0.15.1/block.c:830-833 | once the backing image shows everything, the emptied overlay shows the same |
| `ByteIO.BlockDriverState.Pwrite` | qemu-0.15.1/block.c:1038-1085 | replaces exactly the bytes asked for, or fails with a prefix of them in place and no other byte changed, also when a failing driver stores part of a transfer; without driver faults the exact result, a read-only device answering with an I/O error instead of a refusal only when the first sector must be patched and is off the medium |
| `ByteIO.BlockDriverState.Pread` | qemu-0.15.1/block.c:993-1036 | returns exactly the bytes asked for, or fails after a prefix; without driver faults it succeeds exactly when they are all on the medium |
| `ByteIO.WriteThenRead` | qemu-0.15.1/block.c:993-1085 | a read of a range just written returns what was written, for every offset and length |
| `ByteIO.BlockDriverState.WritePart` | qemu-0.15.1/block.c:1052-1060 | read, patch and write back of one sector changes exactly the bytes of the part, or nothing |
| `ByteIO.BlockDriverState.ReadPart` | qemu-0.15.1/block.c:1007-1012 | copies exactly the part of one sector |
| `ByteIO.BlockDriverState.Read` | qemu-0.15.1/block.c:924-935 | whole sectors into the buffer, or the error codes of the checks, in their order |
| `ByteIO.BlockDriverState.Write` | qemu-0.15.1/block.c:971-991 | whole sectors onto the medium, a prefix of them when the driver fails, or the error codes of the checks, in their order |
| `ByteIO.BlockDriverState.CheckByteRequest` | qemu-0.15.1/block.c:894-914 | 0 exactly when a medium is there and holds the range |
| `ByteIO.ReadAfterWrite` | qemu-0.15.1/block.c:993-1085 | what was written reads back; other ranges read as before |
| `ByteIO.SplicePart` | qemu-0.15.1/block.c:1052-1060 | patching a sector's copy and writing it back is splicing the medium |
| `DirtyTracking.Run` | qemu-0.15.1/block.c:937-991 | after any sequence of writes, submissions, completions, resets, enabling and disabling: tracking is as the last switch left it; the count is the number of dirty chunks unless tracking was enabled while on and has been on since; every changed sector is in a dirty chunk unless a write submitted while it was off landed after it was enabled and it has been on since |
| `DirtyTracking.Disciplined` | qemu-0.15.1/block.c:2842-2862 | enabling only while tracking is off, and submitting only while it is on, rules out both exceptions |
| `DirtyTracking.EnableTwice` | qemu-0.15.1/block.c:2842-2862 | enable, write, enable again: a chunk is dirty and the count is 0 |
| `DirtyTracking.LandUntracked` | qemu-0.15.1/block.c:2171-2236 | submit, enable, complete: the sector changed and its chunk is clean |
| `DirtyTracking.BlockDriverState.SetDirtyBitmap` | qemu-0.15.1/block.c:937-963 | exactly the chunks of the range take the value, and the count moves with the bits, also for an empty range |
| `DirtyTracking.CountFlip` | qemu-0.15.1/block.c:944-960 | setting one bit moves the number of set bits by one exactly when it changes it |
| `DirtyTracking.BlockDriverState.SetDirtyTracking` | qemu-0.15.1/block.c:2842-2862 | the count is right afterwards exactly when tracking was off, is now off, or no bit was set |
| `DirtyTracking.BlockDriverState.GetDirty` | qemu-0.15.1/block.c:2864-2875 | true exactly when tracking is on, the sector exists and its chunk is dirty |
| `DirtyTracking.BlockDriverState.ResetDirty` | qemu-0.15.1/block.c:2877-2881 | cleans exactly the chunks of the range and keeps count and soundness |
| `DirtyTracking.BlockDriverState.Write` | qemu-0.15.1/block.c:971-991 | a write let through marks exactly the chunks of its range whatever the driver answers; a refused one changes nothing; a right count stays right and a wrong one wrong |
| `DirtyTracking.BlockDriverState.Complete` | qemu-0.15.1/block.c:2171-2180 | a completed write keeps the bitmap sound exactly when it is tracked, tracking is off or its chunks were dirty |
| `AesCode.DecryptUndoesEncrypt` | qemu-0.15.1/aes.c:731-1261 | for every 128-, 192- or 256-bit key and every block, decrypting under the decrypt schedule undoes encrypting under the encrypt schedule |
| `AesCode.AesKey.SetEncryptKey` | qemu-0.15.1/aes.c:731-827 | the schedule is the key expansion of section 5.2 of FIPS 197; -1 without a key, -2 for other key sizes, and then no change |
| `AesCode.AesKey.SetDecryptKey` | qemu-0.15.1/aes.c:832-878 | the schedule is the reversed encrypt schedule with its inner round keys through InvMixColumns; the same errors |
| `AesCode.AesKey.InvertSchedule` | qemu-0.15.1/aes.c:846-876 | the two in-place loops turn an encrypt schedule into a decrypt schedule |
| `AesCode.AesKey.ReverseRounds` | qemu-0.15.1/aes.c:846-852 | reverses the order of the round keys in place |
| `AesCode.AesKey.Expand128` | qemu-0.15.1/aes.c:756-775 | the 44 words of a 128-bit key's expansion |
| `AesCode.AesKey.Expand192` | qemu-0.15.1/aes.c:776-797 | the 52 words of a 192-bit key's expansion |
| `AesCode.AesKey.Expand256` | qemu-0.15.1/aes.c:798-825 | the 60 words of a 256-bit key's expansion |
| `AesCode.RconPowers` | qemu-0.15.1/aes.c:722-726 | the round constants are the powers of x in the field |
| `AesCode.AesKey.EncryptRounds` | qemu-0.15.1/aes.c:885-1070 | the unrolled table rounds compute the textbook cipher |
| `AesCode.AesKey.DecryptRounds` | qemu-0.15.1/aes.c:1076-1261 | the unrolled table rounds compute the equivalent inverse cipher |
| `AesCode.AesKey.Encrypt` | qemu-0.15.1/aes.c:885-1070 | replaces exactly 16 bytes of the output by the encrypted block, also when input and output are one buffer |
| `AesCode.AesKey.Decrypt` | qemu-0.15.1/aes.c:1076-1261 | replaces exactly 16 bytes of the output by the decrypted block, also when input and output are one buffer |
| `AesSpec.CipherInverts` | qemu-0.15.1/aes.c:885-1261 | the inverse cipher undoes the cipher, for every schedule |
| `AesSpec.EqInvCipherIsInvCipher` | qemu-0.15.1/aes.c:832-878 | the equivalent inverse cipher under the transformed schedule is the inverse cipher, section 5.3.5 of FIPS 197 |
| `AesTables.EncRound` | qemu-0.15.1/aes.c:977-1036 | a table round is SubBytes, ShiftRows, MixColumns and AddRoundKey |
| `AesTables.EncLastRound` | qemu-0.15.1/aes.c:1042-1068 | the last table round is the same without MixColumns |
| `AesTables.DecRound` | qemu-0.15.1/aes.c:1168-1227 | an inverse table round is InvShiftRows, InvSubBytes, InvMixColumns and AddRoundKey |
| `AesTables.DecLastRound` | qemu-0.15.1/aes.c:1233-1259 | the last inverse table round is the same without InvMixColumns |
| `AesTables.InvMixWordIsInvMix` | qemu-0.15.1/aes.c:856-875 | looking up the decryption tables through S is InvMixColumns |
| `AesField.InvMixRow` | qemu-0.15.1/aes.c:46-58 | the matrix of InvMixColumns times that of MixColumns is the identity over the field |
| `AesCbc.CbcRoundTrip` | qemu-0.15.1/aes.c:1265-1313 | for every length, decrypting what was encrypted from the same ivec restores the data, and the padding is zeros |
| `AesCbc.CbcEncSplit` | qemu-0.15.1/aes.c:1265-1313 | encrypting whole blocks first and the rest with the carried ivec gives the same output |
| `AesCbc.CbcDecSplit` | qemu-0.15.1/aes.c:1265-1313 | likewise for decrypting |
| `AesCbc.IvAgree` | qemu-0.15.1/aes.c:1286-1312 | for a cipher and its inverse the two directions leave the same ivec exactly when the data ends on a block or the cipher maps the block its tail is chained into to itself |
| `AesCbc.IvCanDiffer` | qemu-0.15.1/aes.c:1286-1312 | for data shorter than a block, any ivec and any round keys, the two ivecs differ under AES with those keys or with the same keys and one bit of the last changed |
| `AesCbc.CbcEncrypt` | qemu-0.15.1/aes.c:1276-1294 | the in-place loop writes the chained ciphertext and leaves the carried ivec |
| `AesCbc.CbcDecrypt` | qemu-0.15.1/aes.c:1295-1313 | the in-place loop writes the plaintext and leaves the carried ivec, although it overwrites the ciphertext it chains on |
| `AesCbc.CipherUndone` | qemu-0.15.1/aes.c:1265-1313 | the two schedules of one key give block functions that undo each other, as the chaining needs |
| `AesCbc.EncryptAndDecrypt` | qemu-0.15.1/aes.c:731-1313 | setting one key up for both directions, encrypting a buffer in place and decrypting it in place restores the data and touches nothing past its padding |
| `Bitops.FindNextBit` | qemu-0.15.1/bitops.c:21-64 | the least set bit from offset on below size, or size |
| `Bitops.FindNextZeroBit` | qemu-0.15.1/bitops.c:70-113 | the least clear bit from offset on below size, or size |
| `Bitops.FindLastBit` | qemu-0.15.1/bitops.c:115-142 | the greatest set bit below size, or size |
| `Bitops.SearchesAgree` | qemu-0.15.1/bitops.c:21-142 | the answers are unique and depend only on the bits below size |
| `Bitops.Ffsl` | qemu-0.15.1/bitops.h:31-61 | the lowest set bit of a nonzero word, by halving |
| `Bitops.Flsl` | qemu-0.15.1/bitops.h:69-99 | the highest set bit of a nonzero word, by halving |
| `Bitops.Ffz` | qemu-0.15.1/bitops.h:107-110 | the lowest clear bit of a word that has one |
| `Bitmap.Set` | qemu-0.15.1/bitmap.c:160-178 | sets exactly the bits of the range |
| `Bitmap.Unset` | qemu-0.15.1/bitmap.c:180-198 | clears exactly the bits of the range |
| `Bitmap.SetBit` | qemu-0.15.1/bitops.h:117-123 | sets exactly one bit |
| `Bitmap.ClearBit` | qemu-0.15.1/bitops.h:130-136 | clears exactly one bit |
| `Bitmap.TestBit` | qemu-0.15.1/bitops.h:201-204 | the value of the bit |
| `Bitmap.LastWordMaskValue` | qemu-0.15.1/bitmap.h:58-62 | the last-word mask has the value (1 << k) - 1 for the k bits used, or is all ones |
| `Bitmap.AlignMaskIsMasking` | qemu-0.15.1/bitmap.c:200-200 | rounding up is adding the mask and clearing the mask's bits in the word |
| `Bitmap.AlignsUp` | qemu-0.15.1/bitmap.c:200-200 | the aligned index is the least multiple from the given index on |
| `Bitmap.FindNextZeroArea` | qemu-0.15.1/bitmap.c:214-237 | terminates with the least aligned start of nr clear bits inside size, or a number above size exactly when there is none |
| `Bitmap.Serve` | qemu-0.15.1/bitmap.c:160-237 | over any sequence of allocations, each searching from any position, and releases, the areas in use never overlap and their bits stay set; each allocation takes the least area free at that moment and is refused exactly when there is none |
| `Bitmap.ClaimKeeps` | qemu-0.15.1/bitmap.c:160-237 | claiming an area found clear keeps it apart from every area in use |
| `Bitmap.ReleaseKeeps` | qemu-0.15.1/bitmap.c:180-198 | releasing one area leaves the others in use |

## Left out

- RamSave.Loader.Load: the NULL host pointer of a page record and a page offset past its block count as bad records, and a record must carry exactly the fields its flags announce; version 3 streams are not modelled.
- RamSave.Sender.StageOne: the order `sort_ram_list` chooses is a given order of blocks; the KVM bitmap synchronisation is not modelled, so the dirty set is the guest's own.
- RamSave.Sender.SaveLive: the bandwidth estimate that ends stage 2 is not modelled; when a stage-2 call stops sending is arbitrary.
- BlockMigration.BlkMigState.SaveLivePart: the decision that stage 2 is complete is not modelled.
- BlockMigration.BlkMigState.FlushBlks: the rate limit is an arbitrary answer at each turn.
- BufferedFile.QEMUFileBuffered.PutBuffer: `put_ready` is a counted notification; a client that puts again from inside it is not modelled, nor is the growth of the buffer's capacity.
- BufferedFile.QEMUFileBuffered.Close: a backend that stalls forever is not modelled; it answers finitely often and then takes everything.
- MultiwriteExact.MergeExact: the exact condition is for a driver hook that looks only at where requests lie; `MultiwriteMerge.MergeSound` has no such condition.
- MultiwriteMerge.MultiwriteMerge: requests keep only sector, length and vector; which buffers the callbacks later free is not modelled.
- MultiwriteCompletion.MultiwriteCB.UserCb: callbacks that submit further requests are not modelled.
- ByteIO.BlockDriverState.CheckByteRequest: devices that may grow are not modelled.
- ByteIO.BlockDriverState.Write: a transfer the driver fails may have stored its first whole sectors, and nothing else.
- DirtyTracking.BlockDriverState.Write: an empty write to an empty device while tracking is on, for which the code looks at a bitmap of no words, is not modelled.
- DirtyTracking.BlockDriverState.SetDirtyTracking: the byte size of the allocated bitmap is not modelled; it has a word for every 32 chunks.
- Bitmap.FindNextZeroArea: indices do not wrap around at the word size, and the alignment mask is one less than a power of two, as its comment asks.
- AesCode.AesKey.SetEncryptKey: a NULL key structure is not modelled; 32-bit words are their four bytes; the 256 literals of each table are not transcribed.
- AesCbc.CbcEncrypt: the whole output block of a partial last block must fit the output buffer, as the code writes it.
- Progress percentages and the `completed_sectors` total of block migration, which its last chunk does not bring to the full count.
- `change_bit`, `test_and_set_bit`, `hweight_long` and the word-wise and, or, xor of bitmaps, which would only add easy members.
- Memory allocation and freeing, monitor commands, savevm registration and image format drivers.
