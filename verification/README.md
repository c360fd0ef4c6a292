# fun-kv, modelled and proved in Dafny

fun-kv keeps records in a hash table and an ordered tree, hands every change to a sharded write-behind buffer, and
moves values from memory to a raw device whose sectors a best-fit allocator hands out. After a restart it scans the
device, sector by sector, and rebuilds the indexes and the free list. A clock cache sits in front of reads.

The project models these parts in the form the program gives them and proves what they promise together.

| file | what it models |
|---|---|
| `Base.dfy`, `Format.dfy` | bytes, sectors, the on-disk record and reading a value back |
| `FreeSpace.dfy` | the free-space manager, a class over two ordered maps that stands for a set of sectors |
| `Recovery.dfy` | the recovery scan and the rebuilding of indexes, counters and free list |
| `WriteBehind.dfy`, `Safety.dfy` | the write-behind protocol as a state machine; what every step of every run keeps |
| `Versions.dfy`, `Order.dfy`, `Store.dfy` | the client operations on the store's own tables, counters and cache |
| `Batch.dfy` | `process_write_batch` on the records of the store and the real free-space manager, a run of that state machine |
| `Running.dfy` | the whole system: clients and workers on one store |
| `Lost.dfy` | sectors that get lost, step by step and over whole runs |
| `Layouts.dfy`, `Restart.dfy`, `RestartTheorem.dfy` | what a restart makes of the disk that a clean run leaves behind |
| `Orphans.dfy`, `Aftermath.dfy` | which steps make a restart wrong; what it makes of the disk after any run, failures included |
| `Reopen.dfy`, `Recovering.dfy` | one session after another, of the protocol and of the running store |
| `Session.dfy` | a client's operation, a flush by the real worker and a restart, from end to end |
| `Lifetimes.dfy` | what several operations on one store do together, in bytes, nanoseconds and numbers |
| `Resurrection.dfy`, `Dropped.dfy`, `Phantom.dfy` | runs after which a restart finds a deleted key, or one that nobody has stored |
| `Hash.dfy`, `Cache.dfy` | MurmurHash3 (x86, 32 bits) and the clock cache |
| `Replication.dfy`, `Findings.dfy` | several stores with the same writes; inputs on which the code falls short |

The main results:

* Ownership: in every reachable state, under every interleaving of workers and clients and every failed or torn write,
  extents are disjoint, not free and past the metadata; a sector changes only in an extent that its writer owns
  (`Safety.OwnershipIsExclusive`, `Safety.WritesStayInOwnExtent`).
* Offloading is invisible: every run reads as a map that only the clients change (`Safety.RunsRefineMap`).
* Restart: after a clean run on a blank device the scan rebuilds exactly the free list, and it rebuilds the index if and
  only if every orphan on disk lies below the record that holds its key (`RestartTheorem.RestartAfterCleanRun`). A record
  becomes an orphan if and only if a worker drops its deletion while it is on its way to disk
  (`Orphans.OrphanIffDoomed`). On disciplined runs there is none, so any number of sessions with restarts in between read
  as one run (`RestartTheorem.RestartFrom`, `Reopen.RestartsAreInvisible`); closing the running store and opening it again
  gives a store with the same versions, exact counters and the same free chunks, from which this holds again
  (`Recovering.Restart`).
* Restart after any run, with failed writes, torn markers and full devices: once nothing is under way, the scan makes
  exactly those sectors free that were free or in no extent, if and only if none of these looks like a record header
  (`Aftermath.RestartAfterAnyRun`).
* Lost sectors, which are neither free nor in the extent of a record that the table or a worker still knows: every step
  loses exactly what is said of it, nothing lost is found again before a restart, and a run loses nothing if and only if
  all its steps are tight, which can be told before each (`Lost.StepLoses`, `Lost.RunLoses`, `Lost.RunLosesNothingIff`).
* A batch of the real worker is a run of its steps; if it succeeds, exactly the records worth writing have gone to disk,
  what happens to the free sectors and to the disk is said for every outcome, and the clients see nothing of it
  (`Batch.WriteBuffer.ProcessWriteBatch`, `Running.System.Flush`).
* From end to end on the program's own operations: what is stored and flushed is there after a restart, and what is
  deleted and flushed stays deleted, as long as the device takes the writes and has room (`Session.StoredSurvives`,
  `Session.DeletedStaysDeleted`).
* The scan inverts the layout of a whole disk, whatever bytes lie inside the records (`Scan.ScanInvertsDisk`).
* Allocation fails if and only if there is no run of that many free sectors, and takes the best fit
  (`FreeSpace.FreeSpaceManager.AllocateSectors`).
* Eviction needs at most two scans, whatever is in the cache, and the first spares every referenced entry
  (`Cache.Cache.EvictEntries`); the keys and values held, and 72 bytes for each, never exceed the bound
  (`Cache.Cache.CountsBytes`).
* A counter grows by exactly the increments accepted, unless it meets a bound on the way (`Lifetimes.CountUp`).
* Last-writer-wins converges if and only if the newest writes of each key agree (`Versions.Convergence`).

Where the code and its intent part, the model follows the code:

* `total_free` counts the remainder of every splitting allocation twice (`FreeSpace.FreeSpaceManager.FreeBytes`,
  `Findings.DoubledTotalFree`).
* Releasing a range is not checked against the free sectors: it succeeds, and leaves overlapping chunks exactly if the
  range was free (`FreeSpace.FreeSpaceManager.ReleaseSectors`, `Findings.FreedTwice`). One that starts in sectors 1 to
  15 is refused after the chunk behind it has been taken out, and that chunk is lost (`Findings.ChunkLost`).
* Sectors get lost in four ways, and in no other (`Lost.StepLoses`, `Lost.LosesNothingIffTight`):
  a flushed delete computes the extent without the 8 expiry bytes, which is one sector short in eight residues
  (`Format.ReleasedExactly`), and the sweeper tells it a length of zero; a failed batch gives back only the first sector
  of each extent; a batch that meets a full device forgets the extents it has allocated so far and the deletions it has
  collected or drained (`Lost.AbortLoses`); and the extent of a record is lost at the end of its write if the record is
  out of the table by then and its deletion is neither queued nor listed, which is how orphans come about
  (`Lost.ClearLoses`, `Aftermath.OrphanFreeIffTight`).
* A restart finds a lost sector again exactly if it is in no extent, unless some sector outside the extents looks like a
  header; the lowest such sector then comes back as a record (`Layouts.FreeListIff`, `Layouts.PhantomFound`). So the
  later sectors of a deleted record can show up as a key that nobody has stored (`Phantom.TailComesBack`,
  `Phantom.UnstoredKeyAppears`).
* A key deleted while its record is being written comes back at the next restart (`Resurrection.DeletedKeyComesBack`), and
  so does one deleted in a batch that meets a full device (`Dropped.DeletionForgotten`).
* The scan computes sizes in 64 bits: it comes to an end if and only if it meets no header whose size is exactly a
  multiple of 2^64 (`Scan.ScanEndsIff`).
* The free list can be rebuilt if and only if no record in the metadata area is followed by a gap there
  (`Recovery.ReleaseGaps`, `Findings.NoFreeList`).
* Recovery counts every record it finds, also those that a later one with the same key replaces
  (`Recovery.CountIsExactIff`, `Findings.InexactCount`).
* Without persistency, an update leaves the old value in the cache (`Findings.UpdateOfCachedKey`); with a time to live,
  an expired key is served as long as it is cached (`Store.FunKV.Get`, `Findings.ExpiredRead`).
* An increment tells the memory usage the key length modulo 65536; the figure drifts and can drop below zero
  (`Store.FunKV.Increment`, `Findings.IncrementOfLongKey`, `Findings.MemoryUnderflow`). A restart sets it right.

## Model

| member | source | states |
|---|---|---|
| `Base.LeRoundTrip` | src/storage/format.rs:29-37 | reading back `width` little-endian bytes of a number that fits them gives the number |
| `Format.SectorsNeeded` | src/storage/write_buffer.rs:460-463 | the number of sectors is the least that holds the record, and at least one |
| `Format.ReleasedIsPrefix` | src/storage/write_buffer.rs:404-409 | the extent a delete frees is a non-empty prefix of the allocated one, for every length up to the true one that it is told |
| `Format.ReleasedExactly` | src/storage/write_buffer.rs:404-405 | told the true length it is the whole extent, except one sector short exactly when the size modulo 4096 is in 1..8 |
| `Format.ParseHeader` | src/storage/format.rs:48-73 | any buffer that starts with a header parses to it; a key of 65536 bytes or more comes back shorter |
| `Format.CodecRoundTrip` | src/storage/format.rs:26-73 | parsing a prepared record returns key, value length, timestamp and expiry if and only if the key length fits 16 bits |
| `Format.FirstSectorSuffices` | src/storage/write_buffer.rs:459-476 | the first sector alone parses to the header if and only if the key has at most 4066 bytes |
| `Format.ValueAtHeaderOffset` | src/storage/write_buffer.rs:459-476 | for every key length the value lies at the header size within the padded block |
| `Format.PreparedFirstBlock` | src/core/recovery.rs:66-95 | the scan takes the first sector of a prepared record with a key of 1 to 4066 bytes for its header |
| `Format.LoadReadsExtent` | src/core/persistence.rs:44-76 | loading a value reads exactly the record's extent, at the header offset |
| `Format.PreparedValue` | src/core/persistence.rs:70-75 | what was prepared from a held value loads back as that value |
| `Format.LoadSucceeds` | src/core/persistence.rs:47-73 | loading succeeds if and only if the record has a sector and its extent is on the device |
| `Chunks.Canonical` | src/storage/free_space_manager.rs:14-19 | chunks that never touch are determined by the set of sectors they cover |
| `Chunks.RunInChunk` | src/storage/free_space_manager.rs:128-160 | a run of free sectors lies within one chunk, because no two chunks are adjacent |
| `Chunks.CoverSize` | src/storage/free_space_manager.rs:162-188 | chunks cover as many sectors as their sizes add up to |
| `FreeSpace.NoRun` | src/storage/free_space_manager.rs:69-77 | if every chunk is too small there is no run of that many free sectors at all |
| `FreeSpace.Fragmentation` | src/storage/free_space_manager.rs:214-227 | the greatest whole percentage that is not above the share of the free bytes outside the largest chunk |
| `FreeSpace.FreeSpaceManager.SetPersistenceSize` | src/storage/free_space_manager.rs:60-62 | the chunks stay as they are, so they are in bounds exactly if they fit the new size |
| `FreeSpace.FreeSpaceManager.Initialize` | src/storage/free_space_manager.rs:42-58 | which result comes when, also on a manager that holds chunks; on an empty one of more than 16 sectors all sectors past the metadata become free |
| `FreeSpace.FreeSpaceManager.InsertFreeSpace` | src/storage/free_space_manager.rs:169-188 | which error comes when; on success exactly the chunk is added to both maps and the figure, on failure nothing changes; the chunks stay apart if and only if the new one touches none |
| `FreeSpace.FreeSpaceManager.RemoveSpace` | src/storage/free_space_manager.rs:162-167 | both maps lose exactly the chunk and the free-byte figure does not underflow |
| `FreeSpace.FreeSpaceManager.FirstFit` | src/storage/free_space_manager.rs:69-77 | finds the smallest sufficient chunk, the lowest start among ties, or shows that every chunk is too small |
| `FreeSpace.FreeSpaceManager.AllocateSectors` | src/storage/free_space_manager.rs:64-108 | OutOfSpace if and only if no run of that many free sectors exists; otherwise exactly the returned range, the start of the best fit, leaves the free set; the rollback and CorruptedData branches are dead |
| `FreeSpace.FreeSpaceManager.GetLargestFreeChunk` | src/storage/free_space_manager.rs:229-235 | the bytes of the largest chunk, never more than the free-byte figure |
| `FreeSpace.FreeSpaceManager.UpdateFragmentation` | src/storage/free_space_manager.rs:214-227 | the percentage is that of the present chunks and stays within 0..100 |
| `FreeSpace.FreeSpaceManager.TryMergeSpaces` | src/storage/free_space_manager.rs:128-160 | exactly the chunk that ends where the range starts and the one that starts where it ends are taken out and joined with it; the result touches no other chunk if and only if the range was not free |
| `FreeSpace.FreeSpaceManager.ReleaseSectors` | src/storage/free_space_manager.rs:110-126 | which result comes when, for every range; on success exactly the range is added, and the chunks stay disjoint and apart if and only if it was not free; a range that starts in the metadata loses the chunk behind it |
| `FreeSpace.FreeSpaceManager.ChunkEndingAt` | src/storage/free_space_manager.rs:133-139 | looking only at the nearest chunk below finds the chunk that ends at the range, if there is any |
| `FreeSpace.FreeSpaceManager.FreeBytes` | src/storage/free_space_manager.rs:84-101 | total_free is 4096 times the free sectors plus 4096 times the remainders of all splits so far |
| `Scan.ScanInvertsLayout` | src/core/recovery.rs:52-134 | the scan of any layout finds exactly its records, in order, whatever lies inside their extents |
| `Scan.ScanInvertsDisk` | src/core/recovery.rs:52-134 | a disk of prepared records and sectors that are no headers scans back to exactly those records |
| `Scan.HeadersAscend` | src/core/recovery.rs:97-133 | on any device the extents found are disjoint and ascending, and each shows the header found |
| `Scan.StepSizeIff` | src/core/recovery.rs:97-98 | in 64 bits the size of a header's extent is the true one if and only if the size fits, and zero sectors if and only if it is 2^64 |
| `Scan.ScanEndsIff` | src/core/recovery.rs:52-134 | the scan loop ends if and only if it comes to no header with zero sectors |
| `Scan.FittingScan` | src/core/recovery.rs:52-134 | if no header states a size of 2^64 or more, the loop ends and has found what `Headers` says |
| `Recovery.IndexKeepsHighest` | src/core/recovery.rs:111-115 | of several records with a key, the index keeps the one with the highest sector |
| `Recovery.IndexHasOnlyFound` | src/core/recovery.rs:111-115 | every key of the index comes from a record found |
| `Recovery.CountIsExactIff` | src/core/recovery.rs:111-122 | the number of records counted is the size of the index if and only if no key was found twice |
| `Recovery.OccupiedMembers` | src/core/recovery.rs:128-130 | a sector is occupied if and only if it lies in the extent of a record found |
| `Recovery.PushExtent` | src/core/recovery.rs:128-130 | adds exactly the extent to the occupied sectors, which stay sorted |
| `Recovery.PositionsLead` | src/core/recovery.rs:111-115 | the tables lead to the records that the index says |
| `Recovery.UnexpiredIff` | src/core/recovery.rs:106-109 | a header stays if and only if the time to live is off, it has no expiry, or the clock has not passed it |
| `Recovery.UnexpiredAscends` | src/core/recovery.rs:106-109 | leaving out expired records keeps the order |
| `Recovery.ScanDevice` | src/core/recovery.rs:47-134 | the records are those of the headers found that have not expired when looked at, in order of their sectors; both indexes lead from a key to the record with the highest sector, and both counters and the occupied sectors go with them |
| `Recovery.ReleaseGap` | src/core/recovery.rs:141-145 | releasing a gap succeeds if and only if it starts at 16 or above, and then the free set is the complement up to its end |
| `Recovery.ReleaseGaps` | src/core/recovery.rs:136-153 | succeeds if and only if no occupied sector below 15 is followed by a gap; then the free set is exactly the complement of the occupied sectors, even if the last record overhangs the device |
| `Recovery.Rebuild` | src/core/recovery.rs:37-156 | the whole function: a header found has its record in the indexes if and only if the time to live is off, it has no expiry, or its expiry has not passed; the free list is what lies in the extents of none of these; unreadable sectors are skipped |
| `Recovery.NoLowRecordIsRebuildable` | src/core/recovery.rs:136-153 | if no record lies below sector 16 the free list can be rebuilt, for any scan result |
| `Safety.StepIsSafe` | src/storage/write_buffer.rs:359-457 | every step of a worker or a client keeps the invariant and changes the readable contents only as a client asked |
| `Safety.RunsRefineMap` | src/storage/write_buffer.rs:420-431 | every run, with any failures and interleaving, reads as a map that only the clients change |
| `Safety.ReadsSucceed` | src/core/operations.rs:96-100 | in every reachable state the value of every key can be read, from memory or from disk |
| `Safety.OwnershipIsExclusive` | src/storage/write_buffer.rs:370-414 | an owned sector has one owner, is not free, and lies on the device past the metadata |
| `Safety.WritesStayInOwnExtent` | src/storage/write_buffer.rs:398-421 | a sector that a step changes belongs to a record that this worker is flushing or deleting |
| `Safety.CheckKeepsInv` | src/storage/write_buffer.rs:370-396 | looking at an entry, which may list a deletion or skip a write, keeps the invariant and the contents |
| `Safety.AllocateKeepsInv` | src/storage/write_buffer.rs:376-385 | taking any free extent for a record keeps the invariant and the contents |
| `Safety.MarkerKeepsInv` | src/storage/write_buffer.rs:399-402 | writing the deletion marker, or a torn one, over the first sector keeps the invariant and the contents, because nobody reads that record any more |
| `Safety.ReleaseKeepsInv` | src/storage/write_buffer.rs:404-409 | releasing a prefix of the extent, after the marker, keeps the invariant and the contents |
| `Safety.BatchWrittenKeepsInv` | src/storage/write_buffer.rs:421-424 | writing the batch keeps the invariant and the contents: every record of it is then on disk with its value at the header offset |
| `Safety.BatchFailedKeepsInv` | src/storage/write_buffer.rs:433-435 | a batch write that fails after any partial effect on its own sectors keeps the invariant and the contents |
| `Safety.PublishKeepsInv` | src/storage/write_buffer.rs:425-426 | storing the sector of a written record keeps the invariant and the contents, with the value readable from memory and from disk |
| `Safety.ClearKeepsInv` | src/storage/write_buffer.rs:427-428 | dropping the value, after the sector is stored, keeps the invariant and the contents |
| `Safety.RollbackKeepsInv` | src/storage/write_buffer.rs:444-449 | giving back the first sector of an extent after three failures keeps the invariant and the contents |
| `Safety.PutKeepsInv` | src/core/operations.rs:360-374 | an insert, an update or an increment, with the entries it queues in any shard, keeps the invariant |
| `Safety.RemoveKeepsInv` | src/core/operations.rs:198-231 | a delete, or the sweeper removing an expired record, keeps the invariant, whatever a worker is doing with the record |
| `Safety.SetExpiryKeepsInv` | src/core/operations.rs:139-158 | a new time to live keeps the invariant and the contents |
| `Lost.CarriedStep` | src/storage/write_buffer.rs:370-431 | in every reachable state an extent whose sector is not published is in the batch of a worker |
| `Lost.StepLoses` | src/storage/write_buffer.rs:359-457 | a step loses exactly the rest of an extent on a release, all but the first sector on a rollback, the batch and the forgotten deletions when the device is full, the whole extent at the end of the write of a record that nobody knows any more, and nothing otherwise |
| `Lost.AbortLoses` | src/storage/write_buffer.rs:376-378 | meeting a full device loses exactly the sectors of the batch so far and those of the deletions listed or drained, unless another worker is writing the record |
| `Lost.ClearLoses` | src/storage/write_buffer.rs:425-429 | finishing the write of a record loses its whole extent exactly if the record is out of the table and its deletion is neither queued nor listed |
| `Lost.LosesNothingIffTight` | src/storage/write_buffer.rs:359-457 | a step loses nothing if and only if it is no release told too short a length, no rollback of a record of more than 4096 bytes, no end of a write of a forgotten record, and no abort with extents or deletions in hand |
| `Lost.TrueDeleteIsTight` | src/storage/write_buffer.rs:404-405 | told the true length, a release loses a sector if and only if the size modulo 4096 is in 1..8 |
| `Lost.RunLoses` | src/storage/write_buffer.rs:359-457 | over every run, what is lost is what was lost before and the leaks on the way; nothing lost is found again |
| `Lost.RunLosesNothingIff` | src/storage/write_buffer.rs:359-457 | from a fresh device a run loses no sector if and only if every step is tight |
| `Layouts.ShownIsFound` | src/core/recovery.rs:52-134 | if every extent shows its header and no sector outside looks like one, the scan finds every extent |
| `Layouts.FoundIsShown` | src/core/recovery.rs:52-134 | and it finds nothing else |
| `Layouts.FreeListIff` | src/core/recovery.rs:52-153 | if every extent shows its header, the rebuilt free list is what was free or in no extent, if and only if no sector outside the extents looks like a header |
| `Layouts.PhantomFound` | src/core/recovery.rs:66-134 | otherwise the lowest such sector comes back as a record, in the index and out of the free list |
| `Aftermath.TellingStep` | src/storage/write_buffer.rs:359-457 | whatever fails, every step keeps the extents of written records showing headers of their size until they are marked as deleted |
| `Aftermath.RestartAfterAnyRun` | src/core/recovery.rs:37-156 | after any run on a blank device with keys of at most 4066 bytes, once nothing is under way, the rebuilt free list is what was free or in no extent, if and only if no sector outside the extents looks like a header |
| `Aftermath.LostWhenDrained` | src/storage/write_buffer.rs:359-457 | once nothing is under way, the lost sectors are those in no extent that are not free, and those of orphans |
| `Aftermath.SectorsAccountedFor` | src/storage/write_buffer.rs:359-457 | once nothing is under way, every sector of the data area is free, in the extent of a stored record, or lost, and only one of these |
| `Aftermath.OrphanFreeIffTight` | src/storage/write_buffer.rs:388-429 | a clean run ends without orphans if and only if every step is tight |
| `Orphans.DoomStep` | src/storage/write_buffer.rs:370-393 | in a clean run a record is doomed exactly by a worker that looks at its deletion and finds no sector while it is on its way to disk, and for good |
| `Orphans.OrphanIffDoomed` | src/storage/write_buffer.rs:388-393 | after a clean run, once everything is drained, the orphans are exactly the records doomed on the way |
| `Dropped.DeletionForgotten` | src/storage/write_buffer.rs:376-393 | for any two records that do not fit the device together: deleting the first and inserting the second before one flush loses the sectors of the first, and a restart brings it back |
| `Phantom.DeleteLeavesTail` | src/storage/write_buffer.rs:359-457 | any record, inserted, flushed and deleted on a fresh device without a failure, loses exactly the sectors its delete does not give back, and all but its first sector keep its bytes |
| `Phantom.TailComesBack` | src/core/recovery.rs:66-153 | afterwards a restart finds nothing, and frees everything, if and only if no later sector of the record looks like a header |
| `Phantom.UnstoredKeyAppears` | src/core/recovery.rs:66-95 | a record with key [1] and a value of 4073 bytes after which the key [0x6B] is found |
| `Batch.WriteBuffer.DrainEntries` | src/storage/write_buffer.rs:94-102 | takes all entries of the shard, in order, and leaves it empty |
| `Batch.WriteBuffer.NoteEntry` | src/storage/write_buffer.rs:388-393 | a deletion of a record on disk is listed with its sector, key length and told length; any other entry that is not worth writing is dropped |
| `Batch.WriteBuffer.CollectEntries` | src/storage/write_buffer.rs:366-396 | exactly the extents of the batch are no longer free; the batch is exactly the records worth writing, in order and with their bytes, the deletions exactly those of records on disk; only steps of this worker have happened, and it fails only for lack of room |
| `Batch.WriteBuffer.AllocateEntry` | src/storage/write_buffer.rs:372-386 | the batch grows by the record's bytes at an extent that was free and no longer is; it fails if and only if there is no room, and then everything is given up |
| `Batch.WriteBuffer.DeleteAll` | src/storage/write_buffer.rs:398-414 | every listed deletion is marked and then released, in order; a marker write that does not fail leaves `\0DELETED` in the first sector, one that fails what the device says; nothing else changes on disk, and exactly what the deletions free joins the free set |
| `Batch.WriteBuffer.WriteDeletionMarker` | src/storage/write_buffer.rs:399-402 | unless the write fails, the first sector begins with `\0DELETED`, and the step is the one a clean run takes; no other sector changes |
| `Batch.WriteBuffer.AttemptWrite` | src/storage/write_buffer.rs:421-435 | an attempt that the device takes leaves exactly the batch on disk; one that fails changes only sectors of the batch |
| `Batch.WriteBuffer.PublishOne` | src/storage/write_buffer.rs:425-429 | the sector is stored before the value is dropped, and the record has changed in nothing else |
| `Batch.PublishedRecords` | src/storage/write_buffer.rs:425-429 | publishing offloads each record of a batch to its own extent and leaves the others alone |
| `Batch.WriteBuffer.RollbackFirst` | src/storage/write_buffer.rs:446-448 | giving back the first sector of a failed extent always succeeds and frees exactly that sector |
| `Batch.WriteBuffer.Attempts` | src/storage/write_buffer.rs:416-453 | at most three attempts, until the device takes one: as many failed writes as it refuses before that and then, if fewer than three, one that has put the whole batch on disk |
| `Batch.WriteBuffer.WriteBatch` | src/storage/write_buffer.rs:416-454 | on success the batch is on disk and published, on failure no record has changed and the first sectors are free |
| `Batch.WriteBuffer.ProcessWriteBatch` | src/storage/write_buffer.rs:359-457 | only steps of this worker have happened, and it is idle again; on success exactly the records worth writing are offloaded, with their bytes on disk, and no other has changed; on failure none has, and the error tells why; unless there is no room it succeeds if and only if the device takes one of three attempts; the batch takes its extents, the deletions give back theirs unless the device is full, a batch that cannot be written gives back first sectors; every deletion whose marker write does not fail has left its marker, and if none fails and the batch succeeds all steps are those of a clean run |
| `Batch.WorkerKeepsIndexes` | src/storage/write_buffer.rs:359-457 | after any run of a worker's steps the table leads to the same versions |
| `Batch.PutIsStep` | src/core/operations.rs:360-374 | what a put does to the fields is what the protocol's step does to the state |
| `Batch.DeleteIsStep` | src/core/operations.rs:198-231 | what a delete does to the fields is what the protocol's step does to the state |
| `Restart.OneSectorIsRecoverable` | src/storage/write_buffer.rs:404-405 | a record that fits one sector can be found and wiped out completely |
| `Restart.CleanStepKeepsClean` | src/storage/write_buffer.rs:370-431 | every step that gives nothing up, failed attempts that are retried included, keeps the disk showing exactly the headers of the written extents |
| `RestartTheorem.ScanFindsExtents` | src/core/recovery.rs:52-134 | once drained, the scan finds exactly the records that own an extent |
| `RestartTheorem.FreeListSurvives` | src/core/recovery.rs:136-153 | the rebuilt free list is the one in memory |
| `RestartTheorem.IndexSurvivesIff` | src/core/recovery.rs:111-115 | the rebuilt index is the one in memory if and only if every orphan lies below the record that holds its key |
| `RestartTheorem.TidyStep` | src/core/operations.rs:567-589 | a step that supersedes only flushed records and deletes none in flight leaves no orphan |
| `RestartTheorem.FoundKeysDiffer` | src/core/recovery.rs:111-117 | without orphans no key is found twice |
| `RestartTheorem.RestartAfterCleanRun` | src/core/recovery.rs:37-156 | for every clean run from a blank device, once drained: the free list is rebuilt exactly, and the index if and only if every orphan is shadowed |
| `RestartTheorem.RestartFrom` | src/core/recovery.rs:37-156 | after every clean and disciplined run from any clean start, once drained, the rebuilt index and free list are those in memory, no key is found twice, and the index reads back all that the clients left |
| `RestartTheorem.GoodRunWorks` | src/storage/write_buffer.rs:359-457 | a run stays clean and disciplined while a worker goes on without giving anything up |
| `RestartTheorem.RestartEquivalence` | src/core/recovery.rs:37-156 | the same from a blank device |
| `Reopen.RecoveredIsSafe` | src/core/recovery.rs:100-153 | the state that recovery builds satisfies the protocol invariant, orphans included |
| `Reopen.RecoveredContents` | src/core/persistence.rs:44-76 | it reads as the rebuilt index does |
| `Reopen.RunsAfterRecovery` | src/core/recovery.rs:37-156 | whatever is on the device, cannot be read or has expired: if the records taken over are on the device and past the metadata, every run that follows is safe and refines a map |
| `Reopen.RestartedIsClean` | src/core/recovery.rs:37-156 | a restart leads from a clean end to a clean start, so the next restart is exact again |
| `Reopen.RestartsAreInvisible` | src/core/recovery.rs:37-156 | any number of good sessions with a restart after each, and a last run of any kind, read as one run without restarts |
| `Reopen.SessionsFromBlank` | src/core/recovery.rs:37-156 | in particular sessions that begin on a blank device |
| `Recovering.MemoryIsFootprint` | src/core/recovery.rs:117-122 | the memory counted for records with different keys is that of the table they make |
| `Recovering.ScanMatchesModel` | src/core/recovery.rs:37-156 | the scan of a drained store finds the stored keys with their versions, as many as there are, and their memory |
| `Recovering.RecoveredAgree` | src/core/recovery.rs:100-122 | the records, tables and counters that recovery makes are right for a store with this model |
| `Recovering.Recover` | src/core/recovery.rs:37-156 | recovering the running store succeeds; both indexes lead to the records in memory and carry the stored versions, both counters are exact, and the new manager has exactly the chunks of the old one |
| `Recovering.Restart` | src/core/recovery.rs:37-156 | the store opened again, however it is set up, has the stored versions and exact counters, and starts where the next restart is exact again |
| `Session.FlushLast` | src/storage/write_buffer.rs:359-457 | a flush of the last shard that holds anything, by the real worker on a device that takes every write, ends with nothing under way and a restart that will be exact, unless there is no room |
| `Session.StoredSurvives` | src/core/operations.rs:312-425 | a record of one sector that is stored and flushed is there after a restart, with all else as before |
| `Session.DeletedStaysDeleted` | src/core/operations.rs:189-236 | a key that is deleted and flushed is gone after a restart, with all else as before |
| `Resurrection.DeletedKeyComesBack` | src/storage/write_buffer.rs:388-393 | a run without failures after which nothing is stored, the scan finds a deleted key, and its sectors are lost |
| `Hash.RoundInjectiveInState` | src/utils/hash.rs:14-21 | a round maps different states to different states, whatever the block |
| `Hash.RoundInjectiveInBlock` | src/utils/hash.rs:14-21 | a round maps different blocks to different states, whatever the state |
| `Hash.FinishInjective` | src/utils/hash.rs:38-42 | the finalising steps lose nothing |
| `Hash.BlockChangeChangesHash` | src/utils/hash.rs:9-45 | for every seed, two keys of one length that differ only within one aligned 4-byte block have different hashes |
| `Hash.TailChangeChangesHash` | src/utils/hash.rs:24-45 | for every seed, two keys of one length that differ only within the final partial block have different hashes |
| `Hash.RemainderWord` | src/utils/hash.rs:26-29 | the loop over the remaining bytes builds the zero-padded little-endian word |
| `Hash.ComputeMurmur3` | src/utils/hash.rs:9-45 | the loops compute the recursive definition about which the above is proved |
| `Hash.KnownValues` | src/utils/hash.rs:1-45 | constants and rotations give the values that hashing "Hello, world!" with seed 0x9747b28c goes through |
| `Hash.KnownHash` | src/utils/hash.rs:9-45 | the hash of "Hello, world!" with seed 0x9747b28c is 0x24884cba |
| `Clock.SecondChanceClearsBits` | src/core/cache.rs:165-169 | once a scan has been over a bucket no entry in it is referenced |
| `Clock.NoSecondChance` | src/core/cache.rs:170-177 | a scan evicts every entry that is not referenced |
| `Clock.SecondChanceSpares` | src/core/cache.rs:165-169 | a scan keeps every referenced entry and clears its bit |
| `Clock.SweptNext` | src/core/cache.rs:161-177 | removing at the index and not advancing, or advancing past a cleared entry, continues the scan with the next entry |
| `Clock.SecondChanceUnique` | src/core/cache.rs:161-177 | a scan keeps keys unique |
| `Clock.PartHoldsAll` | src/core/cache.rs:146-152 | if the buckets visited hold as many entries as all do, the others are empty |
| `Cache.StepsTo` | src/core/cache.rs:156-157 | in a round the hand comes to every bucket exactly once |
| `Cache.ScanComplete` | src/core/cache.rs:154-184 | when all entries have been counted every bucket has had its second chance |
| `Cache.Cache.SweepBucket` | src/core/cache.rs:160-183 | scans from the front, stops only when the target is reached, counts each entry once |
| `Cache.Cache.CountEntries` | src/core/cache.rs:146-152 | the entries of all buckets |
| `Cache.Cache.Scan` | src/core/cache.rs:146-187 | terminates; unless it reaches the target early every entry present at its start is visited exactly once; no referenced entry is evicted |
| `Cache.Cache.EvictEntries` | src/core/cache.rs:137-194 | at most two scans, after which memory is at or below the low watermark; nothing is invented, and a single scan spares every referenced entry |
| `Cache.Cache.Get` | src/core/cache.rs:55-69 | returns what the cache holds for the key; the contents stay, and exactly the entry hit gets its reference bit and one more access |
| `Cache.Cache.Insert` | src/core/cache.rs:71-121 | a value of more than a quarter of the high watermark with its key and 72 bytes changes nothing; otherwise the key holds the value in an entry that the next scan spares, other keys are at most evicted, and not even that while there is room; the memory figure is the bytes held and 72 for each key |
| `Cache.Cache.Remove` | src/core/cache.rs:123-134 | exactly the key is gone; the memory figure does not underflow |
| `Cache.Cache.Clear` | src/core/cache.rs:196-203 | nothing is held, no memory used |
| `Cache.Cache.AdjustWatermarks` | src/core/cache.rs:213-227 | accepted if and only if low < high <= 1 GB; then usage is at most the new high watermark |
| `Cache.Cache.NeverAboveHigh` | src/core/cache.rs:71-121 | with low at most three quarters of high, the keys and values held, and 72 bytes for each, never exceed high |
| `Cache.SizeOfContents` | src/core/cache.rs:72-72 | the entries of all buckets take the bytes of their keys and values, and 72 for each |
| `Cache.Cache.CountsBytes` | src/core/cache.rs:71-121 | in every valid cache the memory figure is the bytes of keys and values held and 72 for each key, which never exceeds the larger of the high watermark and the low one plus a quarter of the high one |
| `Cache.Cache.PutEntry` | src/core/cache.rs:90-120 | replaces or adds the entry in its bucket, the memory figure staying the sum of the entry sizes |
| `Versions.NewestWins` | src/core/operations.rs:325-345 | whatever the order of the writes, each key holds one of its newest versions |
| `Versions.Convergence` | src/core/operations.rs:330-345 | all orders of a collection of writes give one table if and only if the newest writes of each key agree |
| `Versions.DistinctTimestampsConverge` | src/core/operations.rs:330-345 | distinct timestamps per key are enough for all orders to agree, and then each key has its greatest timestamp |
| `Replication.PutApplies` | src/core/operations.rs:330-345 | without a memory limit a put follows the timestamp rule |
| `Replication.Replay` | src/core/operations.rs:312-377 | a store that receives writes one by one ends with the table the rule gives |
| `Replication.Converge` | src/core/operations.rs:312-425 | two stores, however set up, that receive the same writes in different orders end alike |
| `Ranges.PageUnique` | src/core/operations.rs:262-275 | there is only one list of the first `limit` pairs of a range in key order |
| `Order.Least` | src/core/operations.rs:262-262 | the next key of the ordered tree: lexicographically no other comes before it |
| `Order.LeqIsLexicographic` | src/core/operations.rs:262-262 | a key is at most another if and only if it is a prefix of it or has the smaller byte where they first differ |
| `Tables.CurrentWithout` | src/core/operations.rs:567-572 | dropping the cached value of a key that changes keeps the cache right; leaving it does if and only if it is the new value |
| `Tables.WorkersKeepVersions` | src/storage/write_buffer.rs:425-429 | all that a worker changes in a record is where its value is |
| `Tables.WorkerKeepsTabled` | src/storage/write_buffer.rs:359-457 | whatever step a worker takes, the table leads to the same versions |
| `Store.I64RoundTrip` | src/core/operations.rs:453-464 | a 64-bit counter survives its little-endian bytes, negative ones included |
| `Store.DecodesSigned` | src/core/operations.rs:453-457 | eight bytes are read as the two's complement number they stand for, least significant first |
| `Store.EncodesSigned` | src/core/operations.rs:464-464 | the bytes written stand for the number |
| `Store.SaturatingAdd` | src/core/operations.rs:463-463 | the sum where it fits, otherwise the bound on its side, always within 64 bits |
| `Store.KeyLen` | src/core/record.rs:79-79 | the 16-bit key length equals the length if and only if that is below 65536 |
| `Store.FunKV.ReadsModel` | src/core/operations.rs:96-100 | the record of a key shows its timestamp, expiry, length and value, wherever the value is |
| `Store.FunKV.PersistentUpdate` | src/core/operations.rs:567-589 | the cached value goes, and the new record is queued before the deletion of the old one |
| `Store.FunKV.Put` | src/core/operations.rs:312-425 | which result comes when; a rejected write changes nothing at all; an accepted one changes both indexes, both counters, the cache and one shard as the new version requires |
| `Store.FunKV.Delete` | src/core/operations.rs:189-236 | which result comes when; a rejected delete changes nothing; an accepted one takes the key out of both indexes, the counters and the cache and queues the deletion |
| `Store.FunKV.Get` | src/core/operations.rs:61-112 | a cached value or the stored one; with persistency these differ if and only if the key has expired while cached |
| `Store.FunKV.Increment` | src/core/operations.rs:427-525 | which result comes when; the key then holds eight bytes that stand for the old number plus the increment, or the 64-bit bound on its side; a new key holds the increment; the memory usage drifts by the key length minus its 16-bit value |
| `Store.FunKV.RangeQuery` | src/core/operations.rs:249-280 | the first `limit` pairs of the range, lexicographically between the bounds and in that order, with the stored values, and never an error for valid keys |
| `Store.FunKV.CountsBytes` | src/core/operations.rs:598-600 | the memory usage is the bytes of all keys and values and 120 for each record, minus the drift |
| `Lifetimes.PutResultIs` | src/core/operations.rs:312-350 | a put is refused exactly for its sizes, an older timestamp or lack of room; an equal timestamp is accepted, and no timestamp or zero means now |
| `Lifetimes.DeleteResultIs` | src/core/operations.rs:189-210 | a delete is refused exactly for the size of its key, a missing key or an older timestamp |
| `Lifetimes.IncrementResultIs` | src/core/operations.rs:427-461 | an increment is refused exactly for the size of its key, an older timestamp or a value that has not eight bytes |
| `Lifetimes.LookupIs` | src/core/operations.rs:80-94 | a stored value is found until its time to live has passed, and not after that |
| `Lifetimes.LookupFails` | src/core/operations.rs:63-78 | which error a read of an invalid or missing key gives |
| `Lifetimes.PutAndRead` | src/core/operations.rs:61-112 | what was put is read back until timestamp plus time to live, in nanoseconds and 64 bits, has passed, and not after that |
| `Lifetimes.PutAndDelete` | src/core/operations.rs:189-236 | after a delete that is not older the key is not found; after an older one the value is still there |
| `Lifetimes.PutIfRoom` | src/core/operations.rs:545-553 | a new key is accepted if and only if all keys and values, and 120 bytes for each record, stay within the limit |
| `Lifetimes.NoRoomBelowZero` | src/core/operations.rs:545-553 | a usage that has dropped below zero leaves no room for a record smaller than what is missing |
| `Lifetimes.CountUp` | src/core/operations.rs:427-525 | after any number of increments of one key the number has grown by those accepted, unless a sum on the way left 64 bits; no other key has changed |
| `Running.System.Put` | src/core/operations.rs:312-425 | the store stays at the end of a run of the protocol that has grown by exactly this step |
| `Running.System.Delete` | src/core/operations.rs:189-236 | a delete does to the fields and to the run what the protocol's step does to the state |
| `Running.System.Increment` | src/core/operations.rs:427-525 | an increment is a put of the sum of the number held and the increment, or of the bound, and the run has grown by exactly that step |
| `Running.System.Get` | src/core/operations.rs:61-112 | with the time to live off, a read through the cache returns what is stored, after any run of clients and workers |
| `Running.System.Flush` | src/storage/write_buffer.rs:359-457 | a flush by the real worker leaves the model, the indexes, the counters and the cache; on success the shard's records are on disk; if no marker write fails the steps are those of a clean run |
| `Running.System.Work` | src/storage/write_buffer.rs:359-457 | any single step of any worker does so too, which covers every interleaving |
| `Findings.UpdateOfCachedKey` | src/core/operations.rs:420-422 | without persistency a read after an update returns the value that was cached, which is right if and only if the value did not change |
| `Findings.StaleRead` | src/core/operations.rs:420-422 | a store on which this happens |
| `Findings.ExpiredRead` | src/core/operations.rs:65-73 | a store that serves an expired key |
| `Findings.IncrementOfLongKey` | src/core/operations.rs:473-482 | incrementing a counter under a key of 65536 bytes or more takes 65536 off the memory usage |
| `Findings.MemoryUnderflow` | src/core/operations.rs:473-482 | a store whose memory usage drops below zero |
| `Findings.DoubledTotalFree` | src/storage/free_space_manager.rs:84-101 | a manager whose free-byte figure is twice what is free |
| `Findings.ChunkLost` | src/storage/free_space_manager.rs:119-121 | a manager that loses its only chunk to a refused release |
| `Findings.FreedTwice` | src/storage/free_space_manager.rs:110-126 | a manager that ends up with overlapping chunks |
| `Findings.InexactCount` | src/core/recovery.rs:111-117 | a device on which one key is counted twice |
| `Findings.NoFreeList` | src/core/recovery.rs:138-147 | a device whose free list cannot be rebuilt |

## Left out

- Threads, channels, timeouts, back-off and shutdown: workers are steps of a state machine, each client operation is one step, and races between client operations on one key are not modelled, because the program gives no guarantee for them.
- Device I/O (`src/storage/io.rs`), memory mapping and the allocator: the disk is a sequence of 4096-byte blocks; a batch write may fail after any effect on its own sectors, a deletion marker may be torn.
- Metadata, opening and flushing a device: metadata writes are taken to touch sector 0 only.
- The sweeper's sampling (`src/core/ttl.rs`): the protocol has its effect on a record as a step; it skips the counters and the cache, so `Store.FunKV` does not have it.
- `update_ttl`, `persist`, `get_ttl` and `get_size`: only easy facts; the protocol has a new expiry as a step.
- Latency and hit-rate statistics, `disk_usage`, eviction counts, error texts, builder and start-up: plumbing.
- `AtomicLink` and reference counting beyond the zero that a delete stores: not used by the store's logic.
- Unsigned overflow: integers are unbounded, except that an expiry wraps around at 64 bits as in a build without overflow checks. Timestamps and lengths are assumed to fit 64 bits where they are written to disk; `memoryUsage` is an integer that may turn negative, and the limit is checked against it modulo 2^64; the clock hand and the access counts of cache entries do not wrap, which for the hand is the same modulo 16384.
- The clock, the shard of the calling thread and the outcome of every write are inputs.
- Struct sizes (120 bytes for a record, 72 for a cache entry) are those of a 64-bit target, and a key's capacity is taken to be its length.
- Store.FunKV.RangeQuery: the ordered tree is a map whose keys are visited in lexicographic order, so its nodes and concurrent iteration are not modelled.
- Scan.HeadersAscend: takes the size of a header's extent as an unbounded integer, which is what the program computes if and only if it is below 2^64 (`Scan.StepSizeIff`, `Scan.FittingScan`); where a header on the device states more, the program's scan may go another way, or never end (`Scan.ScanEndsIff`).
- Recovery.ScanDevice: the same.
- Recovery.ReleaseGaps: takes the occupied sectors sorted, as the scan leaves them; the sort that precedes the loop is then the identity.
- Batch.WriteBuffer.DrainEntries: the entry count and size of a shard are not modelled; they only decide when a flush is asked for.
- Batch.WriteBuffer.ProcessWriteBatch: one worker runs through undisturbed; interleaving with others is covered by the state machine, of which it is shown to be a run, and by `Running.System.Work`.
- Aftermath.RestartAfterAnyRun: is about keys of at most 4066 bytes, because the scan cannot find a longer one (`Format.FirstSectorSuffices`).
- RestartTheorem.RestartFrom: is about runs without a time to live in which every batch is written within three attempts and no marker is torn, whose records have keys of at most 4066 bytes, later sectors that do not look like headers, and extents that a delete frees completely; records that fit one sector are of this kind. Outside these runs a restart can differ, as `Aftermath.RestartAfterAnyRun`, `Dropped.DeletionForgotten`, `RestartTheorem.RestartAfterCleanRun`, `Resurrection.DeletedKeyComesBack` and `Phantom.UnstoredKeyAppears` show.
