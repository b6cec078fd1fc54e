# Verified models of the kernel parts

Dafny models, with proofs, of five parts of this Pintos kernel:

* **Growing files on a write-back cache.** A file is a byte sequence, kept in sectors named by an inode,
  cached in 64 entries, on a disk with a free map. Each layer refines the one above it: the disk under the
  cache (`BufferCache`, `CacheProtocol`, `CacheDuplicates`, `CacheProgress`), sector numbers (`FreeSectors`, `InodeMap`,
  `IndexSectors`, `InodeCodec`), the free map's own file (`FreeMapFiles`, `MapSaves`), bytes (`FileContent`,
  `IndexedFiles`, `SharedIndex`, `LongFile`, `Inodes`, `InodeTables`), how far growth gets, by counting sectors
  (`Space`), runs of whole operations (`FileRuns`, `StaleGap`) and threads that interleave between any two
  allocations (`FileProtocol`, `FileSteps`, `FileInterleavings`, `FileProgress`, `FileConservation`,
  `LostGrowth`).
* **The priority-donation scheduler.** The search of `get_priority` over locks and waiters (`Donation`), the
  thread states and queues (`Scheduler`, `Kernels`) and runs of them (`ThreadRuns`).
* **The multi-level feedback queue arithmetic.** 17.14 fixed point in 32 bits with C's truncating division
  (`FixedPoint`), the load average, recent CPU and priority recurrences over unbounded runs (`Mlfqs`), the
  count of runnable threads they are fed (`ReadyCounts`) and what is reported of them (`MlfqsReports`).
  Loop calibration is in `Calibrate`.
* **The program loader.** The argument page against the decoder a C program's start-up uses (`ArgStack`), and
  segment loading against the memory image the ELF header asks for (`Segments`).
* **Virtual memory.** The two-level page tables with the TLB (`PageDir`), memory-mapped files
  (`MappedPages`, `MappedRuns`, `MappedStores`, `UserMemory`) and the swap-slot store, call by call (`Swap`) and
  at the granularity of its lock and of single sector transfers (`SwapProtocol`, `SwapRaces`, `SwapProgress`).

Code that changes state in place is a class whose methods are tied to functions on values; what holds over
whole runs is proved about those functions. `Machine` and `Reachability` hold what the others share.
`dafny verify dfyconfig.toml` checks everything.

## What the proofs found

The model keeps the code as it is. These are the places where it does less than its comments or design say,
each with the exact condition under which it does what is meant.

* **Index sectors.** Entry `k` of an index sector is read and written at byte `k`, not `2k`, so appending a
  block overwrites half of the entry before it. A block past the direct range reads back if and only if it is
  the last, the last of its group, or its high byte equals its successor's low byte
  (`IndexSectors.IndexReadBackIff`; block 188 appended as sector 300 reads as sector 11564 in
  `IndexSectors.IndexReadBackFails`). Growing a file keeps the sector of every block it had if and only if its
  blocks are all direct or end an index sector, or the last one's high byte equals the low byte of the next
  sector (`IndexSectors.GrowKeepsMapIff`).
* **The first index sector.** C's `-1 / 256` is 0, so `indirect[0]` is never allocated and the entries of that
  group go to sector 0, the free map's inode (`InodeMap.NeedsIndexIff`). Every group in use has an index
  sector of its own if and only if the file stays within the direct range (`InodeMap.IndexOwnedIff`).
* **Files past 188 sectors.** Hence growing a file leaves its block map true if and only if every sector
  appended from block 189 on has a low byte equal to the high byte of the sector before it, new index sectors
  apart (`IndexedFiles.MapTrueIff`). Under that condition a write of any length is the byte-sequence write
  (`IndexedFiles.TameWriteRefines`); as long as no other thread allocates meanwhile, the free map decides it
  beforehand (`IndexedFiles.LogIsDetermined`). It holds up to 189 sectors (`IndexedFiles.DirectStaysTrue`), and
  fails for three consecutive sectors in one index sector unless they start at 255
  (`IndexedFiles.ThreeInARowIff`).
* **Two files past 188 sectors** share their first index group, and with it those blocks
  (`SharedIndex.FirstGroupIsShared`). A write leaves another file's block map, and then its contents, alone if
  and only if not both files are longer than 188 sectors afterwards (`SharedIndex.OtherFileIff`).
* **Index sectors are never given back.** The last close of a removed file and a failed `inode_create` give back
  everything taken if and only if that is at most 444 sectors (`InodeTables.CloseLeavesNothingIff`,
  `Inodes.CreateLeavesNothingIff`; at 445, `LongFile.RemovalLeaks` and `LongFile.FailedCreateLeaks`).
* **Growth is lost at the last close.** The grown length lives in memory only (`FileRuns.CloseForgets`), and
  bytes stored past the length on disk show up as a gap that is not zero after a later growth
  (`StaleGap.GapShowsOldByte`). A gap is zero if and only if the old last sector is zero past the old end
  (`FileContent.GapIsZeroIff`), and it always is until such a close. The blocks such a file had grown by stay
  marked for good: in every interleaving a marked sector has exactly one role or was forgotten by a last close
  (`FileConservation.SectorsAreConserved`), and none is lost if and only if no last close forgets a whole
  block (`FileConservation.NoneLostIff`; a ten-step run loses sector 2 in `LostGrowth.GrowthIsLost`).
* **Two misses on one sector.** Two operations begun on an idle cache keep every sector cached at most once
  in all interleavings if and only if they are on different sectors or their sector is cached already
  (`CacheDuplicates.PairKeepsUniqueIff`; from start-up, `CacheDuplicates.DuplicateEntries`).
* **Swap's tests are outside its lock.** `get_slot` looks at the free list and at the end of the device before
  it takes the lock. Slots stay apart and `swap_in` returns the page last saved whatever the interleaving
  (`SwapProtocol.SlotsStayApart`, `SwapProtocol.InReturnsLastOut`). But two `swap_out`s on an idle table can
  pop an empty list if and only if exactly one slot is free (`SwapRaces.OutsPopIff`), and with none free can
  write past a store of whole slots if and only if room for one slot is left (`SwapRaces.OutsInsideIff`). Next
  to a `swap_in`, a `swap_out` can issue a slot although one is free if and only if none was free and there was
  room (`SwapRaces.OutAndInPeakIff`).
* **`mmap` near `PHYS_BASE`.** `mmap` accepts ranges outside user space, on which `munmap` fails an assertion if
  and only if the range does not end below `PHYS_BASE` (`MappedPages.MunmapAssertsIff`; a one-byte file mapped at
  0xC0000000 in `MappedPages.MmapAtPhysBase`). Its page count is an `off_t` and goes negative for lengths above
  0x7FFFF000, and then no page is entered (`MappedPages.MmapCountIff`).
* **Reported load and CPU.** A hundred times a 17.14 value overflows: it is reported to the nearest integer if
  and only if 100 times it, rounding included, fits 32 bits (`Mlfqs.Scheduler.GetLoadAvg`,
  `Mlfqs.Scheduler.GetRecentCpu`). Over whole runs every load average is reported right if and only if at most
  1315 threads are ever runnable (`MlfqsReports.LoadReportedIff`), and every recent_cpu if and only if at most
  32 are (`MlfqsReports.CpuReportedIff`).
* **Comments that differ from the code.** `recent_cpu++` adds one raw unit, 2 to the power -14, not 1.
  `inode_write_at` says growth is not implemented; it is. `timer_calibrate` says it refines eight bits; it
  refines nine. `free_map_allocate` speaks of a count; it takes one sector.

## Model

| member | source | states |
|---|---|---|
| BufferCache.Cache.NextCacheEntry | file-system/filesys/cache.c:44-68 | the victim is the first entry not accessed, or the last; every entry passed over loses its accessed bit, the victim is clean, and no sector's contents as seen through the cache change |
| BufferCache.Cache.FindCacheEntry | file-system/filesys/cache.c:71-96 | an entry for the sector comes back, and what every sector shows is unchanged by hit, eviction and fill |
| BufferCache.Cache.CacheWrite | file-system/filesys/cache.c:114-128 | exactly the given range of one sector changes in the view of disk plus cache |
| BufferCache.Cache.CacheRead | file-system/filesys/cache.c:130-139 | the bytes returned are the view's, which stays as it was |
| BufferCache.Cache.CacheZero | file-system/filesys/cache.c:159-165 | the sector becomes all zeros in the view and no other changes |
| BufferCache.Cache.CacheSave | file-system/filesys/cache.c:141-150 | afterwards the disk itself equals the view |
| BufferCache.FlushKeepsView | file-system/filesys/cache.c:59-65 | writing a dirty entry back and clearing its bit changes no sector as seen by callers and keeps clean entries equal to the disk |
| BufferCache.ClaimKeepsView | file-system/filesys/cache.c:83-87 | reusing a clean entry for an uncached sector loses nothing: the victim's sector still shows its bytes from the disk |
| BufferCache.StoreChangesView | file-system/filesys/cache.c:124-127 | storing into a cached entry changes that sector of the view and no other |
| BufferCache.AllCleanView | file-system/filesys/cache.c:141-150 | with nothing dirty the view is the disk |
| CacheProtocol.StepKeeps | file-system/filesys/cache.c:44-165 | every step of every thread at lock granularity keeps the invariant when no two operations in flight are on one sector, and what a read shows is what was last written |
| CacheProtocol.RunsKeepInv | file-system/filesys/cache.c:44-165 | the invariant holds after every interleaving of any length, against the replay of the writes so far |
| CacheProtocol.RunsAreCoherent | file-system/filesys/cache.c:44-96 | in every interleaving no sector is cached twice and every clean filled entry equals the disk |
| CacheProtocol.ReadsSeeLastWrites | file-system/filesys/cache.c:114-165 | in every interleaving each read returns the bytes last written, across eviction, retry and write-behind |
| CacheProtocol.WriteBackHasSector | file-system/filesys/cache.c:59-65 | in every state of the invariant a dirty entry about to be written back names a sector of the device |
| CacheProtocol.QuiescentIsCache | file-system/filesys/cache.c:71-96 | with no operation in flight the interleaved cache is a consistent sequential cache whose view is the memory the callers wrote |
| CacheProtocol.OtherThreadKept | file-system/filesys/cache.c:44-96 | what a thread has learned from its scan stays true under every step of any other thread |
| CacheProgress.NobodyIsStuck | file-system/filesys/cache.c:44-165 | no deadlock: in every interleaving a thread inside an operation can take a step, or another holds the lock it waits for and can take one |
| CacheProgress.ShowsItsRequest | file-system/filesys/cache.c:114-165 | in every interleaving the bytes a step reads or writes are at the sector, offset and size, and for writes are the data, of the call its thread began and has been in since |
| CacheDuplicates.DuplicateEntries | file-system/filesys/cache.c:71-86 | without the one-operation-a-sector rule, from start-up on any non-empty disk the code reaches a state with sector 0 in two entries |
| CacheDuplicates.PairKeepsUniqueIff | file-system/filesys/cache.c:71-96 | every interleaving of two operations begun on an idle cache keeps sectors cached at most once exactly when they are on different sectors or theirs is cached |
| CacheDuplicates.RunsKeepBuffer | file-system/filesys/cache.c:44-96 | in every run the cache lock is held only by a thread that is scanning |
| CacheDuplicates.UniqueKeptIff | file-system/filesys/cache.c:81-87 | the step that breaks it is a claim for a sector another entry got in the meantime, and no other step does |
| FreeSectors.FreeMap.constructor | file-system/filesys/free-map.c:12-20 | at first exactly the free map's and the root directory's sectors are marked |
| FreeSectors.FreeMap.Allocate | file-system/filesys/free-map.c:27-41 | the bitmap: the first free sector is marked, or none, exactly when all are marked or the map's file cannot be written, and then nothing changed |
| FreeSectors.FreeMap.Release | file-system/filesys/free-map.c:44-48 | the bitmap: given the assertion that the sector is marked, exactly it becomes free |
| FreeMapFiles.BitmapRoundTrip | file-system/filesys/free-map.c:53-61 | the bitmap read back from the bytes written is the bitmap |
| FreeMapFiles.AppendedOffMap | file-system/filesys/free-map.c:27-41 | growth takes no block of the free map's own file, and those blocks stay marked |
| Inodes.FileSystem.FreeMapAllocate | file-system/filesys/free-map.c:27-41 | bitmap and file together: afterwards the map's file says exactly which sectors are used, only its own blocks changed, and failure, with no sector free or the file not writable, changes nothing |
| Inodes.FileSystem.FreeMapRelease | file-system/filesys/free-map.c:44-50 | exactly the sector becomes free, the map's file says so if it can be written, and only that file's blocks changed |
| Inodes.FileSystem.FreeMapCreate | file-system/filesys/free-map.c:72-85 | it succeeds exactly when there is memory and as many unused 16-bit sectors as the bitmap has blocks; the map's file then lies in formerly free, distinct sectors, its inode in sector 0, and its content says which sectors are used, its own blocks included |
| Inodes.MaskedContent | file-system/filesys/free-map.c:27-50 | a file with no block in the free map's file reads the same whatever that file holds |
| InodeMap.ExtendedLength | file-system/filesys/inode.c:135-146 | growing never shrinks, ends at the requested length or at a sector multiple below it, keeps blocks = length in sectors rounded up and stays inside the 188, 64 and 256 entry tables |
| InodeMap.GrownUsed | file-system/filesys/inode.c:103-146 | after any number of appends the marked sectors are the old ones and exactly those the appends took, which were free |
| InodeMap.GrownDistinct | file-system/filesys/inode.c:103-146 | no sector is taken by two different appends |
| InodeMap.ExtendedDirect | file-system/filesys/inode.c:135-146 | within the direct range growing keeps every old block's number and bytes and adds zeroed, distinct, formerly free blocks, marking exactly those |
| InodeMap.ExtendedDirectInode | file-system/filesys/inode.c:135-146 | the grown block map is still injective and lies in marked sectors |
| InodeMap.NeedsIndexIff | file-system/filesys/inode.c:115-118 | C's truncating division asks for an index sector exactly at the first block of a group other than the first |
| InodeMap.AppendedIndexOk | file-system/filesys/inode.c:114-131 | each append keeps the index sectors in use marked and pairwise different, and moves none |
| InodeMap.GrownIndexOk | file-system/filesys/inode.c:135-146 | so does any number of appends, up to 8 MiB |
| InodeMap.IndexOwnedIff | file-system/filesys/inode.c:114-120 | every group in use has an index sector other than the free map's inode exactly when the file stays within the direct range |
| InodeMap.FailedKeepsMap | file-system/filesys/inode.c:118-127 | a failed append leaves the length, the free map and the sector of every block as they were |
| IndexSectors.AppendedEntries | file-system/filesys/inode.c:121-129 | one append's effect on the number read for every block: the new one reads as written, its predecessor in the group loses its high byte, all others stay |
| IndexSectors.GrownEntry | file-system/filesys/inode.c:65-73 | after any run of appends, what each appended block's number reads as |
| IndexSectors.IndexReadBackIff | file-system/filesys/inode.c:65-73 | a block past the direct range reads back as the sector appended exactly when it is the last of all or of its group, or its high byte is its successor's low byte |
| IndexSectors.GrowKeepsMapIff | file-system/filesys/inode.c:135-146 | up to 8 MiB, growing a file by any number of appends keeps the sector number of every block it had exactly when the last block's index entry is not half overwritten by the first new one |
| IndexSectors.IndexReadBackFails | file-system/filesys/inode.c:121-129 | a concrete pair of appends after which block 188 does not read back |
| FileContent.GrownBytes | file-system/filesys/inode.c:88-146 | within the direct range growing keeps every byte of the old blocks and every byte of the new ones is zero |
| FileContent.GapIsZeroIff | file-system/filesys/inode.c:135-146 | within the direct range growth extends the contents by zeros exactly when the old last sector is zero past the old end |
| FileContent.GrownCleanTail | file-system/filesys/inode.c:135-146 | that condition is kept by growing |
| FileContent.StoredContent | file-system/filesys/inode.c:356-379 | storing bytes through the block map is assignment to a range of the contents, and keeps the tail zero |
| FileContent.WriteRefines | file-system/filesys/inode.c:342-383 | within the direct range inode_write_at is the byte-sequence operation, with no further condition: range replaced, gap filled with zeros, rest kept |
| FileContent.WriteFrame | file-system/filesys/inode.c:342-383 | every marked sector that is not one of the file's blocks, nor of the free map's file, stays marked with its bytes unchanged |
| FileContent.DirectIsMapped | file-system/filesys/inode.c:55-74 | up to 188 sectors a block map is true exactly when its direct entries are marked and different |
| IndexedFiles.MapTrueIff | file-system/filesys/inode.c:65-73 | growth of any length leaves every old block at its sector and every new one at the sector allocated for it exactly when each sector's low byte is its predecessor's high byte, from block 189 on and new index sectors apart |
| IndexedFiles.ThreeInARowIff | file-system/filesys/inode.c:121-129 | three consecutive sectors appended to one index sector stay readable exactly when they start at 255 |
| IndexedFiles.TameGrows | file-system/filesys/inode.c:103-146 | such growth keeps every old block and its bytes and adds zero blocks of the file's own; other marked sectors change only if they are its index sectors |
| IndexedFiles.ExtendedGrows | file-system/filesys/inode.c:135-146 | so does extend_disk, also when it stops early |
| IndexedFiles.DirectStaysTrue | file-system/filesys/inode.c:110-131 | up to 189 sectors the condition holds whatever the free map hands out |
| IndexedFiles.TameWriteRefines | file-system/filesys/inode.c:342-383 | under the condition inode_write_at on a file of any length is the byte-sequence write, and the file can be written again |
| IndexedFiles.TameWriteFrame | file-system/filesys/inode.c:342-383 | and leaves every marked sector alone that is neither a block nor an index sector of the file |
| IndexedFiles.LogIsDetermined | file-system/filesys/inode.c:103-146 | with no allocation in between, the sectors a growth takes are determined by the free map it starts from |
| SharedIndex.FirstGroupIsShared | file-system/filesys/inode.c:67-73 | blocks 188 to 443 read as the same sectors in every file that has them |
| SharedIndex.OtherFileIff | file-system/filesys/inode.c:342-383 | a write that keeps its own block map true leaves another file's block map alone exactly when not both files are longer than 188 sectors afterwards, and then the other's contents too |
| InodeCodec.DecodeEncode | file-system/filesys/inode.c:25-33 | the 512-byte on-disk inode decodes to the inode encoded |
| InodeCodec.InodeLayout | file-system/filesys/inode.c:27-33 | length, magic number, direct and indirect numbers each lie little-endian at their place in the sector |
| Inodes.DiskInode.Load | file-system/filesys/inode.c:222-230 | the in-memory inode is the decoding of its sector |
| Inodes.FileSystem.ByteToSectorDisk | file-system/filesys/inode.c:55-74 | -1 at and past the end, otherwise the block's number: the direct entry, or the two bytes at the group offset of the index sector |
| Inodes.FileSystem.AllocateShort | file-system/filesys/inode.c:88-101 | it succeeds exactly when the free map can be saved and some unused sector's number fits 16 bits; then such a sector is marked and zeroed and one less is left, otherwise nothing changes |
| Inodes.FileSystem.AppendSector | file-system/filesys/inode.c:103-133 | all or nothing over the full 8 MiB range; it succeeds exactly when the file has fewer than 16384 blocks, the free map can be saved and one unused 16-bit sector is left, two when the block is the first of a group other than the first, and takes exactly that many |
| Inodes.FileSystem.ExtendDisk | file-system/filesys/inode.c:135-146 | the loop ends with the specified growth, at the requested length exactly when that is at most 8 MiB and no new block is needed or the unused 16-bit sectors cover all new blocks and index sectors; short of it, at the last block they cover |
| Space.NoneFits | file-system/filesys/inode.c:91-97 | if the first unused sector does not fit 16 bits, none does, so giving up on it is right |
| Space.GrownSoFar | file-system/filesys/inode.c:135-146 | the loop's end, in its last sector or where the next block cannot be paid for, is the length the count of sectors gives |
| Space.GrowthIsDetermined | file-system/filesys/inode.c:135-146 | the length growth ends with is determined by the old length, the length asked for, the number of unused 16-bit sectors and whether the free map can be saved |
| Inodes.FileSystem.ReleaseBlocks | file-system/filesys/inode.c:183-187 | for a true block map of any length the assertion in free_map_release never fails, and exactly the file's blocks become free |
| Inodes.FileSystem.InodeCreate | file-system/filesys/inode.c:169-194 | it succeeds exactly when there is memory and the length fits what is left (`Space.HasRoom`); then the inode written is the specified growth of an empty one, up to 188 sectors into zeroed fresh blocks; on failure exactly the index sectors taken stay marked, so up to 188 sectors the free map is back as it was |
| Inodes.FileSystem.InodeReadAt | file-system/filesys/inode.c:299-334 | exactly the bytes of the contents from offset up to size or the end, the rest of the buffer untouched |
| Inodes.FileSystem.InodeWriteAt | file-system/filesys/inode.c:341-383 | nothing when writes are denied; otherwise all data is stored exactly when the file need not grow or what is left suffices (`Space.HasRoom`), any shorter count is fixed by the sectors left, a read of the range gives back the data, and on a file with a clean tail it is the byte-sequence write; for growth that keeps the block map true |
| InodeTables.InodeTable.InodeOpen | file-system/filesys/inode.c:199-231 | an open sector gives the same inode with one more opener, otherwise a new one loaded from disk |
| InodeTables.InodeTable.InodeRemove | file-system/filesys/inode.c:287-294 | the inode is marked for deletion |
| InodeTables.InodeTable.InodeClose | file-system/filesys/inode.c:255-283 | the last close takes the inode off the list and, if removed, frees its sector and exactly its blocks; any other close changes only the count |
| InodeTables.CloseLeavesNothingIff | file-system/filesys/inode.c:270-276 | after it the inode's sector and every block are free, and every sector the file took exactly when it had at most 444 blocks |
| Inodes.CreateLeavesNothingIff | file-system/filesys/inode.c:183-188 | a failed create gives back every sector it took exactly when it got no further than 444 sectors |
| LongFile.GrowsTamely | file-system/filesys/inode.c:103-146 | a volume on which growth to 446 sectors keeps the block map true and stops at 445, the first to take an index sector |
| LongFile.FailedCreateLeaks | file-system/filesys/inode.c:183-188 | a create of 446 sectors on it fails and leaves sector 40000 marked |
| LongFile.RemovalLeaks | file-system/filesys/inode.c:270-276 | so does the last close of a removed file of 445 sectors made on it |
| FileRuns.OwnershipIsDisjoint | file-system/filesys/inode.c:103-146 | between whole operations on files of up to 188 sectors all blocks and inode sectors of all files are marked and pairwise different, and each block map is injective |
| FileRuns.LiveIsReleasable | file-system/filesys/free-map.c:44-50 | hence every sector a final close or failed create frees is marked and freed once, and every file can be written |
| FileRuns.LiveIsOffMap | file-system/filesys/free-map.c:27-50 | and none of its sectors is the free map's inode sector or a block of its file |
| FileRuns.StepKeeps | file-system/filesys/inode.c:169-383 | one operation at a time on files of up to 188 sectors, every operation keeps ownership disjoint and every other file's contents; the free map's own file is not one of these files |
| FileRuns.CloseReleases | file-system/filesys/inode.c:262-280 | the last close of a removed file of up to 188 sectors frees its sectors and leaves all other files alone, the free map's own file aside |
| FileRuns.CloseForgets | file-system/filesys/inode.c:262-280 | the last close of a kept file leaves its first bytes, up to the length its sector says |
| FileRuns.RunsKeepOwnership | file-system/filesys/inode.c:169-383 | over every run of whole operations there is an assignment of sectors to owners that satisfies the invariant |
| FileRuns.RunsRefineFiles | file-system/filesys/inode.c:169-383 | over every run of whole operations on files of up to 188 sectors: a write to a file not reopened after lost growth is the byte-sequence write; a write stores all its data, and a creation with memory succeeds, exactly when the unused 16-bit sectors suffice; no operation changes another file, the free map's own file aside |
| FileRuns.RunsCountOpeners | file-system/filesys/inode.c:199-283 | over every run of whole operations open_cnt is the number of opens less the number of closes |
| FileRuns.LastCloseReleases | file-system/filesys/inode.c:255-293 | over every run a file goes away exactly when its only opener closes it after an inode_remove since it was opened |
| FileSteps.StepKeeps | file-system/filesys/inode.c:88-383 | with any number of threads, each allocation, release and cache access a step of its own, every step of every operation keeps each sector in use with one owner and each file showing the bytes recorded for it |
| FileInterleavings.RunsKeepInv | file-system/filesys/inode.c:88-383 | so does every interleaving of any length, against the replay of the operations completed so far |
| FileInterleavings.OneRoleEach | file-system/filesys/inode.c:88-146 | in every interleaving each sector that is an inode, a block, just allocated or still to be given back is marked and has no other role |
| FileInterleavings.ReleasesAreMarked | file-system/filesys/free-map.c:44-50 | in every interleaving the assertion in free_map_release holds |
| FileInterleavings.ContentsAreRecorded | file-system/filesys/inode.c:341-383 | in every interleaving a file nobody is working on that has not lost growth has the contents its completed creation and writes give as operations on byte sequences, whatever other threads did to other files |
| FileInterleavings.ReadsSeeLastWrites | file-system/filesys/inode.c:299-383 | in every interleaving a read delivers all recorded bytes from offset up to size or the end, and a write stores all that fits the new length, which is no shorter |
| FileInterleavings.AccessesApart | file-system/filesys/cache.c:71-96 | in every interleaving no two threads are about to access one sector through the cache, two opens of one inode apart, as the cache needs of its callers |
| FileProgress.NobodyIsStuck | file-system/filesys/inode.c:88-383 | in every interleaving a thread inside an operation can go on, whatever the others are doing |
| FileProgress.TakesIff | file-system/filesys/inode.c:88-101 | a growing thread's next step gives it a sector exactly when the free map can be saved and an unused sector fits 16 bits |
| FileProgress.RoomMeansWhole | file-system/filesys/inode.c:169-383 | in every interleaving in which such a sector is always left, no creation fails and every write stores all its data |
| FileProgress.CompletesWhatWasBegun | file-system/filesys/inode.c:169-383 | in every interleaving what a creation, write or read reports is about the inode, offset, size and data of the call its thread began and has been in since |
| FileProgress.RunsCountOpeners | file-system/filesys/inode.c:199-283 | in every interleaving open_cnt is the number of opens less the number of closes |
| FileProgress.LastCloseReleases | file-system/filesys/inode.c:255-283 | in every interleaving a file goes away exactly when its only opener closes it and it has been removed |
| FileConservation.SectorsAreConserved | file-system/filesys/inode.c:88-383 | in every interleaving a sector is marked exactly when it has a role (inode, block, in a thread's hands, still to be given back) or was a block in memory only that a last close forgot, and never both |
| FileConservation.NoneLostIff | file-system/filesys/inode.c:255-283 | in every interleaving every marked sector has a role exactly as long as no last close has forgotten a block |
| LostGrowth.GrowthIsLost | file-system/filesys/inode.c:255-283 | an empty file made, opened, written one byte and closed leaves its block marked with no role |
| MapSaves.FileIsRight | file-system/filesys/free-map.c:27-50 | whatever the order in which threads flip bits and write the map's file, once none is in between every block of the file is the bitmap's |
| StaleGap.GapShowsOldByte | file-system/filesys/inode.c:262-280 | a six-step run in which the gap of a write shows an old byte |
| Donation.GetPriority | priority-scheduler/threads/thread.c:90-120 | on every wait-for graph without a cycle through the thread, the worklist search ends with the largest base priority of the thread and all that wait for it through any number of locks |
| Donation.WaiterIsNew | priority-scheduler/threads/thread.c:106-115 | a waiter about to be pushed is not on the list and was never there, so its one list element is free |
| Donation.PushWaiters | priority-scheduler/threads/thread.c:106-115 | the nested loops push each waiter of each held lock once |
| Donation.EffectiveIsUnique | priority-scheduler/threads/thread.c:90-120 | the effective priority is a function of the graph |
| Donation.DonorsAreLower | priority-scheduler/threads/thread.c:90-120 | a thread that waits for another, however indirectly, has no higher effective priority |
| Donation.WithoutKeeps | priority-scheduler/threads/thread.c:659-668 | freeing a thread with no locks changes no other thread's donors or effective priority |
| Donation.NewcomerPriority | priority-scheduler/threads/thread.c:90-120 | a thread that holds no lock has its base priority as effective priority |
| Scheduler.TailKeeps | priority-scheduler/threads/thread.c:641-692 | after a switch the queues match the states again and exactly the chosen thread runs |
| Scheduler.UnblockKeeps | priority-scheduler/threads/thread.c:344-356 | the blocked thread joins the ready list once, and queues and states still match |
| Scheduler.YieldingKeeps | priority-scheduler/threads/thread.c:415-429 | the yielding thread is ready, and on the list unless it is the idle thread |
| Scheduler.BlockingKeeps | priority-scheduler/threads/thread.c:326-334 | a thread that blocks, waiting on a lock or not, is on no queue of runnable threads |
| Scheduler.ExitingKeeps | priority-scheduler/threads/thread.c:393-411 | a dying thread leaves the list of all threads and every other queue stays right |
| Scheduler.CreatedKeeps | priority-scheduler/threads/thread.c:568-593 | a new thread is blocked, on the list of all threads only, and disturbs no queue and no other thread's effective priority |
| Scheduler.SleepingKeeps | priority-scheduler/devices/timer.c:105-118 | a thread going to sleep is blocked, on the sleep list only |
| Scheduler.InsertKeepsOrder | priority-scheduler/devices/timer.c:94-115 | ordered insertion keeps the sleep list sorted by deadline, with the new sleeper added once |
| Scheduler.DueIsAll | priority-scheduler/devices/timer.c:197-205 | on the sorted list the early exit misses nobody: a sleeper is in the prefix that wakes exactly when its deadline has come |
| Scheduler.InterruptWakesDue | priority-scheduler/devices/timer.c:191-206 | one interrupt wakes exactly the sleepers whose deadline is at most the new tick count |
| Scheduler.InterruptKeepsValid | priority-scheduler/devices/timer.c:191-206 | and keeps queues and states matching |
| Scheduler.WakesOnTime | priority-scheduler/devices/timer.c:191-206 | over consecutive interrupts a sleeper sleeps on until the first whose tick reaches its deadline, and no longer |
| Kernels.Kernel.NextThreadToRun | priority-scheduler/threads/thread.c:613-623 | the idle thread if nothing is ready, otherwise a thread no ready thread outranks, taken off the list |
| Kernels.Kernel.Schedule | priority-scheduler/threads/thread.c:678-692 | the whole new state after a switch: chosen thread running, a dying predecessor freed, a new time slice |
| Kernels.Kernel.ThreadUnblock | priority-scheduler/threads/thread.c:344-356 | the state is the specified one and valid |
| Kernels.Kernel.ThreadYield | priority-scheduler/threads/thread.c:415-429 | yielding and switching give the specified state; the caller is ready unless it runs on, and no thread, priority or wait changes |
| Kernels.Kernel.ThreadBlock | priority-scheduler/threads/thread.c:326-334 | blocking and switching give the specified state; unless it is the idle thread, the caller is blocked and another thread runs |
| Kernels.Kernel.ThreadExit | priority-scheduler/threads/thread.c:393-411 | another thread runs, the caller is off the list of all threads, and its struct is freed exactly if it is not the initial thread |
| Kernels.Kernel.ThreadCreate | priority-scheduler/threads/thread.c:276-318 | creation, unblocking and the yield give the specified state, in which the new thread may already run; its base and effective priority are the argument |
| Kernels.Kernel.ThreadSetPriority | priority-scheduler/threads/thread.c:449-455 | the caller's base priority becomes the argument, nothing else in the wait-for graph changes, and the processor goes to a thread of the highest effective priority |
| Kernels.Kernel.TimerSleep | priority-scheduler/devices/timer.c:105-118 | the caller joins the sleep list with the tick count plus n as its deadline, no other sleeper's changes, and another thread runs |
| Kernels.Kernel.TimerInterrupt | priority-scheduler/devices/timer.c:191-206 | ticks advance, exactly the due sleepers are unblocked, and the time slice is over from the fourth tick without a switch |
| Kernels.Kernel.BecomeIdle | priority-scheduler/threads/thread.c:505-532 | the running thread becomes the idle thread and nothing else changes |
| Kernels.MostUrgent | priority-scheduler/threads/thread.c:122-128 | the maximum by lower_priority: no ready thread has a higher priority in either mode |
| Kernels.InsertionPoint | priority-scheduler/devices/timer.c:94-101 | the scan of list_insert_ordered stops before the first strictly later sleeper |
| Kernels.IdleOnlyWhenNothingReady | priority-scheduler/threads/thread.c:613-623 | the idle thread is chosen exactly when the ready list is empty |
| Kernels.ChosenOutranks | priority-scheduler/threads/thread.c:613-692 | the chosen thread's effective priority is at least that of every thread whose chain of lock holders ends in a ready thread |
| Kernels.ChosenIsHighest | priority-scheduler/threads/thread.c:613-692 | in feedback-queue mode no ready thread has a higher priority than the chosen one |
| ThreadRuns.RunsStayGood | priority-scheduler/threads/thread.c:326-429 | over every run of create, block, unblock, yield, exit, sleep and tick the queues match the states |
| ThreadRuns.QueuesMatchStates | priority-scheduler/threads/thread.c:326-429 | in every reachable state exactly one thread runs, the ready list holds exactly the ready threads once each (the idle thread excepted), sleepers and lock waiters are blocked and on one list only, and the list of all threads holds exactly those not dying |
| ThreadRuns.SchedulingHonoursDonation | priority-scheduler/threads/thread.c:613-692 | at every switch of every run the chosen thread outranks all ready threads and their donors, and idle runs only when nothing is ready |
| ThreadRuns.SchedulingHonoursPriorities | priority-scheduler/threads/thread.c:613-692 | in feedback-queue mode, with priorities recomputed at any time, nothing ready has a higher priority than the thread chosen |
| ThreadRuns.SleepersWakeOnTime | priority-scheduler/devices/timer.c:105-206 | over every run, whatever is created, blocked, yielded or put to sleep meanwhile, a sleeper stays asleep with its deadline unchanged up to the first interrupt that reaches it, which makes it ready |
| ThreadRuns.AsleepUntilDeadline | priority-scheduler/devices/timer.c:105-206 | with its deadline in the future, it is asleep exactly while the clock is below it |
| ThreadRuns.SleepLastsUntil | priority-scheduler/devices/timer.c:105-206 | over every run: a thread put to sleep until d is asleep up to the first later interrupt that takes the clock to d or beyond, which makes it ready |
| ThreadRuns.BlockedUntilUnblocked | priority-scheduler/threads/thread.c:326-356 | over every run: a thread that blocks, the idle thread aside, stays blocked up to the first thread_unblock of it, which makes it ready |
| ThreadRuns.NoneDying | priority-scheduler/threads/thread.c:641-668 | in every state of every run no thread but the initial one is dying |
| ReadyCounts.CountIsRunnable | priority-scheduler/threads/thread.c:182-187 | in every state of every run the number update_load_avg counts is the number of threads, idle aside, that run or are ready |
| FixedPoint.Wrap32Exact | priority-scheduler/lib/kernel/fixed-point.c:6-77 | 32-bit wrap-around is invisible exactly on values that fit |
| FixedPoint.QuotMonotone | priority-scheduler/lib/kernel/fixed-point.c:10-12 | C's truncating division is monotone |
| FixedPoint.RoundIsNearest | priority-scheduler/lib/kernel/fixed-point.c:14-17 | fxp_round is within half a unit |
| FixedPoint.HundredfoldIff | priority-scheduler/lib/kernel/fixed-point.c:14-17 | a hundred times a value is rounded to the nearest integer exactly when the product, half a unit added away from zero, fits 32 bits |
| Mlfqs.LoadStep | priority-scheduler/threads/thread.c:182-192 | one update keeps the load average at most the exact recurrence 59/60 L + r/60 and at most (56N + 120) raw units below it, within [0, N] |
| Mlfqs.LoadStepExact | priority-scheduler/threads/thread.c:182-192 | no intermediate of the update overflows, and it is 16110 L / 2^14 + 2^14 r / 60 with both divisions rounding down |
| Mlfqs.DecayBound | priority-scheduler/threads/thread.c:196-203 | the decay factor 2L/(2L+1) is below 1 and at most 2N/(2N+1), without overflow |
| Mlfqs.RecentCpuStep | priority-scheduler/threads/thread.c:195-204 | decay and nice leave recent_cpu within its bound, and no intermediate wraps |
| Mlfqs.PriorityExact | priority-scheduler/threads/thread.c:207-220 | the priority computed in 32 bits is the clamped formula over the integers |
| Mlfqs.PriorityAntitone | priority-scheduler/threads/thread.c:207-220 | more recent CPU or nice never gives a higher priority, and it lies in [0, 63] |
| Mlfqs.PriorityNearFormula | priority-scheduler/threads/thread.c:207-220 | a priority up to three ticks old is within 1 of the clamped formula on current values |
| Mlfqs.TickKeeps | priority-scheduler/threads/thread.c:239-250 | a tick, with charge, decay each second and recomputation each fourth tick, keeps every bound |
| Mlfqs.StepKeeps | priority-scheduler/threads/thread.c:466-593 | so do set_nice, creation with inherited values, and exit |
| Mlfqs.RunsStayBounded | priority-scheduler/threads/thread.c:182-250 | hence over every run with at most N up to 3275 runnable threads |
| Mlfqs.RunsAreAccurate | priority-scheduler/threads/thread.c:182-250 | in every reachable state the load average is within its error of the exact recurrence, recent_cpu is at most (2N + 1)(20 2^14 + 100) raw units in size and every priority is in range and within 1 of its formula |
| Mlfqs.RunTicksExactly | priority-scheduler/threads/thread.c:182-250 | in every run, what a tick makes of the load average and of each thread's nice, recent_cpu and priority is the formula over the integers, charge first, then decay, then priority |
| Mlfqs.Scheduler.ThreadTick | priority-scheduler/threads/thread.c:239-250 | the code's tick is the specified one; the load average changes only each second, from the ready list's size and one more unless the idle thread runs; without decay the running thread's recent_cpu is one raw unit higher and every other as it was |
| Mlfqs.Scheduler.UpdateRecentCpu | priority-scheduler/threads/thread.c:434-446 | the loop over all threads decays each once |
| Mlfqs.Scheduler.UpdatePriorities | priority-scheduler/threads/thread.c:434-446 | the loop over all threads recomputes each priority once |
| Mlfqs.Scheduler.SetNice | priority-scheduler/threads/thread.c:465-473 | nice changes for one thread, whose priority becomes the formula on it; its recent_cpu and all other threads stay |
| Mlfqs.Scheduler.Create | priority-scheduler/threads/thread.c:568-593 | the child starts with its parent's nice and recent_cpu and the priority they give |
| Mlfqs.Scheduler.GetLoadAvg | priority-scheduler/threads/thread.c:482-487 | a hundred times the load average, to the nearest integer exactly when that product with its rounding fits 32 bits |
| Mlfqs.Scheduler.GetRecentCpu | priority-scheduler/threads/thread.c:489-494 | the same for the running thread's recent_cpu, of either sign |
| MlfqsReports.LoadReportedIff | priority-scheduler/threads/thread.c:482-487 | every load average of every run with at most N runnable threads is reported to the nearest integer exactly up to N = 1315 |
| MlfqsReports.LoadMisreported | priority-scheduler/threads/thread.c:482-487 | with 1316 threads runnable throughout, a run on which the load average grows until it is misreported |
| MlfqsReports.CpuReportedIff | priority-scheduler/threads/thread.c:489-494 | every recent_cpu of every run with at most N runnable threads is reported to the nearest integer exactly up to N = 32 |
| MlfqsReports.CpuMisreported | priority-scheduler/threads/thread.c:489-494 | with 33 threads runnable throughout, a run on which the recent_cpu of one of nice 20 grows until it is misreported |
| Calibrate.OrIsAddition | priority-scheduler/devices/timer.c:69-71 | or-ing a bit into a number whose lower bits are clear adds it |
| Calibrate.LargestPower | priority-scheduler/devices/timer.c:59-65 | the first loop finds the largest power of two within the limit, and its assertion fails exactly for limits of 2^31 and more |
| Calibrate.RefineLoops | priority-scheduler/devices/timer.c:67-71 | the second loop ends within high_bit / 2^9 below the limit with all lower bits clear |
| Calibrate.TimerCalibrate | priority-scheduler/devices/timer.c:51-74 | loops_per_tick is the limit cut to its ten leading bits: at most the limit, less than high_bit / 2^9 below it |
| ArgStack.SpansAreMaximalRuns | user-programs/userprog/process.c:332-340 | the tokens' spans are exactly the maximal runs of non-space characters, in order |
| ArgStack.WordsAreSpans | user-programs/userprog/process.c:332-340 | the tokens are the text of those spans |
| ArgStack.Tokenise | user-programs/userprog/process.c:332-340 | the loop yields the words of the line, up to the size of its token table |
| ArgStack.SetupStack | user-programs/userprog/process.c:574-607 | success exactly when the words, a NUL and a pointer for each, padding to 4 and four more words fit the page; then esp and the whole page are the specified image, from which argc and argv read back as the words |
| ArgStack.ImageSizeIs | user-programs/userprog/process.c:574-607 | the image takes the words and their NULs rounded up to 4, a pointer for each and 16 bytes |
| ArgStack.StackRoundTrip | user-programs/userprog/process.c:574-607 | decoding argc, argv, the pointers and the strings from the page gives back the tokens, argv[argc] is 0 and esp is a multiple of 4 |
| ArgStack.CommandLineRoundTrip | user-programs/userprog/process.c:324-340 | for every command line whose image fits, the program sees exactly its words, and the token table was large enough |
| Segments.AcceptedHeader | user-programs/userprog/process.c:404-423 | every accepted header gives page-aligned arguments that meet load_segment's assertions and a range inside user space that is the segment rounded out to pages, without unsigned overflow |
| Segments.NoWrapAround | user-programs/userprog/process.c:477-487 | the three range checks together rule out wrap-around |
| Segments.ValidateSegment | user-programs/userprog/process.c:457-499 | the eight tests accept exactly the headers with offset and address equal modulo 4096, offset within the file, 0 < memsz, filesz <= memsz, and the segment from page 1 on ending below PHYS_BASE, in integers that do not wrap |
| Segments.LoadPhdr | user-programs/userprog/process.c:398-432 | a PT_LOAD header is loaded exactly when it is acceptable, the file has the bytes it promises, frames suffice for its pages and none of them is taken; then memory shows the file's bytes and zeros after them |
| Segments.AddressSpace.InstallPage | user-programs/userprog/process.c:632-641 | the page is mapped exactly when it was free and a page table can be had |
| Segments.AddressSpace.LoadSegment | user-programs/userprog/process.c:515-559 | the loop ends without underflow; it succeeds exactly when frames, file bytes and pages suffice, and then exactly (read + zero) / 4096 new pages hold the file's bytes and zeros |
| Segments.RegionByte | user-programs/userprog/process.c:501-513 | byte k of the region is file byte ofs + k below read_bytes and zero above |
| Segments.ElfImage | user-programs/userprog/process.c:401-427 | for every accepted header each byte of the segment in memory is the file's byte or, past p_filesz, zero, with the header's write permission |
| PageDir.PokeIsLocal | virtual-memory/userprog/pagedir.c:63-68 | a store to one entry is seen for that page of that directory and for no other |
| PageDir.AddTableMapsNothing | virtual-memory/userprog/pagedir.c:51-60 | a new table makes no page present in any directory |
| PageDir.SetPageRefines | virtual-memory/userprog/pagedir.c:89-116 | adds exactly one page to exactly one directory's map, with clear bits |
| PageDir.ClearPageRefines | virtual-memory/userprog/pagedir.c:157-172 | removes exactly that page and keeps the entry's other bits |
| PageDir.StepKeeps | virtual-memory/userprog/pagedir.c:16-278 | every operation, user access and TLB fill or loss keeps each TLB entry in agreement with a present entry of the directory last switched to, and the tables in agreement with the history |
| PageDir.RunsRefineMaps | virtual-memory/userprog/pagedir.c:89-278 | over every run the directory last switched to is the active one; the directories are the partial maps their set, clear and destroy calls make; a user access through the TLB reaches the frame last set there, and can store only if it was set writable; a page is dirty exactly if written since its bit was last cleared or set by hand, and accessed exactly if marked so since, which every used page is |
| PageDir.SetPageIsUsable | virtual-memory/userprog/pagedir.c:88-278 | from every state of every run: setting an unmapped page, activating its directory, loading its TLB entry and storing is a run, the store goes to the frame set, and the page reads as dirty and accessed |
| PageDir.RunsLoseNoTable | virtual-memory/userprog/pagedir.c:25-86 | over every run each page table belongs to a directory that exists |
| PageDir.Paging.PagedirCreate | virtual-memory/userprog/pagedir.c:16-23 | the new directory maps no user page, or there is none |
| PageDir.Paging.PagedirDestroy | virtual-memory/userprog/pagedir.c:27-48 | the loop frees exactly the directory's tables, and every other directory reads as before |
| PageDir.Paging.LookupPage | virtual-memory/userprog/pagedir.c:40-69 | finds the page's table, or creates one if asked and able, or changes nothing |
| PageDir.Paging.PagedirSetPage | virtual-memory/userprog/pagedir.c:88-116 | the new state is the specified one: the entry names the frame, present, with the write permission given and clear bits |
| PageDir.Paging.PagedirGetPage | virtual-memory/userprog/pagedir.c:138-150 | the frame the partial map gives, or none; nothing changes |
| PageDir.Paging.PagedirClearPage | virtual-memory/userprog/pagedir.c:156-172 | the new state is the specified one: the page is not mapped, and the TLB is flushed if the directory is active |
| PageDir.Paging.PagedirIsDirty | virtual-memory/userprog/pagedir.c:178-183 | the entry's dirty bit, false without an entry |
| PageDir.Paging.PagedirSetDirty | virtual-memory/userprog/pagedir.c:187-201 | the bit reads as set from then on, false without an entry; nothing else of the entry changes, and clearing flushes the active directory |
| PageDir.Paging.PagedirIsAccessed | virtual-memory/userprog/pagedir.c:207-212 | the entry's accessed bit, false without an entry |
| PageDir.Paging.PagedirSetAccessed | virtual-memory/userprog/pagedir.c:216-230 | the bit reads as set from then on, false without an entry; nothing else of the entry changes, and clearing flushes the active directory |
| PageDir.Paging.PagedirActivate | virtual-memory/userprog/pagedir.c:234-246 | CR3 names the directory and the TLB is empty |
| PageDir.Paging.InvalidatePagedir | virtual-memory/userprog/pagedir.c:269-278 | CR3 stays, and the TLB is emptied exactly if the directory is active |
| MappedPages.MmapKeepsWfIff | virtual-memory/userprog/syscall.c:362-395 | the page list after mmap has one entry a page, all in user space, exactly when the range lies below PHYS_BASE or is empty |
| MappedPages.UnmapAssertsIff | virtual-memory/vm/page.c:114-133 | page_unmap fails the assertion in pagedir_clear_page exactly when the file has a page outside user space |
| MappedPages.MunmapAssertsIff | virtual-memory/userprog/syscall.c:362-405 | munmap right after mmap fails it exactly when the range does not end below PHYS_BASE |
| MappedPages.MmapAtPhysBase | virtual-memory/userprog/syscall.c:362-405 | a one-byte file mapped at 0xC0000000 is accepted, and munmap then fails |
| MappedPages.MmapCountIff | virtual-memory/userprog/syscall.c:371 | all pages of a file are entered exactly up to length 0x7FFFF000; above it the count is negative |
| MappedPages.UnmapOutcomeIs | virtual-memory/vm/page.c:114-133 | with user pages only no assertion fails |
| MappedPages.UnmapOneKeepsWf | virtual-memory/vm/page.c:114-133 | writing back and removing one page keeps the page list sound |
| MappedRuns.UnmapWritesView | virtual-memory/vm/page.c:121-143 | page_unmap ends; the file then holds exactly the promised bytes, no page names it, and all other pages, entries and files are as they were |
| MappedRuns.FetchedByte | virtual-memory/vm/page.c:145-155 | a fault loads the byte the mapping promises, whatever the frame held |
| MappedRuns.StepKeeps | virtual-memory/userprog/syscall.c:362-405 | mmap, failed mmap, faults, stack growth, stores, munmap and writes to other files keep every mapping's promise |
| MappedRuns.RunsShowFiles | virtual-memory/userprog/syscall.c:362-405 | over every run a load from a mapping gives the file's bytes at mmap overlaid with the stores since, and munmap leaves the file with exactly those bytes at the same length |
| MappedStores.StoreReachesFile | virtual-memory/userprog/syscall.c:362-405 | for every file that can be mapped and every byte of it: mapping, faulting the page in, storing one byte and unmapping is a run, which leaves the file with that byte changed and every other file as it was |
| UserMemory.Process.FindUpage | virtual-memory/vm/page.c:55-57 | the first entry for the page |
| UserMemory.Process.FindFile | virtual-memory/vm/page.c:63-65 | the first entry of the file |
| UserMemory.Process.PageSetFile | virtual-memory/vm/page.c:101-112 | a new entry at the end, or none exactly when the page is listed or memory is out |
| UserMemory.Process.PageFetch | virtual-memory/vm/page.c:176-209 | an unlisted page grows the stack exactly if the address is 4 or 32 below the stack pointer or not below it; refusals leave everything alone, resident pages and reads of read-only ones fail an assertion; otherwise the stack grows by a page or the page is loaded from its file and is clean |
| UserMemory.Process.PageWriteData | virtual-memory/vm/page.c:145-155 | the file's part of the page is read over the frame and the page is clean |
| UserMemory.Process.PageRemove | virtual-memory/vm/page.c:114-119 | exactly that entry and its mapping go |
| UserMemory.Process.PageUnmap | virtual-memory/vm/page.c:121-133 | the loop ends in the specified state or at the failed assertion, also when a stale dirty bit makes the write-back fault the page in |
| UserMemory.Process.SysMmap | virtual-memory/userprog/syscall.c:362-395 | it succeeds exactly for an aligned non-null address, a descriptor above 1 of a non-empty file, memory for its pages, and no page of the range listed; every refusal and failure with the state it leaves, pages entered before memory ran out and the count that overflows included |
| UserMemory.Process.SysMunmap | virtual-memory/userprog/syscall.c:397-405 | pages written back and removed and the file closed, or the failed assertion |
| Swap.OutKeeps | virtual-memory/vm/swap.c:77-85 | the slot was not live, lies inside the store and overlaps no live slot, and every saved page is kept |
| Swap.InKeeps | virtual-memory/vm/swap.c:64-74 | the slot holds the page saved in it, and freeing it keeps all others |
| Swap.SlotIff | virtual-memory/vm/swap.c:34-53 | a slot on the device is found exactly while fewer than its size / 8 are occupied, and there is none exactly when the occupied slots fill it |
| Swap.SwapTable.GetSlot | virtual-memory/vm/swap.c:34-53 | one call at a time: the oldest free slot, or the next eight sectors, or none, exactly when the occupied slots fill the device |
| Swap.SwapTable.SwapOut | virtual-memory/vm/swap.c:77-85 | one call at a time: the page is saved in a slot that was not live, exactly while fewer than size / 8 are occupied; else there is no slot, or it runs off a device that ends in part of one |
| Swap.SwapTable.SwapIn | virtual-memory/vm/swap.c:64-74 | the page that was saved comes back and its slot is free |
| Swap.RunsStayValid | virtual-memory/vm/swap.c:34-85 | over every run of whole calls occupied and free slots partition the issued ones and every live slot holds its page |
| Swap.SwapInReturnsPage | virtual-memory/vm/swap.c:64-74 | over every run of whole calls a swap_in reads the page last swapped out to that slot |
| Swap.IssuedIsPeak | virtual-memory/vm/swap.c:34-53 | over every run of whole calls next_sector / 8 is the largest number of slots ever occupied at once |
| SwapProtocol.StepKeeps | virtual-memory/vm/swap.c:34-85 | every step of every thread, tests outside the lock, list changes inside it, one sector transferred at a time, keeps the lists a partition of the issued slots and each saved page in its slot |
| SwapProtocol.RunsKeepInv | virtual-memory/vm/swap.c:34-85 | so does every interleaving of any length, against the replay of the pages saved so far |
| SwapProtocol.SlotsStayApart | virtual-memory/vm/swap.c:34-85 | in every interleaving the occupied and free lists partition the issued slots, and no two slots that callers hold or threads work on share a sector |
| SwapProtocol.InReturnsLastOut | virtual-memory/vm/swap.c:64-74 | in every interleaving a swap_in reads the page last swapped out to that slot |
| SwapProgress.RunsKeepLock | virtual-memory/vm/swap.c:34-74 | in every interleaving the table lock is held exactly by the thread between taking and releasing it |
| SwapProgress.NobodyIsStuck | virtual-memory/vm/swap.c:34-85 | in every interleaving a thread inside a call that has not failed can take a step, or the thread whose lock it waits for can, or that one has failed popping an empty list |
| SwapProgress.OutSavesItsPage | virtual-memory/vm/swap.c:77-85 | in every interleaving the page a swap_out reports as saved is the one its thread was called with |
| SwapRaces.RunsPeakIff | virtual-memory/vm/swap.c:34-53 | along any interleaving next_sector / 8 is the peak throughout exactly when no slot is issued while one is free |
| SwapRaces.OutAndInPeakIff | virtual-memory/vm/swap.c:34-74 | a swap_out and a swap_in begun on an idle table keep it in all interleavings exactly when a slot is free or the store is full |
| SwapRaces.FreedBetween | virtual-memory/vm/swap.c:36-43 | otherwise the interleaving in which the swap_in frees its slot between test and lock breaks it |
| SwapRaces.OutsPopIff | virtual-memory/vm/swap.c:36-50 | two swap_outs begun on an idle table can pop an empty list exactly when one slot is free |
| SwapRaces.OutsInsideIff | virtual-memory/vm/swap.c:36-44 | with no slot free on a store of whole slots two swap_outs can write past its end exactly when room for one slot is left |

## Left out

- Inodes.FileSystem.InodeWriteAt: needs growth that keeps the block map true (`StaysTrue`, always so up to 189 sectors), because otherwise the code writes to sectors it did not allocate, other files' or none of the device's; what that does to them is not modelled. `ExtendDisk`, `AppendSector`, `ByteToSectorDisk` and `InodeReadAt` have no such condition.
- Inodes.FileSystem.InodeCreate: the same condition.
- Inodes.FileSystem.ReleaseBlocks: needs a block map that is true, because otherwise the code frees other sectors; so do `InodeCreate` when it fails and `InodeTable.InodeClose`.
- FileRuns.Step: runs stay within the direct range and take one operation at a time; `FileInterleavings` lets operations interleave.
- FileProtocol.Step: stays within the direct range; taken as one step are the scan and flip of the bitmap (lib/kernel/bitmap.c is not part of this model), a cache access, and the search and change of the list of open inodes, for which the code has no lock, so that two threads opening one inode at the same moment are not covered. Whether the free map's file can be written is fixed for a run; denied writes to other files are left out.
- FreeSectors.FreeMap.Allocate: is the bitmap part only; `FreeMapAllocate` has the whole effect.
- Inodes.FileSystem.SaveMap: lib/kernel/bitmap.c and filesys/file.c are not part of this model; the layout of the bitmap's bytes is an assumption, the map's file has the bitmap's length, and on devices of more than 770048 sectors it would leave the direct range.
- Inodes.FileSystem.FreeMapRelease: while the free map has no file yet, which is so only inside `free_map_create`, the code passes a null pointer to bitmap_write; the model writes nothing then.
- free_map_open as code: reading the map back is `BitmapRoundTrip`.
- Durability of grown files across close and reopen: it does not hold (`CloseForgets`).
- BufferCache.Cache.FindCacheEntry: is sequential, so its retry after a lost race is only in `CacheProtocol`; there the copy and its flag updates under the block lock are one step.
- BufferCache.Cache.CacheRead: returns the bytes instead of filling a caller's buffer.
- Starvation of the retries in the cache, and fairness of the scheduler: the progress lemmas say that somebody can take a step, not that everybody ends.
- Directories, path names, file positions and the file-descriptor tables.
- Semaphores, locks and conditions (synch.c is not part of this model): they appear as a change of the wait-for graph that keeps it acyclic and well formed, queues only the running thread and lets a waiter leave before it is unblocked.
- Kernels.Kernel: struct thread is a number with maps for its fields; context switch, stack frames and interrupt levels are not modelled, and which of several equally urgent threads list_pop_max takes is left open.
- Kernels.Kernel.TimerSleep: reads the clock and goes to sleep in one step; the tick that may come in between is covered by the runs, which allow any deadline.
- Kernels.Kernel.ThreadCreate: the page for the thread is always found.
- Timer delays and busy waiting; `too_many_loops` is a threshold test.
- ArgStack.Tokenise: splits a sequence of bytes; the NULs that strtok_r writes into the copy are not modelled. Opening the executable and reading its headers are left out.
- ArgStack.SetupStack: assumes that the page below the stack page is not mapped, so that the unchecked writes below it fault; with a segment there they would change it. The paths on which no frame can be had or install_page fails are left out.
- Segments.AddressSpace.LoadSegment: running out of frames and of page tables are a count and a set of addresses.
- exec, wait, exit, system-call dispatch and checks of user pointers.
- PageDir.Paging: kernel mappings, the copy of the initial directory and the bit layout of table words (pte.h is not part of this model); running out of pages for a table, which panics, is a precondition.
- Frame eviction: the repository says it does not work; mapped pages stay resident and swap is a store of its own.
- UserMemory.Process.PageUnmap: assumes one entry a page and none of the file's pages at address 0, which mmap refuses; what the failed assertion leaves is not stated.
- UserMemory.Process: descriptors are already resolved to files; a file that denies writes, and one written through another descriptor while mapped, are not covered, and all frames taken in one call start with the same bytes.
- Swap.SwapTable.SwapOut: a full store, where the code uses a null pointer, and a slot past the end are outcomes; malloc succeeds. `SwapProtocol` stops at a null pointer, an empty list or the end of the device.
