# WinCache shared-memory caches: model and proofs

WinCache keeps PHP's file, user and session caches in shared memory segments.  Everything in a
segment is addressed by offsets, because each process maps it at an address of its own.  This
project models five layers of it and proves what each promises.

| file | models |
|---|---|
| `Basics.dfy` | what several files use |
| `Layout.dfy`, `Boundary.dfy`, `Segment.dfy` | the first-fit heap of a segment: block layout, boundary tags and free list, and the code that changes them in place |
| `Pool.dfy` | the pools on top of it: size-classed chunks, bump allocation, release in one go |
| `CacheHeader.dfy` | processes racing to create the one shared cache header |
| `Ticks.dfy`, `PathIndex.dfy`, `Chains.dfy` | tick differences, path hashing, and the chained hash table all caches share |
| `ZvCache.dfy`, `ZvRuns.dfy`, `ZvMemory.dfy` | the user and session cache as an expiring map, its scavenger, runs of calls in time, and the memory its entries take and give back |
| `DeepCopy.dfy`, `Copying.dfy`, `CopyIn.dfy`, `CopyOut.dfy`, `HashCompact.dfy` | copying PHP values into the segment and out again, sharing, and the compaction of sparse hash tables |
| `FileIndex.dfy`, `GetEntry.dfy` | the file table and the table of resolved names with their cross links, and the insertion of a file by processes that drop the lock in between |

## How it is modelled

- A locked region is one atomic step.  The heap is an array of 8-byte words (the 64-bit build): the
  segment header takes 6 words, a block header 4, its footer 1.  Splitting therefore needs room for
  a header, a footer and one payload word, which is what the 44-byte minimum comes to.
- `Segment.Valid` relates the words to a ghost sequence of blocks: headers and footers store the
  blocks, the free list visits exactly the free ones in address order, and the counters agree.
- The heap's clients hold ghost blocks beside their addresses, and `Keeps` says that payloads of
  other live blocks do not change.
- Entries of the caches sit in a map from offsets to nodes; the ghost `chains` are the offsets of
  each bucket in chain order.
- Times are instants of an unbounded clock; what the code computes from them goes through 32-bit
  ticks, once for each locked region.
- In a deep copy, memory is a map from addresses, or offsets, to what one allocation holds.  `Means`
  ties a slot to the tree it stands for, its index included, and needs no acyclicity of its own:
  a slot of a cyclic value means nothing.  The copy is a graph copy: `Shape` and `Graph` say where
  every string and table went, and meaning follows by induction on the value.
- The file index is modelled for runs of whole operations, its insertion protocol for interleaved
  steps.  Reading files, resolving paths and checking for changes are oracles given as parameters.

## Where the code does less than its text says

- `wincache_alloc.h:81` says that a block's size includes its header; the code stores the payload
  size alone, and the model follows the code.  The free list is called circular at
  `wincache_alloc.c:722`; it ends with offset 0 at both sides.
- `utils_ticksdiff` is one millisecond short after the counter has rolled over
  (`Ticks.ElapsedAlways` says exactly when).
- The overhead reported by `alloc_getinfo` leaves out the footers (`Segments.Segment.GetInfo`).
- A failed copy of an array keeps the tracker, and sometimes the zval, allocated.  `ZvMemory.ArrayLeak`
  tells from the heap before the copy what would be lost: nothing exactly when zval or tracker is
  refused (`ZvMemory.CopyinZval`, `ZvMemory.CreateData`; a heap that leaks is in
  `ZvMemory.LeakingHeap`).
- When the data area of a table that has entries and is neither packed nor sparse cannot be
  allocated, and only then, the code goes on with a null data area (`CopyIns.CopyIn.CopyData`,
  result `NullData`; an input is in `CopyIns.DataRefused`).
- The marker test by which `free_memory` means to recognise blocks in use is exact where blocks
  start (`Segments.MarkerTest`), but not elsewhere.  A pointer released twice passes it exactly when
  the block went into a free block before it and not into one after it
  (`Segments.Segment.ReleaseTwice`), and so does a payload word of the marker's value
  (`Segments.Segment.MarkerInPayload`).
- `aplist_getentry` recognises the entry it found changed by its add_ticks, and compares with 0 when
  it found none.  It removes another entry exactly when one of the path carries that tick
  (`GetEntry.OnlyTheChangedGoes`; runs are in `GetEntry.TickClash` and `GetEntry.ZeroTick`).  The
  table stays free of duplicates.
- `aplist_fcache_get` returns a file without linking the name to it exactly when the file the name
  had was found changed (`FileIndexes.FileIndex.FcacheGet`).

## Model

| member | source | states |
|---|---|---|
| `Layout.WordsIsCeiling` | wincache_alloc.c:115-120 | A request is rounded up to the next multiple of eight bytes, and by less than eight. |
| `Layout.TakenExact` | wincache_alloc.c:192-261 | The block handed out has exactly the rounded size when the free block is larger by more than an overhead, and otherwise is the whole free block, at most one overhead too large. |
| `Layout.AllocAtSegmented` | wincache_alloc.c:192-261 | Both forms of allocation, split and whole block, leave FIRST, blocks and LAST tiling the segment exactly, no two free blocks adjacent. |
| `Layout.FreeAtSegmented` | wincache_alloc.c:350-445 | A release, in all four coalescing cases, leaves an exact tiling with no two free blocks adjacent. |
| `Layout.MergedNeighbours` | wincache_alloc.c:357-410 | The merged free block takes in exactly the free neighbours, and what is left on both sides of it is not free. |
| `Layout.LayoutUnique` | wincache_alloc.c:192-445 | A segment's layout is determined by its live blocks alone: two tilings of one segment with the same live blocks are equal. |
| `Layout.AllocAtLive` | wincache_alloc.c:200-259 | An allocation adds one block to the live blocks and changes no other; the block is not one of the old live blocks. |
| `Layout.FreeAtLive` | wincache_alloc.c:350-445 | A release takes exactly the released block away from the live blocks. |
| `Layout.Initial` | wincache_alloc.c:715-751 | The layout of a new segment is an exact tiling without live blocks. |
| `Layout.ReleaseUndoesAlloc` | wincache_alloc.c:192-445 | Releasing a block right after allocating it gives back the earlier layout, whether the block had been split off or taken whole. |
| `Layout.StepSegmented` | wincache_alloc.c:78-458 | Each call of the allocator keeps the tiling. |
| `Layout.RunSegmented` | wincache_alloc.c:715-751 | Every state of every run of allocations and valid releases from a new segment is an exact tiling. |
| `Layout.RunReturnsToInitial` | wincache_alloc.c:1485-1531 | Whenever a run has no live block left, the segment is back at its initial layout. |
| `Layout.ReleaseAllInAnyOrder` | wincache_alloc.c:1489-1531 | Releasing all outstanding blocks, in whatever order, leaves one free block of the initial size. |
| `Layout.CountersAfterAlloc` | wincache_alloc.c:225-260 | free_size, freecount and usedcount after the two forms of allocation are those of the new layout. |
| `Layout.CountersAfterFree` | wincache_alloc.c:350-410 | The same after a release, over all coalescing cases. |
| `Layout.Conservation` | wincache_alloc.c:729-751 | Segment size is the segment header, plus one overhead for each used and free block and two more, plus free and used payload. |
| `Boundary.NodesExact` | wincache_alloc.c:160-181 | The free list consists of exactly the blocks that are not in use, FIRST and LAST included. |
| `Boundary.NodesOrdered` | wincache_alloc.c:412-445 | The free list is in address order. |
| `Boundary.NodesAround` | wincache_alloc.c:412-445 | The node list is what lies before a stretch of blocks, what lies in it and what lies after it, and there is a node on each side. |
| `Boundary.NodesAscend` | wincache_alloc.c:412-445 | The nodes nearest to a stretch of blocks lie outside it, the one before it wholly below and the one after it above. |
| `Boundary.Replace` | wincache_alloc.c:192-261 | If memory changes only inside a stretch of blocks and in the two links that point into it, and the new blocks and links are stored there, then headers, footers and list describe the new layout everywhere. |
| `Segments.Segment.constructor` | wincache_alloc.c:715-751 | A new segment holds one free block between FIRST and LAST, its size is free_size, and both cache header slots are 0. |
| `Segments.Segment.FindFit` | wincache_alloc.c:134-188 | The walk over the free list ends at the lowest-addressed block that fits, or at LAST when none does; none of the three tests for a corrupt list fires. |
| `Segments.Segment.AllocateMemory` | wincache_alloc.c:78-283 | Fails exactly when every free block is smaller than the aligned size, and then changes nothing; otherwise it takes the lowest-addressed block that is large enough.  A block larger by more than an overhead is cut into one of exactly the aligned size and a free rest, any other is taken whole; free_size, freecount and usedcount change accordingly.  It never reports a corrupt segment.  Every other live payload keeps its contents. |
| `Segments.Segment.SplitBlock` | wincache_alloc.c:192-230 | The split writes exactly the new layout, list and counters. |
| `Segments.Segment.TakeBlock` | wincache_alloc.c:231-261 | Taking a whole block writes exactly the new layout, list and counters. |
| `Segments.Segment.FreeMemory` | wincache_alloc.c:285-458 | A pointer out of range, or whose marker word does not read used, is refused without a change. A pointer at a used block releases it; free_size, freecount and usedcount change by what the free neighbours tell, and its marker word is afterwards the one StaleMarker tells. |
| `Segments.MarkerTest` | wincache_alloc.c:337-348 | At every offset where a block starts, the marker test is exact: it accepts the used blocks and no others. |
| `Segments.Segment.ReleaseTwice` | wincache_alloc.c:337-405 | A second release of the same pointer is refused, unless the block was merged into the free block before it and not with the one after it; then the test passes although no used block starts there. |
| `Segments.Segment.MarkerInPayload` | wincache_alloc.c:337-348 | The test also accepts a pointer into a live payload that holds the marker value. |
| `Segments.StalePointer` | wincache_alloc.c:337-405 | Three allocations and a release, after which releasing a second block twice gets past the test. |
| `Segments.Segment.ReleaseBlock` | wincache_alloc.c:350-445 | A release leaves the layout with the block merged into its free neighbours; other payloads keep their contents. The old marker word stays exactly when only the left neighbour is free. |
| `Segments.Segment.Coalesce` | wincache_alloc.c:357-445 | The three parts of the release together write the merged block, its footer and its links, and report which sides were merged. |
| `Segments.Segment.MergeNext` | wincache_alloc.c:357-378 | The merge with the next block happens exactly when that block is free. |
| `Segments.Segment.MergePrev` | wincache_alloc.c:380-410 | The merge with the previous block, found through its footer, happens exactly when that block is free, also on top of a merge with the next. |
| `Segments.Segment.LinkAlone` | wincache_alloc.c:412-445 | A block between used neighbours is linked between the right two nodes of the list. |
| `Segments.Segment.WalkToNode` | wincache_alloc.c:417-432 | The forward walk over used blocks ends at the first block after the released one that is not in use; it is free or LAST, so the warning about it is never given. |
| `Segments.Segment.Smalloc` | wincache_alloc.c:1086-1090 | alloc_smalloc returns a new live block, large enough for the request and at most one overhead larger, disjoint from all others, or null exactly when nothing fits; the new layout is that of first fit. |
| `Segments.Segment.Sfree` | wincache_alloc.c:1145-1150 | alloc_sfree of a live block ends that block's life and no other. |
| `Segments.Segment.GetMemorySize` | wincache_alloc.c:460-480 | The size found through a pointer is that of its block. |
| `Segments.Segment.Srealloc` | wincache_alloc.c:520-532 | Reallocation keeps the common prefix, byte for byte, and all other payloads; when it fails nothing has changed. |
| `Segments.Segment.MoveBytes` | wincache_alloc.c:525-531 | The copy and release inside a reallocation move exactly the common bytes. |
| `Segments.Segment.GetInfo` | wincache_alloc.c:1033-1041 | The reported overhead counts block headers but not footers: it is short of the true overhead by one word for each block. |
| `Segments.LowBytesMerged` | wincache_alloc.c:530-530 | A byte count that ends inside a word copies the low bytes of that word. |
| `Segments.LiveDisjoint` | wincache_alloc.c:200-259 | Two live blocks, with their headers and footers, never overlap. |
| `Segments.SmallSegmentNoFit` | wincache_alloc.c:126-131 | The early test against free_size rejects nothing that would fit. |
| `Segments.MergedHolds` | wincache_alloc.c:350-445 | Once the merged block is written, memory describes the released layout. |
| `Segments.SameLive` | wincache_alloc.c:192-445 | Two memories of one size with the same live blocks hold the same layout. |
| `Segments.PayloadWritten` | wincache_alloc.c:200-259 | Writes inside one live payload keep layout, list and all other payloads. |
| `Pools.MPool.Create` | wincache_alloc.c:837-874 | A new pool has no chunk and owns one new block; when it cannot be made the heap is as before. |
| `Pools.MPool.TakeBlocks` | wincache_alloc.c:1231-1254 | A chunk takes a descriptor and a data block, or neither: if the second is refused the first is given back. |
| `Pools.MPool.LinkChunk` | wincache_alloc.c:1256-1282 | The new chunk becomes the last of the list and the current one of its class; the list from foffset to loffset still visits every chunk once. |
| `Pools.MPool.AddChunk` | wincache_alloc.c:1231-1283 | A chunk fails exactly when the heap refuses its descriptor or, after it, its data block, and then neither pool nor heap layout has changed; a new one adds exactly two live blocks. |
| `Pools.MPool.FindChunk` | wincache_alloc.c:1194-1229 | The current chunk of the class is used exactly when it has room; huge requests never reuse one. |
| `Pools.MPool.Serve` | wincache_alloc.c:1289-1293 | The piece handed out is the next unused stretch of its chunk. |
| `Pools.MPool.Ommalloc` | wincache_alloc.c:1168-1314 | Fails exactly when the current chunk of the class has no room and the heap refuses a new one; a request for which the newest chunk of its class has room is served from it, without touching the heap's layout. Heap layout and rooms after it follow from those before. A piece lies inside its chunk and overlaps no earlier piece of the pool; a failure leaves pool and heap layout as before. Only the records of the pool change: earlier pieces and all blocks outside the pool keep their contents. |
| `Pools.RoomsServed` | wincache_alloc.c:1194-1293 | What is left in the current chunk of each class after a request, from what was left before. |
| `Pools.ChunkExact` | wincache_alloc.c:1194-1217 | The size classes and their chunks: up to 128, 256 and 1024 bytes a chunk of 512, 1024 and 4096, room for four requests at least, and beyond that a chunk of the size asked for. |
| `Pools.PiecesKept` | wincache_alloc.c:1168-1314 | Pieces lie outside the records of the pool, so what keeps everything else keeps them. |
| `Pools.MPool.FreeChunks` | wincache_alloc.c:889-908 | The walk frees every chunk once, reading each link before its chunk goes. |
| `Pools.MPool.FreeMpool` | wincache_alloc.c:876-915 | Freeing a pool gives back exactly the blocks created for it. |
| `Pools.PieceAdded` | wincache_alloc.c:1289-1293 | Pieces stay inside their chunks and apart from one another. |
| `Pools.PoolLifetime` | wincache_alloc.c:837-915 | Creating a pool, any requests on it, successful or not, and freeing it leave the heap layout as it was. |
| `CacheHeader.ProcessStepInv` | wincache_alloc.c:950-974 | Each step of alloc_get_cacheheader keeps account of every live block. |
| `CacheHeader.RunInv` | wincache_alloc.c:917-980 | With any number of processes interleaving, live blocks are those of others, those still held, and the one in the slot. |
| `CacheHeader.SlotNeverChanges` | wincache_alloc.c:962-974 | Once set, the slot never changes. |
| `CacheHeader.SameResult` | wincache_alloc.c:950-979 | All processes that get a non-null result get the same offset, at whatever time. |
| `CacheHeader.LateStart` | wincache_alloc.c:950-954 | A process that has not read the slot yet when it is set gets what is in it, even on a full heap. |
| `CacheHeader.NullMeansRefused` | wincache_alloc.c:956-961 | A process gets null only if, after it had found the slot empty, the heap had no block for its request. |
| `CacheHeader.HeaderFits` | wincache_alloc.c:956-974 | The block in the slot is large enough for the header, whichever process put it there. |
| `CacheHeader.NeverStuck` | wincache_alloc.c:950-979 | A process that is not done can always make its next step, and makes five at most. |
| `CacheHeader.OneBlockRemains` | wincache_alloc.c:956-974 | When all have finished exactly one extra block remains allocated, or none and then all got null. |
| `Ticks.ElapsedExact` | wincache_utils.c:440-463 | Below 2^32 ms the computed difference is exact, and one millisecond short after a rollover. |
| `Ticks.ElapsedAlways` | wincache_utils.c:440-463 | For any two instants: the true difference modulo 2^32, less one when the counter reads lower than it did. |
| `Ticks.ElapsedGrows` | wincache_utils.c:440-463 | Below 2^32 ms the computed difference, and its whole seconds, never decrease as time passes. |
| `Ticks.ElapsedOlder` | wincache_utils.c:440-463 | An older stamp never yields a smaller difference. |
| `Ticks.ElapsedRestarts` | wincache_utils.c:440-463 | At 2^32 ms the difference is 0 again: the range above is exact. |
| `PathIndex.Crc32` | wincache_utils.c:168-193 | The loop computes the checksum of the path folded to lower case. |
| `PathIndex.FoldExact` | wincache_utils.c:181-184 | Folding sets the case bit of the 26 capital letters and changes no other byte. |
| `PathIndex.TableWritten` | wincache_utils.c:80-166 | The generated table has the entries 0, 1, 2 and 255 that are written out in the code: nine rounds, not eight. |
| `PathIndex.CrcWritten` | wincache_utils.c:168-193 | The checksum of no byte is 0, that of the letter A, of either case, 0x19635C01. |
| `PathIndex.CrcFolds` | wincache_utils.c:178-188 | Paths equal up to ASCII case have the same checksum. |
| `PathIndex.GetIndex` | wincache_utils.c:200-224 | The bucket of a path: the checksum modulo the number of buckets, 0 for paths over MAX_PATH. |
| `PathIndex.IndexExact` | wincache_utils.c:200-224 | Paths of up to 260 bytes are spread by their checksum, longer ones all go to bucket 0. |
| `PathIndex.SameBucket` | wincache_utils.c:200-224 | Paths equal up to ASCII case share a bucket, over-long ones included. |
| `Chains.ChainTable.constructor` | wincache_zvcache.c:1602-1608 | A new table has empty buckets and no items. |
| `Chains.ChainTable.LastOf` | wincache_zvcache.c:1260-1270 | The walk ends at the last entry of the bucket. |
| `Chains.ChainTable.Add` | wincache_aplist.c:441-483 | The new entry goes to the end of its bucket; links are inverse and itemcount is exact; no other entry's data changes. |
| `Chains.ChainTable.Unlink` | wincache_aplist.c:520-546 | The writes of a removal, in the order of the code, are the unlinking of one node. |
| `Chains.ChainTable.Remove` | wincache_zvcache.c:1292-1337 | The entry leaves its bucket, the order of the others stays, links and itemcount stay exact. |
| `Chains.AddHolds` | wincache_rplist.c:227-269 | Adding keeps every bucket chained and every entry in the bucket of its own data. |
| `Chains.RemoveHolds` | wincache_rplist.c:272-314 | So does removing, wherever in the bucket the entry is. |
| `Chains.BucketIsEnough` | wincache_aplist.c:88-157 | If all wanted entries belong to one bucket and that bucket's chain has none, the whole table has none. |
| `ZvCaches.OneAlive` | wincache_zvcache.c:1057-1084 | At any instant at most one entry of a key is unexpired. |
| `ZvCaches.LookLater` | wincache_zvcache.c:1057-1084 | What lookups show at a later instant follows from what they showed before: nothing stays nothing, a cell with ttl 0 or still young stays, and an older one is gone. |
| `ZvCaches.DeadStaysDead` | wincache_zvcache.c:1061-1075 | An expired entry stays expired as long as its stamp is less than 2^32 ms old. |
| `ZvCaches.AppendLastAlive` | wincache_zvcache.c:1247-1289 | Of the entries of one key in a chain, only the last can be unexpired: adding at the end keeps that. |
| `ZvCaches.HiddenAge` | wincache_zvcache.c:1394-1405 | An entry the scavenger would remove while lookups still show it is exactly its ttl old, in whole seconds. |
| `ZvCaches.StaleExact` | wincache_zvcache.c:1394-1405 | The scavenger's test in true time: a ttl of at least one second, and no use for that many seconds (one millisecond less is counted after a rollover). |
| `ZvCaches.AliveExact` | wincache_zvcache.c:1061-1075 | The test of a lookup in true time: no ttl, or an age below ttl + 1 seconds. |
| `ZvCaches.HolderLess` | wincache_zvcache.c:1057-1084 | When entries have only gone, the entry that shows a key is the one that did, or none. |
| `ZvCaches.VisitedOnce` | wincache_zvcache.c:1360-1378 | From any reachable start, one full round of sweeps visits each bucket exactly once and ends where it began. |
| `ZvCaches.StaysStale` | wincache_zvcache.c:1394-1405 | Once due for the scavenger and unused, an entry stays due. |
| `ZvCaches.ZvCache.constructor` | wincache_zvcache.c:1590-1613 | A new cache is empty. |
| `ZvCaches.ZvCache.Find` | wincache_zvcache.c:1038-1091 | Finds the unexpired entry of a key when there is one. |
| `ZvCaches.ZvCache.AddEntry` | wincache_zvcache.c:1247-1289 | A new entry shows its value, and no other key changes. |
| `ZvCaches.ZvCache.RemoveShown` | wincache_zvcache.c:1292-1337 | Removing the shown entry hides its key, and no other key changes. |
| `ZvCaches.ZvCache.SweepBucket` | wincache_zvcache.c:1380-1407 | A sweep of one bucket removes exactly its stale entries while walking it; the rest keep order and data. |
| `ZvCaches.ZvCache.Scavenge` | wincache_zvcache.c:1340-1413 | Within ten seconds of the last it does nothing; otherwise it removes exactly the entries of the next 16 buckets that are stale, and keeps all others with their data. Of what lookups show it can hide only entries exactly ttl old. |
| `ZvCaches.ZvCache.FullRound` | wincache_zvcache.c:1360-1407 | After ceil(valuecount/16) effective sweeps in a row, from any start, every entry idle for its ttl throughout is gone, and every entry not stale at the end is still there. |
| `ZvCaches.ZvCache.Get` | wincache_zvcache.c:1761-1833 | Returns the value of the expiring map.  Exactly the entry found gets the present instant as its last use and one hit more, in a user cache too; a session entry thereby gets a new age, a user entry keeps its own; all other entries stay as they are. When the process has no memory for its copy it returns that error, and the entry is counted and stamped all the same. |
| `ZvCaches.ZvCache.Exists` | wincache_zvcache.c:2060-2112 | Answers whether the expiring map has the key, and changes nothing. |
| `ZvCaches.ZvCache.Touch` | wincache_zvcache.c:1863-1875 | The entry a set finds is used at that instant; nothing else changes. |
| `ZvCaches.ZvCache.Set` | wincache_zvcache.c:1835-1957 | Set and add against the expiring map: add of a shown key fails without a change; a session write of an equal value keeps the old ttl; a failed set changes no visible value; a successful one shows the new value with the new ttl. It runs out of memory exactly when it has an entry to create and gets no room.  Entry by entry: the one found is used now; when new data is stored the stale ones of the window go, the one found goes, and the new one comes. |
| `ZvCaches.ZvCache.Store` | wincache_zvcache.c:1897-1933 | New data is refused for a key that is too long and for want of memory, and then the entries stay; otherwise it is installed. |
| `ZvCaches.ZvCache.Install` | wincache_zvcache.c:1904-1940 | After the sweep the key is looked up again; the second test for an add never fires, and the new entry takes the place of the old, whatever the sweep has left. |
| `ZvCaches.ZvCache.Delete` | wincache_zvcache.c:1959-2010 | The key is gone afterwards.  It succeeds exactly when the entry that showed the key was left by the sweep; of what the sweep left exactly that entry goes. |
| `ZvCaches.ZvCache.Change` | wincache_zvcache.c:2249-2311 | Adds the delta to a long value, wrapping at 64 bits, keeps ttl, age and last use, and leaves every other entry the sweep has left alone; it misses exactly when the sweep took the entry or there was none. |
| `ZvCaches.ZvCache.Compswitch` | wincache_zvcache.c:2313-2382 | Replaces a long value exactly when it has the expected old value, and changes nothing else but what the sweep takes. |
| `ZvCaches.ZvCache.Clear` | wincache_zvcache.c:2012-2058 | Afterwards there is no entry and itemcount is 0. |
| `ZvRuns.Run` | wincache_zvcache.c:1761-2382 | Any run of calls, at growing times and with an allocator that may answer every call differently, answers and changes the table as a run on an expiring map does, in which cells age between the calls; it runs out of memory exactly in the calls that have an entry to create and are refused; it sweeps on the schedule of the scavenger; and each call changes exactly the entries it should, last uses and hits included (EntryStep). |
| `ZvRuns.SetSucceeds` | wincache_zvcache.c:1835-1957 | In any run, a set under a short enough key that is offered room succeeds, unless it is an add of a key that is shown. |
| `ZvRuns.Perform` | wincache_zvcache.c:1761-2382 | The same for each single call, out-of-memory answers included, from the contracts of the operations. |
| `ZvRuns.GoneUntilSet` | wincache_zvcache.c:1057-1084 | In any run, a key that is not shown stays missing until it is set: deleted and expired values never come back. |
| `ZvRuns.KeptWhileYoung` | wincache_zvcache.c:1057-1084 | In any run, a cell shown once keeps its value as long as it is young and the key is only read. |
| `ZvRuns.SameOrGone` | wincache_zvcache.c:1057-1084 | A user cache entry that is only read keeps value, ttl and age until it disappears. |
| `ZvRuns.KeptWhileUsed` | wincache_zvcache.c:1806-1806 | In any run on a user cache, a value that was got and is only read from then on is got again, at an age of at most its ttl, if every sweep in between comes less than ttl seconds after the first get: using an entry keeps the scavenger off it. |
| `ZvRuns.SetThenGet` | wincache_zvcache.c:1835-1957 | Set, then get within the ttl: the value comes back, whatever calls on other keys lie between. |
| `ZvRuns.ExpiredThenGet` | wincache_zvcache.c:1057-1084 | Set with a ttl, then get later than that in a user cache: missing. |
| `ZvRuns.DeleteThenGet` | wincache_zvcache.c:1959-2010 | Delete, then get before the key is set again: missing. |
| `ZvRuns.SweptSoFar` | wincache_zvcache.c:1340-1413 | In any run, after c sweeps the buckets of the first c windows hold only entries used or written since, or not stale at the start. |
| `ZvRuns.IdleIsSwept` | wincache_zvcache.c:1340-1413 | In any run with ceil(valuecount/16) effective sweeps and any calls between them, whatever was stale at the start and was neither used nor written since is gone. |
| `ZvMemory.FillPool` | wincache_zvcache.c:296-308 | The requests are served in order, each by a piece of its size; whether all are is told from heap and pool before the first, and otherwise the copy stops exactly at the first that neither can serve. |
| `ZvMemory.CopyinArray` | wincache_zvcache.c:256-316 | The blocks an array takes: tracker, pool, pool contents, a piece for each request; it succeeds exactly when the heap before it can serve them in turn (ArrayFits). A failure after the pool exists frees the pool. |
| `ZvMemory.CopyinZval` | wincache_zvcache.c:170-421 | Succeeds exactly when the heap before it has room in turn for all the value needs (RoomFor). A failed copy of a scalar, string or object leaks nothing. What a failed array copy leaks is told from the heap before it: nothing if zval or tracker was refused, the tracker if the pool header was, and else tracker and zval. |
| `ZvMemory.CreateData` | wincache_zvcache.c:1093-1174 | Succeeds exactly when first fit, on the heap before it, finds room in turn for the entry, the zval and all that its value needs, arrays included (SetFits). A new entry owns exactly the blocks added to the live blocks, each large enough for what it holds; a failure leaks exactly what the heap before it tells (SetLeak): 0, 1 or 2 blocks. |
| `ZvMemory.DestroyData` | wincache_zvcache.c:1176-1245 | Destroying an entry gives back exactly the blocks it owns. |
| `ZvMemory.SetThenRemove` | wincache_zvcache.c:1093-1245 | A set, which succeeds exactly when SetFits says so, and then the removal of its entry leave all other payloads as they were, and the heap layout as well exactly when the set succeeded or leaked nothing. |
| `ZvMemory.LeakingHeap` | wincache_zvcache.c:256-316 | A heap on which a set leaks its tracker. |
| `ZvMemory.FailedSet` | wincache_zvcache.c:1093-1174 | The call on it: the set fails and one block stays allocated. |
| `ZvMemory.Store` | wincache_zvcache.c:1835-1957 | A set for a new key: it stores exactly when SetFits says so; the entries there before stay in order, the new one shares no block with them, and exactly as many blocks are lost as the heap before it tells (Loss). |
| `ZvMemory.Drop` | wincache_zvcache.c:1292-1337 | The removal of any entry gives back its blocks; the others stay in order and share nothing. |
| `ZvMemory.ClearAll` | wincache_zvcache.c:2032-2049 | Clearing a cache gives back exactly the blocks of its entries. |
| `ZvMemory.CacheLifetime` | wincache_zvcache.c:1835-2058 | Any sets and removals in any order, and then a clear, leave every payload that was there before in place. Each set stores exactly when the heap it finds has room, and each removal of an entry there is takes it away; the number of blocks lost is the sum of what the failed sets of arrays lose; the heap layout is as it was exactly when that is none, and so whenever every set of an array succeeded. |
| `ZvMemory.NothingLost` | wincache_zvcache.c:1093-1174 | A run whose sets of arrays all fit loses nothing. |
| `ZvMemory.ValidAmongMore` | wincache_zvcache.c:1093-1174 | An entry outlives the allocation of further blocks. |
| `ZvMemory.StillValid` | wincache_zvcache.c:2032-2049 | An entry outlives the release of blocks it does not own. |
| `HashCompact.ShrunkSize` | wincache_zvcache.c:677-690 | The new index has a power of two slots, more than the used buckets and at most twice as many, or the minimum size. |
| `HashCompact.SparseExact` | wincache_zvcache.c:676-677 | A table is compacted from 17 slots on, when it has at least two slots for every used one and two more. |
| `HashCompact.SlotIsLowBits` | wincache_zvcache.c:707-709 | The slot formed as hash | negated size, counted back from the buckets, is the hash masked by size - 1. |
| `HashCompact.MaskIsRemainder` | wincache_zvcache.c:707-709 | For a power of two, the mask is the remainder by the size. |
| `HashCompact.SlotIsRemainder` | wincache_zvcache.c:707-709 | So the slot of a hash is the hash modulo the size of the index, which the rebuild below computes with. |
| `HashCompact.Rebuild` | wincache_zvcache.c:699-711 | After the rebuild each slot's chain visits the buckets in use that hash to it, latest first. |
| `HashCompact.RebuiltIndex` | wincache_zvcache.c:699-711 | Each slot's chain visits exactly the defined buckets that hash to it, each once. |
| `HashCompact.FindExact` | wincache_zvcache.c:699-711 | A lookup along a chain finds a bucket with the hash and key if and only if the chain has one. |
| `HashCompact.SameLookups` | wincache_zvcache.c:676-712 | Any two correct indexes over the same buckets, of whatever size, answer every lookup alike. |
| `HashCompact.IndexIgnoresKeys` | wincache_zvcache.c:715-755 | Copying keys and values keeps a collision index correct. |
| `HashCompact.Compact` | wincache_zvcache.c:676-712 | The whole compaction: a correct index of the right size. |
| `DeepCopy.OneMeaning` | wincache_zvcache.c:170-339 | A slot stands for at most one value: kind, keys, order and contents. |
| `DeepCopy.ShapeMeans` | wincache_zvcache.c:170-339 | Whatever is shaped like a copy means what the original means; induction over the value. |
| `DeepCopy.MeansKept` | wincache_zvcache.c:156-161 | Later allocations do not change what a slot means. |
| `Copying.StringCopied` | wincache_zvcache.c:903-938 | A string is copied once for each source address. |
| `Copying.TableCopied` | wincache_zvcache.c:631-646 | A table enters the memo before its contents are copied. |
| `Copying.DataCopied` | wincache_zvcache.c:665-674 | The data area of a table copied for the first time was not copied before. |
| `Copying.TableClosed` | wincache_zvcache.c:612-771 | Between entering and finishing a table nothing finished has changed, and the table has its copy, bucket by bucket. |
| `Copying.HalfwayStep` | wincache_zvcache.c:715-755 | One more bucket copied: its key and value, while hash, chain link and use of every bucket stay. |
| `Copying.SharedTables` | wincache_zvcache.c:123-168 | Two array slots lead to the same table exactly when their copies do: an array that occurs several times is stored once and shared. |
| `DeepCopy.PathShape` | wincache_zvcache.c:612-901 | A path of bucket numbers leads somewhere in the copy exactly when it does in the original, and then to the copy of the same slot. |
| `Copying.SharingKept` | wincache_zvcache.c:123-168 | Two paths inside a value end in one table exactly when they do inside its copy. |
| `Copying.OneSource` | wincache_zvcache.c:123-168 | Every table stored is the copy of exactly one table of the source. |
| `Copying.CopyMeans` | wincache_zvcache.c:612-901 | A finished copy, in either direction, means what its source means. |
| `CopyIns.CopyIn.CopyinMemory` | wincache_zvcache.c:123-168 | An address copied before is not copied again; otherwise one new allocation holds its contents and the memo remembers it; it fails exactly when the address is new and the allocator refuses, and then nothing has changed. |
| `CopyIns.CopyIn.CopyinString` | wincache_zvcache.c:903-938 | The copy has the characters of the original. |
| `CopyIns.CopyIn.CopyinValue` | wincache_zvcache.c:170-421 | It fails only where the allocator refuses the state it has reached. Otherwise the cached slot means exactly what the original slot means, keys in the same order, and shares tables inside exactly as it does. |
| `CopyIns.CopyIn.CopyinZval` | wincache_zvcache.c:207-316 | What a slot becomes: scalars stay, strings and arrays are replaced by offsets of their copies. |
| `CopyIns.CopyIn.CopyinArray` | wincache_zvcache.c:256-340 | Each occurrence of an array gets a tracker that names the one copy of its table. |
| `CopyIns.CopyIn.CopyinHashtable` | wincache_zvcache.c:612-771 | A table seen before yields its earlier copy; a new one is copied completely. |
| `CopyIns.CopyIn.CopyData` | wincache_zvcache.c:657-719 | Packed, sparse and normal tables: it fails exactly when the allocator refuses, and the code goes on with a null data area exactly when it refuses for a hashed table that has entries and is not sparse.  Exactly the sparse tables get a smaller index, of 8 slots or at most twice the used buckets; all others keep index and buckets as they are. |
| `CopyIns.DataRefused` | wincache_zvcache.c:715-727 | An allocator and a table of one entry for which it does. |
| `CopyIns.CopyIn.CopyBuckets` | wincache_zvcache.c:715-755 | Keys and values of all defined buckets are copied in place; the collision index stays correct. |
| `CopyOuts.CopyOut.CopyoutValue` | wincache_zvcache.c:423-610 | Reading through any base address, the private slot means exactly what the cached slot means and shares tables inside exactly as it does; it fails only where the process allocator refuses. |
| `CopyOuts.CopyOut.CopyoutZval` | wincache_zvcache.c:486-545 | What a slot becomes: scalars stay, strings become private copies, arrays lead to the private table. |
| `CopyOuts.CopyOut.CopyoutHashtable` | wincache_zvcache.c:773-901 | A table seen before yields its earlier copy; a new one is copied completely. |
| `CopyOuts.CopyOut.CopyBuckets` | wincache_zvcache.c:850-874 | Keys and values of all defined buckets; the collision index stays correct. |
| `CopyOuts.RoundTrip` | wincache_zvcache.c:123-901 | In through one mapping and out through another, at any two base addresses: the result means what the original means, and two paths inside it end in one table exactly when they do in the original. It fails only where one of the allocators refuses, so with allocators that never do it succeeds. |
| `FileIndexes.NamesOf` | wincache_aplist.c:486-556 | The list of a file holds exactly the names that resolve to it, and is empty exactly when resentry is 0. |
| `FileIndexes.FileRemoved` | wincache_aplist.c:486-556 | Taking a file away together with its names leaves no name dangling. |
| `FileIndexes.NameLinked` | wincache_rplist.c:606-633 | A name not resolved before becomes the first of its file's list, once. |
| `FileIndexes.NameIsGone` | wincache_aplist.c:1584-1602 | When the file of a name is removed no entry of that name is left. |
| `FileIndexes.OneEachFile` | wincache_aplist.c:1192-1219 | Adding a file whose path is not there keeps one file per path. |
| `FileIndexes.IdleExact` | wincache_aplist.c:612-613 | The scavenger's test in true time: more than ttlmax milliseconds since the last use (one less is counted after a rollover). |
| `FileIndexes.CheckExact` | wincache_aplist.c:115-142 | A file flagged by its listener counts as changed whatever the check says; no other result of the check is altered. |
| `FileIndexes.KeyExact` | wincache_rplist.c:47-86 | Two names are the same exactly when all four strings are equal up to case. |
| `FileIndexes.ResolvedFile` | wincache_aplist.c:1537-1545 | A name with a non-zero absentry points at a live file, and that file has content. |
| `FileIndexes.FileIndex.constructor` | wincache_aplist.c:1495-1518 | Two empty caches agree. |
| `FileIndexes.FileIndex.FindAp` | wincache_aplist.c:70-166 | Finds an entry of the path up to case, or there is none in any bucket. |
| `FileIndexes.FileIndex.FindRp` | wincache_rplist.c:47-86 | The same for the four strings of a name. |
| `FileIndexes.FileIndex.RpGetEntry` | wincache_rplist.c:520-604 | Finds the entry of a name or adds an unresolved one; adds none when one exists. |
| `FileIndexes.FileIndex.RpDeleteVal` | wincache_rplist.c:635-667 | Following same_value frees each name of a list once and no other. |
| `FileIndexes.FileIndex.RemoveAp` | wincache_aplist.c:486-556 | The file and exactly its names go; everything else keeps its data. |
| `FileIndexes.FileIndex.ScavengeBucket` | wincache_aplist.c:600-619 | Exactly the idle files of the bucket go, removed while walking it. |
| `FileIndexes.FileIndex.Scavenge` | wincache_aplist.c:559-623 | Exactly the files of the window that were unused for more than ttlmax go, with their names. |
| `FileIndexes.FileIndex.SecondLook` | wincache_aplist.c:1174-1219 | The new entry is linked exactly when no entry of the path carries another tick than the one compared; an entry with another tick is returned and nothing changes. |
| `FileIndexes.FileIndex.PartialSweep` | wincache_aplist.c:1128-1137 | A partial sweep, when one is due, leaves exactly the files it should, and their names. |
| `FileIndexes.FileIndex.CreateEntry` | wincache_aplist.c:1168-1219 | With room the new entry takes the place of the one of the path, whose names go with it; without room, or when the file cannot be read, everything a full sweep left stays. |
| `FileIndexes.FileIndex.ApGetEntry` | wincache_aplist.c:1100-1268 | A file of the path that is unchanged and was used within ttlmax is the one returned, with its data and a new last-use stamp.  In general, by the files the partial sweep leaves: an unchanged file of the path is returned and nothing else changes; when its check fails the call fails and nothing else changes; when it has changed, or there is none, a new entry takes its place, and the call fails exactly when none can be made (GotFile).  The names left are the unresolved ones and those of the files kept. |
| `FileIndexes.FileIndex.LinkName` | wincache_aplist.c:1732-1758 | fcacheval, absentry, same_value and resentry are set so that the name leads its file's list. |
| `FileIndexes.FileIndex.FillFrom` | wincache_aplist.c:1675-1758 | Content that is there is kept.  New content is given exactly when it can be made and, where the stream-open check is asked for, the name has passed it before or passes it now; the outcome is recorded in the name's is_verified. |
| `FileIndexes.FileIndex.FillEntry` | wincache_aplist.c:1654-1758 | A file found with content and unchanged, used within ttlmax, is returned with that content.  With the stream-open check asked for, any other file is returned only if the name is recorded as passed, or is not recorded and is accepted now, and then it is recorded as passed; a refusal is recorded as failed.  Files that are neither idle nor changed stay, with their names, and files of other paths and other names keep their data (Filling). |
| `FileIndexes.FileIndex.VerifyName` | wincache_aplist.c:1683-1720 | A name not recorded yet is recorded as passed or failed, as php's own open function says; a recorded one decides by itself and nothing changes. |
| `FileIndexes.FileIndex.CheckLinked` | wincache_aplist.c:1537-1602 | The file a name resolves to decides the call when only the path is wanted, when it is unchanged and when its check fails; a changed one goes with all its names. |
| `FileIndexes.FileIndex.FcacheGet` | wincache_aplist.c:1495-1802 | A name that resolves to an unchanged file gets that file, and nothing changes.  A name not resolved yet gets the unchanged file of its path with the content it has, if that was used within ttlmax.  With the stream-open check asked for, a file is returned only in these two cases or when the name may have it (GateOpen): its entry is recorded as passed, or it is not recorded, or was dropped with its changed file, and php's own open function accepts it; the outcome is recorded.  The call succeeds whenever nothing it needs fails and the gate is open.  The file returned is live and has content, and the name resolves to it, except exactly when the index had an entry of the name whose file was found changed: then no entry of that name is left.  Files that are neither idle nor found changed stay, with their names; files of other paths and other names keep their data. |
| `FileIndexes.FileIndex.FcacheDelete` | wincache_aplist.c:1804-1854 | Exactly the file the name resolves to goes, with all its names; without an entry a new one is made, or nothing happens. |
| `FileIndexes.FileIndex.MarkFileChanged` | wincache_aplist.c:1414-1440 | Exactly the entry of that path gets the flag; no link changes. |
| `FileIndexes.FileIndex.Run` | wincache_aplist.c:1495-1854 | After any run of whole operations, with allocators that may answer every operation differently, every resolved name points at a live file whose list has it exactly once, and no path and no name has two entries; and each operation of the run answers and leaves what it should (OpDone). |
| `FileIndexes.FileKept` | wincache_aplist.c:1495-1854 | In any run, a file keeps its entry, its content and its flag for as long as no operation finds it idle or changed, or deletes it. |
| `GetEntry.FindUnique` | wincache_aplist.c:88-157 | When there is one entry per path, the walk finds it. |
| `GetEntry.FirstExact` | wincache_aplist.c:1126-1163 | The first region takes away what its scavenger takes and nothing else; an unchanged entry of the path is returned, a changed one remembered with its tick, a failing check fails the call, and without an entry the tick remembered is 0. |
| `GetEntry.SecondExact` | wincache_aplist.c:1174-1219 | The second region: an entry of the path with the remembered tick is freed and the new one takes its place; one with another tick is returned and the new one freed; without one the new one is linked. |
| `GetEntry.RemovalExact` | wincache_aplist.c:559-623 | Scavengers and other removals take exactly their entries off the table and free them; a process that cannot create its entry leaves the table as it is. |
| `GetEntry.SoloHit` | wincache_aplist.c:1126-1163 | A call nobody interrupts returns the unchanged entry of its path, and the table stays as it is. |
| `GetEntry.SoloCreate` | wincache_aplist.c:1126-1219 | A call nobody interrupts that finds no entry, or a changed one, ends with exactly the new entry for its path. |
| `GetEntry.FirstInv` | wincache_aplist.c:1126-1163 | The first locked region keeps the invariant. |
| `GetEntry.SecondInv` | wincache_aplist.c:1174-1219 | The second locked region keeps it: the new entry is linked when there is no other for the path, or destroyed. |
| `GetEntry.NextInv` | wincache_aplist.c:1100-1268 | So does every other step: creating, failing, scavenging, removals by others. |
| `GetEntry.RunInv` | wincache_aplist.c:1100-1268 | The invariant holds after any interleaving of any number of processes. |
| `GetEntry.NeverTwo` | wincache_aplist.c:1126-1239 | The table never holds two entries for one path. |
| `GetEntry.LinkedOrFreed` | wincache_aplist.c:1192-1262 | Once no process is between creating and its second region, every entry ever created is in the table or freed, not both. |
| `GetEntry.NotTheChanged` | wincache_aplist.c:1140-1242 | The entry returned is one for the path, and not the one found changed. |
| `GetEntry.RemovesByTick` | wincache_aplist.c:1192-1203 | The second region takes off the table exactly the entry of the path that carries the tick it compares. |
| `GetEntry.OnlyTheChangedGoes` | wincache_aplist.c:1192-1203 | The second region takes off nothing but the entry found changed if and only if no other entry of the path in the table carries that tick; when none was found the tick is 0. |
| `GetEntry.ZeroTick` | wincache_aplist.c:1174-1203 | A run in which a process that had found no entry throws away a fresh one stamped at tick 0. |
| `GetEntry.TickClash` | wincache_aplist.c:1192-1203 | A run of two processes within one tick in which the second region removes a fresh entry. |

## Left out

- The Windows side: locks, mappings, events, tracing, impersonation, access rights, file reading and path resolution; they are taken as given or are oracles.
- The branch for heaps private to a process (`localheap`), and reallocation of process memory.
- What the allocator does on a segment that is corrupt: its own tests never fire on a valid one (`FindFit`, `WalkToNode`).
- A pointer passed to `free_memory` whose header would end past the segment: the model requires the marker word to be inside.
- Requests so large that aligning them overflows 64 bits.
- The words of segment and pool headers that only count processes or name the last owner.
- Header fields of the heap (free_size, the counters, the two cache header slots) are class fields beside the word array, not words of it.
- Entries with a ttl whose stamp is 2^32 ms old or older (`Stamped`): `Ticks.ElapsedRestarts` shows that the code then takes them for fresh.  Entries without a ttl may be of any age.
- Runs of `ZvRuns` are shorter than 2^32 ms, for the same reason.
- One clock reading serves a whole locked region; the code reads the tick counter again in some of them.
- Statistics kept by the caches other than hit and miss counts and item counts, and the listing functions.
- The value of a user cache entry is a token in `ZvCache.dfy`; deep copies and memory are in files of their own, and the offset of a new entry is a parameter there.
- `create_zvcache_data` running out of process memory.
- PHP references, resources, objects in the deep copy (an object is a serialised string, and memory accounting covers it), and cyclic values.
- The pool from which a copied array is allocated, in the deep copy: allocation there is an oracle; `ZvMemory.dfy` has the pools.
- Flags, reference counts and destructors of PHP hash tables, and `nTableSize`.
- Entries of private hash tables in the memo of `copyout_zval`: their addresses are never looked up twice.
- `is_deleted` in both index tables: no function of the repository ever sets it for files, and `rplist_markdeleted` has no caller.
- The contents a file entry's `fcacheval` names (`wincache_fcache.c`): an opaque number, without its reference counts.
- `wincache_fcnotify.c`: only that a file's changed flag may be set between operations, and that a check may say changed at any time.
- `aplist_force_fccheck`, `last_check` and the file attributes of an entry: they are part of the check oracle.
- Files over 4 GB in `create_aplist_data`.
- `aplist_fcache_get` with other processes between its locked regions: it holds entry pointers across dropped locks; here it is one step.
- `php_wincache.c`, `wincache.php` and `wincache_session.c`: interfaces, settings and reports.
- Segments.Segment.GetInfo: states the reported overhead as the code computes it, short of the footers.
- Segments.Segment.FreeMemory: does not say what a release does through a pointer that passes the marker test and is at no used block; `ReleaseTwice` and `MarkerInPayload` show that there are such pointers.
