# A model of REMON, with proofs

REMON lets a program use more memory than a machine has. It hands out memory in pages, keeps the pages in use in local
memory, and moves the others to swap files or to memory nodes. This project models the parts on which its correctness
rests and proves what they promise. Two pieces of code that REMON ships with are modelled as well: the TPC-H data
generator and DuckDB's remote file access.

`dafny verify dfyconfig.toml` checks the whole project.

**The heap inside a page** (`HeapModel`, `HeapProofs`, `HeapSums`, `PageHeap`, `HeapTheorems`, `HeapRuns`). A page is an
array of 8-byte words with headers, footers and a doubly linked free list written into it. `PageHeap.FreeListAllocator`
makes the writes of the source on such an array. Its invariant ties the array to a *view*: which blocks there are, and
the free list in order. `malloc` and `free` are then functions on views, and what clients rely on is proved of those
functions, and of whole runs.

**Residency** (`SwapImage`, `Residency`, `ResidencyProofs`, `ResidencyEffects`, `Paging`, `Lru`, `Vmm`, `RingBuffer`,
`RingSystem`). A page is in one of seven states. Its words are in local memory, in a swap file or at a memory node, cut at the free tail of its
heap. `Paging` is a step system over any number of pages and nodes; its steps are the calls of the page manager, of the
allocators and of the application. The main theorem says that every run of it is a run of plain memory. `Vmm.RemonVmm`
is the code that makes the steps: activate, prefetch and evict, with the LRU list. `RingSystem` adds the buffer of pinned
pages to the runs.

**Runs of pages** (`RunModel`, `RunProofs`, `PageRuns`, `RunTheorems`, `RunHistory`, `RegionBundle`, `Regions`,
`BundleHistory`, `DroppedRuns`). A region is tiled by runs. First and last page of a run carry a tag, and the free runs
of each length form a doubly linked list. `PageRuns.TopLevelAllocator` works in place on the table of page records;
`RegionBundle` has one allocator per region. Whole runs are covered for one region and for all regions together.

**The rank index** (`RankIndex`, `RankHistory`). Pages with small blocks are indexed by their largest free block. One page, the one
allocated from last, has a stale rank, and releases are postponed; `allocate` still finds room exactly if there is some.

**TPC-H generator** (`RandomStreams`, `DbgenChunks`, `PartSuppliers`, `Dates`). Skipping in random streams against drawing,
generation in chunks against generation in sequence, the suppliers of a part, and dates.

**Remote files** (`HttpRead`, `S3Upload`, `UrlCoding`). Reading through a buffer of one window, writing as a multipart
upload, and percent-encoding.

`ListOps` holds what several parts need about lists.

Conventions: block pointers and sizes in a page count 8-byte words from the page's start, with 0 for the null pointer and
-1 for the address of the allocator's `freeHead` field; header words hold byte sizes. Exchanges with a memory node are
single steps. Whether a lock can be taken, whether a node is full, and which page an iteration meets first are
parameters. An unordered set is a sequence in the order of its iteration. Integers are unbounded; where the source's width
matters (products in the generators, 16-bit part numbers) the bound is stated.

Results that differ from what one might expect:

- `isEmpty` is not complete. It misses an empty page whose free blocks were not merged, because `free` merges to the
  right only. `HeapTheorems.IsEmptyIff` gives the exact condition, `HeapTheorems.IsEmptyMisses` a run that
  shows it on every page, with any block size that fits twice.
- A request of more than `pageSize - 48` and at most `pageSize - 32` bytes is sent to the page heap but rounded above its
  limit (`HeapTheorems.AsizeWithinLimit`). The page heap refuses it and returns with the page's mutex held, so the next
  call on the page blocks. `HeapRuns.RefusedIff` has the exact condition; a run of `HeapRuns.Execute` ends there.
- `removePodFromLRU` returns with the list's lock held when the page is not on a list that is not empty
  (`Lru.LruList.RemovePodFromLRU`).
- The part-supplier bridge gives four different suppliers exactly for the supplier counts in `PartSuppliers.Spread`; all
  counts that the generator uses (multiples of 10000) are among them.
- The generator's leap year rule makes 2000 a common year. It agrees with the calendar exactly on the years that are no
  multiple of 400 (`Dates.LeapIsGregorian`), so on all years that the generator uses.
- Skipping matches generation on all streams that row_stop rounds up but two (`DbgenChunks.SkipMatchesStop`). Nothing
  draws from one of them, HVAR_SD. The other fills the text pool while a process generates its first row; the skip leaves
  it alone, so every process fills the pool from the same seed (`DbgenChunks.ChunkAgainstSequence`).

## Model

| member | source | states |
|---|---|---|
| `HeapModel.Untag` | compute_node/shared/allocatorMacros.h:12-39 | reading size and allocation bit gives back what was packed |
| `HeapModel.PopLinks` | compute_node/shared/FreeListAllocator.cpp:231-241 | unlinking a node leaves a well-formed doubly linked list of the other nodes in their order, with the freeHead field as the node before the first |
| `HeapModel.PushLinks` | compute_node/shared/FreeListAllocator.cpp:160-174 | inserting at freeHead puts the block before all other nodes of a well-formed list |
| `HeapModel.FirstFit` | compute_node/shared/FreeListAllocator.cpp:26-34 | all listed blocks before the chosen one are too small, and the chosen one is large enough |
| `HeapModel.MaxFromIs` | compute_node/shared/FreeListAllocator.cpp:254-274 | the maximum bounds every listed size and is attained |
| `HeapProofs.CarveCorrect` | compute_node/shared/FreeListAllocator.cpp:34-75 | malloc's writes for the chosen block keep the whole heap invariant, give the carved view, and change no live word |
| `HeapProofs.ReleaseCorrect` | compute_node/shared/FreeListAllocator.cpp:85-98 | marking a block free and inserting it keep the heap invariant and change no other live word |
| `HeapProofs.RunEndIs` | compute_node/shared/FreeListAllocator.cpp:325-345 | the run to merge ends at the first block that is not free or at the page's end, and all blocks in it are free |
| `HeapProofs.MergeRound` | compute_node/shared/FreeListAllocator.cpp:325-355 | although the merged header and footer are written first, the blocks still to be popped keep their link words |
| `HeapProofs.SwallowTiling` | compute_node/shared/FreeListAllocator.cpp:325-355 | merging keeps the blocks tiling the page |
| `HeapProofs.SwallowLists` | compute_node/shared/FreeListAllocator.cpp:325-355 | after merging, the list holds exactly the free blocks |
| `HeapSums.SizesAddUp` | compute_node/shared/FreeListAllocator.cpp:276-322 | free and allocated sizes add up to the page |
| `HeapSums.ListSumIsFreeSum` | compute_node/shared/FreeListAllocator.cpp:276-322 | the sizes along the free list add up to the free sizes found by walking the page |
| `PageHeap.FreeListAllocator.constructor` | compute_node/shared/FreeListAllocator.h:30-38 | a new allocator is in order before its heap is set up |
| `PageHeap.FreeListAllocator.HeapInit` | compute_node/shared/FreeListAllocator.cpp:109-136 | the first call sets up one free block over the whole page; any later call changes nothing |
| `PageHeap.FreeListAllocator.InsertAtFreeHead` | compute_node/shared/FreeListAllocator.cpp:160-174 | the words after the call are those of the push on the list |
| `PageHeap.FreeListAllocator.PopFreeBlockOut` | compute_node/shared/FreeListAllocator.cpp:231-241 | the words after the call are those of the pop from the list |
| `PageHeap.FreeListAllocator.FindFit` | compute_node/shared/FreeListAllocator.cpp:26-34 | the walk along the links finds the first block of the list that fits, and null exactly if none does |
| `PageHeap.FreeListAllocator.Malloc` | compute_node/shared/FreeListAllocator.cpp:7-83 | keeps the invariant, takes the first listed block that is large enough, refuses zero and oversized requests and keeps the page's mutex exactly then, and changes no live word |
| `HeapProofs.MallocIsFirstFit` | compute_node/shared/FreeListAllocator.cpp:28-40 | malloc takes the first listed block that is large enough, and changes nothing if there is none |
| `PageHeap.FreeListAllocator.GatherRun` | compute_node/shared/FreeListAllocator.cpp:325-345 | collects the whole run of free blocks right of a block and its exact length |
| `PageHeap.FreeListAllocator.RightCoalescing` | compute_node/shared/FreeListAllocator.cpp:325-355 | keeps the invariant, merges the run into the block, and changes no live word |
| `PageHeap.FreeListAllocator.Free` | compute_node/shared/FreeListAllocator.cpp:85-98 | keeps the invariant, leaves the view with the block released and merged to the right, and changes no word of any other live block |
| `PageHeap.FreeListAllocator.MaxAllocatableSize` | compute_node/shared/FreeListAllocator.cpp:254-274 | returns the size of the largest free block, 0 if there is none |
| `PageHeap.FreeListAllocator.IsEmpty` | compute_node/shared/FreeListAllocator.h:66-73 | true exactly if the page is one free block |
| `PageHeap.FreeListAllocator.GetTailFreeBlock` | compute_node/shared/FreeListAllocator.h:74-82 | the start of the block that ends the page if that is free, else the page size |
| `HeapModel.TailOffsetIs` | compute_node/shared/FreeListAllocator.h:74-82 | the block that ends the page decides where it is cut |
| `PageHeap.FreeListAllocator.DebugPrint` | compute_node/shared/FreeListAllocator.cpp:276-322 | neither of the two mismatches that the sanity check reports can occur |
| `HeapTheorems.AsizeIsLeast` | compute_node/remon.cpp:344-352 | computeAsize gives the least block size that is a multiple of 16, at least 32, and has room for the request and its tags |
| `HeapTheorems.AsizeWithinLimit` | compute_node/shared/FreeListAllocator.cpp:17-21 | the rounded size is within the heap's limit exactly for requests up to 48 bytes below the page size |
| `HeapTheorems.MallocFailsIff` | compute_node/shared/FreeListAllocator.cpp:7-83 | malloc fails exactly if maxAllocatableSize is below the request |
| `HeapTheorems.FreshServes` | compute_node/remon.cpp:215-234 | a new page serves every size within the limit |
| `HeapTheorems.MallocGives` | compute_node/shared/FreeListAllocator.cpp:7-83 | the block handed out was free, is large enough with less than 32 bytes to spare, does not start at the page base, and no other allocated block changes |
| `HeapTheorems.MallocLeaves` | compute_node/shared/FreeListAllocator.cpp:34-83 | the block is cut exactly if four words or more remain; what remains goes to the front of the list; no other block and no other list position changes |
| `HeapTheorems.FreeGives` | compute_node/shared/FreeListAllocator.cpp:85-98 | exactly the released block leaves the allocated ones, and the block right of the result is allocated or missing |
| `HeapTheorems.FreeElsewhere` | compute_node/shared/FreeListAllocator.cpp:85-98 | a release changes no block outside the merged one, swallows free blocks only, and puts the block first on the list |
| `HeapTheorems.FreeMaxGrows` | compute_node/shared/FreeListAllocator.cpp:85-98 | a release never lowers the largest free block and raises it at least to the released size |
| `HeapTheorems.IsEmptyIff` | compute_node/shared/FreeListAllocator.h:66-73 | isEmpty holds exactly if nothing is allocated and no two free blocks are neighbours |
| `HeapTheorems.IsEmptyMisses` | compute_node/shared/FreeListAllocator.h:66-73 | on every page, two equal requests of any size that fits twice, given back in the same order, leave nothing allocated and isEmpty false |
| `HeapTheorems.ClientWriteKeeps` | compute_node/shared/FreeListAllocator.cpp:7-83 | a write inside a client's own block keeps the heap invariant and every other block's data |
| `HeapTheorems.RequestInPayload` | compute_node/remon.cpp:344-352 | every byte of a request lies in the payload of the block given for it |
| `HeapTheorems.ViewUnique` | compute_node/shared/FreeListAllocator.cpp:7-98 | a page and freeHead have at most one reading, so all answers are determined by them |
| `HeapRuns.StaysSound` | compute_node/shared/FreeListAllocator.cpp:7-98 | every allowed call keeps blocks tiling the page and the list equal to the free blocks |
| `HeapRuns.StepKeeps` | compute_node/shared/FreeListAllocator.cpp:7-98 | a call keeps every allocated block that it does not release |
| `HeapRuns.RefusedIff` | compute_node/shared/FreeListAllocator.cpp:13-21 | a request that is rounded first, as all callers do, is refused exactly if it has more than pageSize - 48 bytes |
| `HeapRuns.Execute` | compute_node/shared/FreeListAllocator.cpp:7-98 | any run of mallocs and frees up to the first refused request keeps the invariant, its answers depend on the reading of the page alone, it changes no word of a block that was allocated before and is not released, and it leaves the mutex held exactly if its last request was refused |
| `SwapImage.WholeRoundTrip` | compute_node/shared/pod.cpp:82-114 | a page stored whole comes back whole |
| `SwapImage.TrimRoundTrip` | compute_node/shared/pod.cpp:98-142 | a heap page stored up to its free tail with two 16-byte pieces and loaded into any page has the same heap, free list and live words |
| `Residency.FreeAllGives` | compute_node/shared/pod.cpp:258-275 | after a flush the allocated blocks are those before it, less the postponed ones |
| `Residency.FlushKeepsLive` | compute_node/shared/pod.cpp:258-275 | a flush changes neither which words are live nor their contents |
| `ResidencyProofs.SwapOutKeeps` | compute_node/shared/pod.cpp:82-114 | swapping out keeps the page's invariant and all the application's words |
| `ResidencyProofs.DropKeeps` | compute_node/remon.cpp:532-553 | dropping a page with an empty heap, or of a free run, loses no word of the application |
| `ResidencyEffects.Evicted` | compute_node/remon.cpp:525-571 | eviction keeps a page local exactly if its heap is in use and not let go by the index; it gives up a page with nothing in use, swaps out any other local page and drops a cached copy, with the memory given back; no word of the application is lost |
| `ResidencyEffects.StoredIs` | compute_node/shared/pod.cpp:82-125 | a page whose heap ends in free block b is stored as its first b words and two words of each end of the block; any other page is stored whole |
| `ResidencyEffects.StoredSize` | compute_node/shared/pod.cpp:82-125 | such a page leaves a file of b + 4 words, and b words at a node |
| `ResidencyProofs.CachedKeeps` | compute_node/shared/pod.cpp:492-539 | prefetching into a cache state gives a copy equal to the stored image |
| `ResidencyProofs.DropCacheKeeps` | compute_node/shared/pod.cpp:561-577 | dropping a cached copy is invisible |
| `ResidencyEffects.Prefetched` | compute_node/remon.cpp:1292-1321 | after a prefetch no page is unused or swapped out without a copy: every word is in memory at its place, and file and key are unchanged |
| `ResidencyEffects.Activated` | compute_node/remon.cpp:410-490 | an activated page is in memory with every word of the application at its place, whatever its state was; its swap file and its key at the landlord are gone, postponed releases are done, and the invariant holds |
| `Paging.PostponeFreeEffect` | compute_node/SegregatedPageList.cpp:175-193 | a postponed release takes exactly the block's words from the application |
| `Paging.SmallMallocEffect` | compute_node/shared/pod.cpp:174-183 | a small allocation gives new words and leaves all others |
| `Paging.HugeTakeEffect` | compute_node/remon.cpp:270-282 | handing out a page of a run gives its words to the application |
| `Paging.HugeGiveEffect` | compute_node/TopLevelAllocator.cpp:309-317 | releasing a page of a run takes its words back |
| `Paging.PinEffect` | compute_node/PodBoundedBuffer.cpp:36-85 | a page put into the ring buffer is pinned, from whatever state, and holds no word of the application before |
| `Paging.CleanupEffect` | compute_node/remon.cpp:1072-1089 | a swapped-out page without postponed releases is given up with its file and its key; any other page stays as it is |
| `Paging.PageRefines` | compute_node/remon.cpp:410-613 | every call on a page keeps its invariant and is a step of plain memory |
| `Paging.StepRefines` | compute_node/remon.cpp:410-613 | every step of the system keeps all invariants and changes no word on any other page |
| `Paging.RunRefines` | compute_node/remon.cpp:410-613 | every run of the system, over any number of pages and nodes, is a run of plain memory |
| `Paging.ContentsSurvive` | compute_node/shared/pod.cpp:82-232 | over any run, a word of the application that is not released is still there with the value last written to it, whatever else is allocated, released, written or moved meanwhile |
| `Paging.StoresAgree` | memory_node/MemoryNodeServer.cpp:68-227 | in every reachable state, a node holds a page's key exactly if the page is remote with that landlord, and a swap file exists exactly if the page is on disk |
| `Paging.SaveFindsKeyAbsent` | memory_node/MemoryNodeServer.cpp:92-95 | in every reachable state, a local page has its key at no node, so a save never finds an older image |
| `Paging.ImageStays` | memory_node/MemoryNodeServer.cpp:138-203 | over any run, the image at the landlord stays as it is while the page stays remote |
| `Paging.FileStays` | compute_node/shared/pod.cpp:82-125 | over any run, the swap file of a page stays as it is while the page stays on disk |
| `Paging.PinnedStays` | compute_node/remon.cpp:417-418 | over any run, a pinned page stays pinned until it is unpinned |
| `Paging.StartInv` | compute_node/remon.cpp:170-178 | a system of unused pages and empty nodes satisfies the invariant: the start of every run |
| `Paging.ReachedInv` | compute_node/remon.cpp:170-178 | every state that a run from the start reaches satisfies the invariant |
| `Lru.LruList.UpdateLRUList` | compute_node/remon.cpp:701-724 | the page becomes the first and all other pages keep their order; nodes and iterators stay consistent |
| `Lru.LruList.TailPodInLRUList` | compute_node/remon.cpp:934-956 | the page becomes the last and all other pages keep their order |
| `Lru.LruList.GetFromLRUList` | compute_node/remon.cpp:675-699 | takes exactly the last page, if there is one and it can be locked |
| `Lru.LruList.RemovePodFromLRU` | compute_node/remon.cpp:969-991 | the page leaves the list exactly if it is a member and can be locked; the lock stays held exactly if the list is not empty, the lock could be taken and the page is no member |
| `Lru.RunsHaveNoDuplicates` | compute_node/remon.cpp:737-753 | no run of list operations puts a page on the list twice |
| `Lru.OthersKeepOrder` | compute_node/remon.cpp:701-724 | an operation on one page keeps the order of all others |
| `Vmm.RemonVmm.FlushFreeBuffer` | compute_node/shared/pod.cpp:258-275 | one by one, all postponed releases are done, and no live word changes |
| `Vmm.RemonVmm.GetTailOffset` | compute_node/shared/pod.cpp:426-431 | the start of the free block that ends a heap page, the page size for any other page |
| `Vmm.RemonVmm.LocalToDisk` | compute_node/shared/pod.cpp:82-125 | the page is on disk with its memory given back; the file has the words before the free tail and two words of each end of the tail, or the whole page if there is none |
| `Vmm.RemonVmm.SavePodToRemote` | compute_node/shared/RemoteConnectionClient.cpp:43-125 | a full node changes nothing; otherwise the node has the words before the free tail, and two words of each end of the tail stay here |
| `Vmm.KeyAbsent` | memory_node/MemoryNodeServer.cpp:92-95 | no node has a key for a page that is about to be saved, so that the insert, which would keep an older image, stores the new one |
| `Vmm.RemonVmm.LocalToInit` | compute_node/shared/pod.cpp:69-80 | the page is unused and zeroed, no other page changes |
| `Vmm.RemonVmm.DiskToLocalPinned` | compute_node/shared/pod.cpp:127-159 | the stored words are back, postponed releases done, the swap file gone, the page pinned |
| `Vmm.RemonVmm.DiskCacheToLocalPinned` | compute_node/shared/pod.cpp:541-559 | the cached words are used, postponed releases done, the swap file gone, the page pinned |
| `Vmm.RemonVmm.RemoteToLocalPinned` | compute_node/shared/pod.cpp:208-231 | the words held by the landlord and the kept tail are back, the key is gone, the page is pinned |
| `Vmm.RemonVmm.RemoteCacheToLocalPinned` | compute_node/shared/pod.cpp:604-620 | the cached words are used, the key is gone, the page is pinned |
| `Vmm.RemonVmm.ActivatePod` | compute_node/remon.cpp:410-490 | the page is in memory with every word of the application at its place, nothing of it is stored elsewhere, its postponed releases are done, and it is first on the LRU list |
| `Vmm.RemonVmm.PrefetchPod` | compute_node/remon.cpp:1292-1321 | the page has every word of the application in memory at its place, with file and key as they were, and is first on the LRU list if it was not in memory |
| `Vmm.RemonVmm.RemoteSwap` | compute_node/remon.cpp:602-613 | the page goes to the first node in the order that accepts it, and nothing changes if none does |
| `Vmm.RemonVmm.EvictPod` | compute_node/remon.cpp:577-600 | the page goes to the first node in the order that accepts it, and to disk exactly if none does |
| `Vmm.RemonVmm.EvictSmall` | compute_node/remon.cpp:532-546 | a page with a heap is given up if its heap is empty after the flush, else swapped out if the index lets it go, else kept |
| `Vmm.RemonVmm.EvictHuge` | compute_node/remon.cpp:547-553 | eviction of a page of a run is an eviction step: dropped if its run is free, else swapped out |
| `Vmm.RemonVmm.PickPodToEvict` | compute_node/remon.cpp:516-575 | takes the last page of the LRU list; it stays local, and goes back on the list, exactly if its heap is in use and not let go; else it is given up if nothing is in use, goes to the first node that is not full, or to disk if all are, and its memory is given back |
| `RingBuffer.PodBoundedBuffer.Count` | compute_node/PodBoundedBuffer.cpp:87-89 | the number of pages between the indices, less than the ring's size |
| `RingBuffer.PodBoundedBuffer.BoundedBufferIsFull` | compute_node/PodBoundedBuffer.cpp:91-93 | full exactly with one slot left |
| `RingBuffer.PodBoundedBuffer.BoundedBufferIsEmpty` | compute_node/PodBoundedBuffer.cpp:95-97 | empty exactly if no page is held |
| `RingBuffer.PodBoundedBuffer.AddPodToBuffer` | compute_node/PodBoundedBuffer.cpp:36-85 | appends the page, overwrites none, and keeps at most size - 1 pages |
| `RingBuffer.PodBoundedBuffer.GetBufferedPod` | compute_node/PodBoundedBuffer.cpp:13-34 | hands out the oldest page; pages come out in the order they went in, each once |
| `RingSystem.QueueStep` | compute_node/PodBoundedBuffer.cpp:13-85 | every step of the paging system keeps the queued pages pinned and distinct |
| `RingSystem.QueueSafe` | compute_node/PodBoundedBuffer.cpp:13-97 | over every run the queued pages are pinned and at most size - 1, and what went in is what came out followed by what is queued |
| `RunModel.LowerBound` | compute_node/TopLevelAllocator.cpp:78-79 | the smallest size class of at least n pages |
| `RunModel.UnlinkLinked` | compute_node/TopLevelAllocator.cpp:161-181 | unlinking a run leaves a well-formed doubly linked list of the others |
| `RunModel.LinkFrontLinked` | compute_node/TopLevelAllocator.cpp:36-59 | linking a run in front of a list gives a well-formed list |
| `RunProofs.RemoveListing` | compute_node/TopLevelAllocator.cpp:151-181 | taking a run off its list keeps every list of free runs exact |
| `RunProofs.AddListing` | compute_node/TopLevelAllocator.cpp:36-59 | putting a run on its list keeps every list of free runs exact |
| `RunProofs.SplitTagging` | compute_node/TopLevelAllocator.cpp:94-127 | after a split every run is tagged at both ends, and all pages of free runs are flagged free |
| `RunProofs.OnePageMarked` | compute_node/PodBoundedBuffer.cpp:47-53 | a run of one page, as the ring buffer takes it, is flagged in use without further marking |
| `RunProofs.MergedTagging` | compute_node/TopLevelAllocator.cpp:226-237 | after a merge every run is tagged at both ends in spite of the stale tags inside, and all pages of the merged run are flagged free |
| `PageRuns.TopLevelAllocator.constructor` | compute_node/TopLevelAllocator.cpp:3-34 | the region starts as one free run, and no page outside it is touched |
| `PageRuns.TopLevelAllocator.HugePodMapAddEntry` | compute_node/TopLevelAllocator.cpp:36-71 | the run becomes the head of the list for its length, and no tag changes |
| `PageRuns.TopLevelAllocator.HugePodMapRemoveEntry` | compute_node/TopLevelAllocator.cpp:151-181 | the run leaves the list for its length, an empty list leaves the map, and all other lists stay exact |
| `PageRuns.TopLevelAllocator.AllocateNPages` | compute_node/TopLevelAllocator.cpp:73-142 | hands out the first run of the smallest length that suffices, cut to n pages with the rest listed; keeps tiling, tags and lists, and touches no other region |
| `PageRuns.TopLevelAllocator.MarkUsed` | compute_node/remon.cpp:270-282 | every page of the new run gets a record and is flagged in use, which completes the region's invariant |
| `PageRuns.TopLevelAllocator.HugeMalloc` | compute_node/remon.cpp:261-285 | allocation and marking together keep the region in order |
| `PageRuns.TopLevelAllocator.GatherRight` | compute_node/TopLevelAllocator.cpp:188-222 | exactly the free runs between the run and the next run in use leave their lists |
| `PageRuns.TopLevelAllocator.CoalescingOnePodRight` | compute_node/TopLevelAllocator.cpp:188-237 | the run takes over all free runs to its right, with header and footer rewritten |
| `PageRuns.TopLevelAllocator.HugeFree` | compute_node/TopLevelAllocator.cpp:292-323 | the run and the free runs to its right become one listed free run; keeps tiling, tags and lists, and touches no other region |
| `RunTheorems.PagesAddUp` | compute_node/TopLevelAllocator.cpp:433-494 | free and used pages add up to the region |
| `RunTheorems.AllocateMovesPages` | compute_node/TopLevelAllocator.cpp:73-142 | allocating n pages moves exactly n pages from free to used |
| `RunTheorems.ReleaseMovesPages` | compute_node/TopLevelAllocator.cpp:292-323 | releasing a run moves exactly its pages from used to free |
| `RunTheorems.AllocateLive` | compute_node/TopLevelAllocator.cpp:73-142 | exactly one run of n pages joins the live runs, inside what was free |
| `RunTheorems.AllocateElsewhere` | compute_node/TopLevelAllocator.cpp:73-142 | allocation changes no run but the one it cuts: its first n pages are in use and the rest is one free run |
| `RunTheorems.AllocateLists` | compute_node/TopLevelAllocator.cpp:73-142 | allocation takes the first run of its list, what is left comes first on the list for its length, and no other list changes |
| `RunTheorems.ReleaseLive` | compute_node/TopLevelAllocator.cpp:292-323 | exactly the released run leaves the live runs |
| `RunTheorems.ReleaseElsewhere` | compute_node/TopLevelAllocator.cpp:188-237 | a release changes no run outside the merged one and swallows free runs only |
| `RunTheorems.ReleaseFront` | compute_node/TopLevelAllocator.cpp:292-323 | a run given back comes first on the list for its length after the merge |
| `RunTheorems.ReleaseStops` | compute_node/TopLevelAllocator.cpp:188-237 | the merge stays in the region, and the run right of a released one is in use or missing |
| `RunTheorems.ClassIffRun` | compute_node/TopLevelAllocator.cpp:78-80 | there is a size class of at least n exactly if there is such a free run |
| `RunTheorems.BestFitOverRuns` | compute_node/TopLevelAllocator.cpp:78-79 | the class chosen is the length of the smallest free run that suffices |
| `RunTheorems.FlagsTell` | compute_node/remon.cpp:547-553 | a page is flagged free exactly if it lies in a free run, which is what eviction tests before it drops a page |
| `DroppedRuns.DroppedIffUnused` | compute_node/remon.cpp:547-553 | eviction drops a huge page exactly if no run in use holds it |
| `RunTheorems.RegionFrame` | compute_node/TopLevelAllocatorBundle.cpp:129-135 | work in one region leaves the invariants of every region beside it |
| `RunHistory.One` | compute_node/TopLevelAllocator.cpp:73-323 | a request is served exactly if some free run is long enough; the run lies in the region, apart from all runs handed out |
| `RunHistory.Execute` | compute_node/TopLevelAllocator.cpp:3-323 | over any run of requests and releases on a new region, no two runs handed out at the same time share a page, and every run given back is one that was handed out |
| `RegionBundle.TopLevelAllocatorBundle.AddNewRegionCore` | compute_node/TopLevelAllocatorBundle.cpp:129-135 | the next region gets an allocator within the table, all its pages free; the others stay in order |
| `RegionBundle.TopLevelAllocatorBundle.PerThreadGet` | compute_node/TopLevelAllocatorBundle.cpp:76-99 | a thread gets its own region, a new one while there is room, and none exactly if there is no room |
| `RegionBundle.TopLevelAllocatorBundle.LoopGet` | compute_node/TopLevelAllocatorBundle.cpp:101-121 | the first idle region, or a new one if all are busy |
| `RegionBundle.TopLevelAllocatorBundle.GetTopLevelAllocator` | compute_node/TopLevelAllocatorBundle.cpp:16-26 | the region chosen for a thread, in both modes |
| `RegionBundle.TopLevelAllocatorBundle.HugeMalloc` | compute_node/TopLevelAllocatorBundle.cpp:44-57 | the chosen region hands out its best fit, all other regions keep their state, and every region stays in order |
| `RegionBundle.TopLevelAllocatorBundle.Routed` | compute_node/TopLevelAllocatorBundle.cpp:39-42 | dividing a run's first page by the region length finds the region that holds it |
| `RegionBundle.TopLevelAllocatorBundle.CrossOwnershipHugeFree` | compute_node/TopLevelAllocatorBundle.cpp:39-42 | the region that handed the run out gets it back, whoever releases it, and every region stays in order |
| `BundleHistory.OneCall` | compute_node/TopLevelAllocatorBundle.cpp:39-57 | a request is served exactly if the region picked for the thread has a free run that is long enough, with a run apart from all others; a release reaches the region the run came from |
| `BundleHistory.ExecuteAll` | compute_node/TopLevelAllocatorBundle.cpp:16-57 | over any run of requests and releases by any threads on a new bundle, no two runs handed out share a page, whatever their regions, and each goes back to the region it came from |
| `BundleHistory.NeverShared` | compute_node/TopLevelAllocatorBundle.cpp:39-57 | over any run of the bookkeeping no two runs handed out share a page, whatever their regions |
| `RankIndex.FlushGrows` | compute_node/SegregatedPageList.cpp:234-236 | postponed releases can only raise the largest free block |
| `RankIndex.MallocOk` | compute_node/SegregatedPageList.cpp:138-140 | malloc on an indexed page succeeds exactly if its largest free block suffices, and keeps its postponed releases valid |
| `RankIndex.MoveOk` | compute_node/SegregatedPageList.cpp:239-270 | moving a page between sets keeps each page in exactly the set of its rank and no set empty |
| `RankIndex.SegregatedPageList.FlushOnePage` | compute_node/SegregatedPageList.cpp:234-270 | the page's postponed releases are done, its rank is exact, and the index stays in order |
| `RankIndex.SegregatedPageList.ClearLocalFreeBuffer` | compute_node/SegregatedPageList.cpp:203-229 | every page in memory with postponed releases has done them, no other page changes, and the index stays in order |
| `RankIndex.SegregatedPageList.TopRank` | compute_node/SegregatedPageList.cpp:22-25 | the largest rank of the index, or the value read at end() if there is none |
| `RankIndex.SegregatedPageList.TryAllocateWithPreviousPod` | compute_node/SegregatedPageList.cpp:272-302 | serves from the page allocated from last if it has room, bringing it back if it was dropped; its rank may become stale |
| `RankIndex.SegregatedPageList.AdjustPodList` | compute_node/SegregatedPageList.cpp:304-337 | the page allocated from last gets its exact rank, after which all ranks are exact |
| `RankIndex.SegregatedPageList.AllocateOfAList` | compute_node/SegregatedPageList.cpp:125-166 | the first page of the largest rank whose lock is free serves the request and moves to the set of its new rank; nothing happens exactly if all are locked |
| `RankIndex.ScanFails` | compute_node/SegregatedPageList.cpp:21-36 | if all ranks are too small and nothing is postponed, no page has room |
| `RankIndex.TopWidest` | compute_node/SegregatedPageList.cpp:22-40 | a page in the set of the largest rank has the largest free block of all pages in memory |
| `RankIndex.SegregatedPageList.Allocate` | compute_node/SegregatedPageList.cpp:8-44 | returns null exactly if a scan over all indexed pages, postponed releases included, finds no room; otherwise a block of the page allocated from last if that has room, else of a page with the largest free block of all, before postponed releases if that suffices and after them if not; the index stays in order |
| `RankIndex.SegregatedPageList.AddPodAndAllocate` | compute_node/SegregatedPageList.cpp:59-75 | a new page serves the request and becomes the page allocated from last; the index stays in order exactly if the page allocated from last before, if any, is in memory with its exact rank; after a failed allocate, where its only caller calls it, there is none |
| `RankIndex.SegregatedPageList.Free` | compute_node/SegregatedPageList.cpp:175-193 | postpones the release, flushes a full buffer of a page in memory, reports one of a swapped-out page, and keeps the index in order |
| `RankIndex.SegregatedPageList.BenchSwappedPage` | compute_node/SegregatedPageList.cpp:77-97 | a page leaves the set of its rank, where it is found; the page allocated from last is refused |
| `RankIndex.SegregatedPageList.Evict` | compute_node/remon.cpp:532-546 | after eviction the index is in order: the page allocated from last stays, an empty page is dropped, any other page is swapped out |
| `RankIndex.SegregatedPageList.UnbenchSwappedPage` | compute_node/SegregatedPageList.cpp:46-57 | a page that comes back joins the set of its exact rank |
| `RankHistory.LaterSame` | compute_node/SegregatedPageList.cpp:203-270 | doing postponed releases changes neither which blocks are handed out nor their sizes |
| `RankHistory.HandedTracks` | compute_node/SegregatedPageList.cpp:8-44 | the block that allocate hands out was not handed out before and is large enough; no other block of any page changes hands |
| `RankHistory.TracksApart` | compute_node/SegregatedPageList.cpp:8-44 | the blocks handed out lie inside their pages and never overlap |
| `RankHistory.DropTracks` | compute_node/remon.cpp:537-541 | a page that eviction drops has no block handed out |
| `RankHistory.GetBlock` | compute_node/remon.cpp:195-229 | small malloc hands out a new block, from a new page exactly if no indexed page has room |
| `RankHistory.PutBack` | compute_node/SegregatedPageList.cpp:175-193 | free takes back exactly its block, whether or not the buffer is flushed |
| `RankHistory.Leave` | compute_node/remon.cpp:532-546 | eviction, with all its outcomes, takes no block back |
| `RankHistory.Return` | compute_node/SegregatedPageList.cpp:46-57 | activation takes no block back |
| `RankHistory.Execute` | compute_node/SegregatedPageList.cpp:8-337 | over any run of malloc, free, eviction and activation on a new list, no block is handed out twice at the same time, each is large enough, blocks of a page never overlap, and only its own release takes a block back |
| `RandomStreams.DrawsArePower` | experiments/tpch/rnd.c:170-182 | n draws multiply the seed by the n-th power of the multiplier |
| `RandomStreams.NthElement` | experiments/tpch/speed_seed.c:112-136 | the seed after N draws, with no product of 2^63 or more |
| `RandomStreams.Draws64AreAffine` | experiments/tpch/rng64.c:93-101 | n draws of the 64-bit generator are one multiplication and one addition modulo 2^64 |
| `RandomStreams.AdvanceRand64` | experiments/tpch/rng64.c:103-140 | the 64-bit seed after nCount draws |
| `DbgenChunks.SkipMatchesStop` | experiments/tpch/speed_seed.c:159-261 | on the streams that row_stop rounds up, the skip per row equals the rounding exactly if the stream is neither HVAR_SD nor that of the text pool |
| `DbgenChunks.RowsMoveIs` | experiments/tpch/rnd.c:105-144 | any legal rows move a stream that reaches the table by the skip of as many rows |
| `DbgenChunks.SeedTable.AdvanceStream` | experiments/tpch/speed_seed.c:70-83 | exactly one stream moves on by the given number of draws |
| `DbgenChunks.SeedTable.SdPart` | experiments/tpch/speed_seed.c:159-171 | the streams of a part move on by the draws of that many rows |
| `DbgenChunks.SeedTable.SdLine` | experiments/tpch/speed_seed.c:173-198 | the streams of a lineitem move on by the draws of that many orders, and for lineitem alone the two streams of the order too |
| `DbgenChunks.SeedTable.SdOrder` | experiments/tpch/speed_seed.c:200-217 | the streams of an order move on by the draws of that many rows |
| `DbgenChunks.SeedTable.SdPsupp` | experiments/tpch/speed_seed.c:219-232 | the streams of a part's suppliers move on by the draws of that many parts |
| `DbgenChunks.SeedTable.SdCust` | experiments/tpch/speed_seed.c:234-245 | the streams of a customer move on by the draws of that many rows |
| `DbgenChunks.SeedTable.SdSupp` | experiments/tpch/speed_seed.c:247-261 | the streams of a supplier move on by the draws of that many rows |
| `DbgenChunks.SeedTable.SetState` | experiments/tpch/bm_utils.c:559-588 | the streams move on by the draws of all rows before the step's chunk; chunk size and left-over rows |
| `DbgenChunks.SeedTable.DssRandom` | experiments/tpch/rnd.c:96-103 | one draw moves one stream by one and counts it |
| `DbgenChunks.SeedTable.RowStop` | experiments/tpch/rnd.c:115-144 | streams of the table and its child are rounded up to their boundary |
| `DbgenChunks.SeedTable.GenRow` | experiments/tpch/driver.c:304-365 | a row moves every stream by its draws, rounded up where row_stop does |
| `DbgenChunks.SeedTable.GenTbl` | experiments/tpch/driver.c:284-373 | rows move every stream by the sum of their moves |
| `DbgenChunks.ChunkMoves` | experiments/tpch/bm_utils.c:559-588 | whatever legal rows come before a chunk, set_state skips as many draws as they make |
| `DbgenChunks.ChunkAgainstSequence` | experiments/tpch/driver.c:420-445 | below scale 30000, before every chunk, chunked and sequential generation have the same seed on every stream that reaches the table's rows, and the chunk fills the text pool from its first seed; the row that fills the pool may be among those passed over |
| `DbgenChunks.ChunksPartition` | experiments/tpch/driver.c:420-445 | the chunks' row ranges partition the rows of the table |
| `PartSuppliers.FourSuppliers` | experiments/tpch/build.c:58-63 | the four suppliers of a part exist and are different |
| `PartSuppliers.SupplierTwice` | experiments/tpch/build.c:58-63 | for any other number of suppliers that four divides, some part has a supplier twice |
| `PartSuppliers.DrawInRange` | experiments/tpch/rnd.c:193-229 | a draw lies within its bounds |
| `PartSuppliers.LineSupplier` | experiments/tpch/build.c:223-224 | the supplier drawn for a line of an order exists and is one of its part's four |
| `Dates.Julian` | experiments/tpch/bm_utils.c:253-286 | the date of a day number, across any number of years |
| `Dates.Unjulian` | experiments/tpch/bm_utils.c:240-251 | the days of all years before, plus the day of the year |
| `Dates.UnjulianJulian` | experiments/tpch/bm_utils.c:240-286 | julian gives dates that exist, and unjulian undoes it |
| `Dates.JulianUnjulian` | experiments/tpch/bm_utils.c:240-286 | julian undoes unjulian on every date that exists |
| `Dates.DatesInOrder` | experiments/tpch/build.c:246-257 | comparing dates is comparing days |
| `Dates.UptoIs` | experiments/tpch/build.c:359-406 | the table of months agrees with the calendar, leap years included |
| `Dates.LeapIsGregorian` | experiments/tpch/dss.h:401 | the leap year rule agrees with the Gregorian calendar exactly on the years that are no multiple of 400 |
| `Dates.LeapDay` | experiments/tpch/build.c:408-428 | index 60 is 29 February 1992, and four years from 1992 have 1461 days |
| `Dates.MkTime` | experiments/tpch/build.c:408-428 | year, month and day form a calendar date, and it is the date of the index |
| `HttpRead.HttpFileHandle.GetRangeRequest` | duckdb/extension/httpfs/httpfs.cpp:297-305 | a range with both ends included gives exactly the bytes asked for |
| `HttpRead.HttpFileHandle.TakeBuffered` | duckdb/extension/httpfs/httpfs.cpp:411-422 | bytes from the buffer are the file's bytes at the current offset |
| `HttpRead.HttpFileHandle.Refill` | duckdb/extension/httpfs/httpfs.cpp:424-441 | after a refill the window mirrors the file at the current offset |
| `HttpRead.HttpFileHandle.ReadBuffered` | duckdb/extension/httpfs/httpfs.cpp:410-443 | the loop ends with exactly the file's bytes, every request it makes is a range inside the file, and the window mirrors the file |
| `HttpRead.HttpFileHandle.ReadAt` | duckdb/extension/httpfs/httpfs.cpp:377-444 | cached, direct and buffered reads return exactly the file's bytes and leave the offset behind them |
| `HttpRead.HttpFileHandle.ReadNext` | duckdb/extension/httpfs/httpfs.cpp:446-452 | a read at the current offset is cut off at the end of the file |
| `HttpRead.HttpFileHandle.Execute` | duckdb/extension/httpfs/httpfs.cpp:377-498 | any run of seeks and reads inside the file returns what the file itself gives |
| `S3Upload.DoneAccounted` | duckdb/extension/httpfs/s3fs.cpp:332-355 | whichever upload finishes, every part stays accounted for with its own bytes |
| `S3Upload.S3FileHandle.UploadDone` | duckdb/extension/httpfs/s3fs.cpp:332-355 | a finished upload is recorded, and the handle stays in order |
| `S3Upload.S3FileHandle.FlushBuffer` | duckdb/extension/httpfs/s3fs.cpp:358-387 | the buffer of the next part goes on its way as the next part |
| `S3Upload.S3FileHandle.Write` | duckdb/extension/httpfs/s3fs.cpp:825-858 | appends the bytes exactly if they start behind the last byte; anything else is refused and writes nothing |
| `S3Upload.S3FileHandle.FlushAllBuffers` | duckdb/extension/httpfs/s3fs.cpp:392-411 | what is left in the buffer goes on its way as the last part |
| `S3Upload.S3FileHandle.FinalizeMultipartUpload` | duckdb/extension/httpfs/s3fs.cpp:413-444 | the list has every part number without a gap, and the parts together are all bytes written |
| `S3Upload.UploadFile` | duckdb/extension/httpfs/s3fs.cpp:293-444 | for any sequential writes and any order in which uploads finish, the completed upload is the bytes written, in parts of the full size but for the last |
| `UrlCoding.UrlEncode` | duckdb/extension/httpfs/s3fs.cpp:117-140 | the loop encodes byte by byte |
| `UrlCoding.UrlDecode` | duckdb/extension/httpfs/s3fs.cpp:98-115 | the loop decodes one character or one escape at a time; malformed escapes give what reading a hexadecimal number leaves, or the unset variable |
| `UrlCoding.DecodeEncode` | duckdb/extension/httpfs/s3fs.cpp:98-140 | decoding undoes encoding on every byte string |
| `UrlCoding.EncodeOne` | duckdb/extension/httpfs/s3fs.cpp:117-140 | a byte stands for itself exactly if it is unreserved, or a slash that is not encoded; any other becomes a percent sign and its two hexadecimal digits |
| `UrlCoding.EncodeJoins` | duckdb/extension/httpfs/s3fs.cpp:117-140 | the encoding of a text is put together from those of its parts |
| `UrlCoding.UnreservedStay` | duckdb/extension/httpfs/s3fs.cpp:117-140 | a text of unreserved characters is sent as it is |
| `UrlCoding.UnreservedAre` | duckdb/extension/httpfs/s3fs.cpp:124-126 | letters, digits, hyphen, dot, underscore and tilde are unreserved, and nothing else |
| `UrlCoding.EncodeIsSafe` | duckdb/extension/httpfs/s3fs.cpp:117-140 | what is sent has only unreserved characters, percent signs and, unless encoded, slashes |

## Left out

- Sockets, mmap, mprotect, signal handling, file I/O and RAM polling: taken as transfer of words, a zeroing release, and flags that say what is full or over its limit.
- Failure in the middle of an exchange with a memory node, and interleavings inside one exchange.
- Contended locks: waiting ends with the lock taken; the retry limit of tryAllocateWithPreviousPod, which drops a served block, is not modelled.
- Asynchronous range calls (promote, demote, swap, unmap a range), asyncSwapOutPod and preswap.
- remon_cleanup_evicted on a page with postponed releases; without them it is a step of `Paging`.
- Releases on heap pages in cache states: prefetch does not produce such pages.
- leftCoalescing, coalescingOnePodLeft, dropMemoryStayLocal with trim, TopLevelAllocatorBundle::trim and IPCSharedMemory: not called, or only debug and trimming helpers.
- Error reports that cannot occur under the invariants (missing rank entry, missing size class, unknown part number) have no branch of their own.
- Vmm.RemonVmm.FlushFreeBuffer: works on a copy of the page that is written back at the end; the source releases in place.
- PageRuns.TopLevelAllocator.AllocateNPages: requires a size class of at least n, as the source does by dereferencing lower_bound.
- RankIndex.SegregatedPageList.Allocate: on an empty index, where the source dereferences begin(), the key read there is a parameter, required to be less than the request; and no lock of a page of the largest rank is held.
- ResidencyProofs.DropKeeps: for a huge page, what the application owns is told by the allocator's flag; that the flag is that of a run in use is `DroppedRuns.DroppedIffUnused`.
- Lru.LruList.UpdateLRUList: on an empty list, where the source calls front(), the value read is taken to be no page.
- Lru.LruList.TailPodInLRUList: on an empty list, where the source calls back(), the value read is taken to be no page.
- DbgenChunks.ChunkAgainstSequence: not promised for scales of 30000 and above, where the source draws two streams with the 64-bit generator.
- RegionBundle.TopLevelAllocatorBundle.LoopGet: spinning over busy regions ends with one that is idle, given as a parameter.
- RingBuffer.PodBoundedBuffer.AddPodToBuffer: the waits of producer and consumer are preconditions; the page comes from the caller.
- Pages beyond 2^31 words, and conversion of page counts through double precision in hugeMalloc.
- RANDOM64 streams at scale 30000 and above in chunked generation: the skip does not follow generation there.
- Contents of generated rows: a row enters by the streams it draws from.
- PartSuppliers.UnifInt: the two floating-point operations are exact.
- bcd2.c and the other utilities of the generator; row and table output.
- HttpRead.HttpFileHandle.ReadAt: reads that run past the end of the file, where the server's answer is an error.
- HTTP headers, redirects, retries and the metadata cache; S3 signing, listing and glob matching.
- S3Upload.S3FileHandle.Write: at most 65536 parts, as part numbers have 16 bits; S3 allows 10000.
- Failing uploads, and the limit on buffers in use.
- UrlCoding.UrlDecode: "0x" after a percent sign, on which C libraries differ, counts as no number.
