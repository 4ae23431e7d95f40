# r-alloc in Dafny

This project is a Dafny model of r-alloc's allocation engine. It proves
properties of two heap managers and of the two arena layers built on them.

- `allocator.c` is a first-fit heap over one page; the model is in
  `first_fit_heap.dfy`.
  - At start-up the whole page is one free block.
  - `r_alloc` walks the block list to the first free block that is large
    enough. It splits that block when the leftover exceeds one header.
  - `r_free` steps back one header to the block and marks it free. It then
    merges every consecutive free block that follows, and never a predecessor.
- `src/allocator.cpp` is a 64 MiB heap with an allocation profiler; the model
  is in `profiled_heap.dfy`.
  - It splits a block only when the leftover exceeds one header plus 32 bytes.
  - Its `r_free` only flips the block's flag.
  - With profiling on, the profiler keeps a shadow map from each live pointer
    to its birth record (time, call site, requested size).
  - When a pointer in the map is freed and the log file is open, the profiler
    appends one `(site, size, lifespan)` record after the log's column header.
- `src/arena.cpp` is the full arena layer over the profiled heap; the model is
  in `slab_arena.dfy`.
  - Transient and persistent arenas bump-allocate from their region.
  - Intermediate arenas keep a slab cache: eight size classes of 32 << i
    bytes, each with a LIFO free list.
  - An empty list is refilled by carving 64 slots out of the bump region. The
    first slot is returned; slots 63 down to 1 go on the list, slot 63 at the
    head.
  - `r_reset` rewinds transient and intermediate arenas, and also empties an
    intermediate arena's lists.
- `src/arena.c` is the earlier arena layer over the first-fit heap; the model
  is in `bump_arena.dfy`.
  - Every policy bump-allocates.
  - Only a transient arena can be reset.

`heap_layout.dfy` holds what both heaps share.
- The block list is a `seq<Chunk>` of payload size and in-use flag, in address
  order.
- A block's header address is the sum of header plus payload over the blocks
  before it. So the list mirrors the memory layout by construction.
- The module also defines first-fit choice, the split, marking free, forward
  coalescing and the live set: the payload addresses of the in-use blocks.

`arena_base.dfy` holds the arena types from `src/arena.h` and the rounding and
bump step that both arena layers share. Each heap and arena is a class whose
fields the methods update in place. Each method's loop is proved equal to a
pure function of the old state, and the lemmas are stated about those
functions.

An intermediate arena's state also records, per class, where each chunk of
64 slots was carved. The C record has no such field: the record is the
model's account of which addresses are slots of which class. The arena
invariant says that every chunk lies inside the part of the region already
bumped past, and that every entry of list `i` is a slot of a chunk carved for
class `i`. `r_arena_free` is allowed a pointer only if it is such a slot of the
class its size names.

Addresses are offsets from the start of the heap region. The header size
(`sizeof` of the block header) and the arena record size are parameters.

Behaviour that the model keeps as written:
- `(size + 7) & ~7` wraps to 0 for a request within 7 bytes of 2^64. A bump
  allocation of such a size succeeds and reserves nothing (`ArenaBase.BumpWrapsToEmpty`).
  An intermediate arena serves such a request from the 32-byte class, while
  `r_arena_free` given the same size finds no class and returns at
  `src/arena.cpp:111` (`SlabArena.WrappedSizeChangesClass`).
- In `src/arena.c`, `create_arena` passes its `size_t` capacity to the
  `uint32_t` parameter of `r_alloc`. The backing request is therefore the
  capacity modulo 2^32, while the arena records the full capacity.
- The unsigned subtraction `now - start_time` wraps modulo 2^64.
  `ProfiledHeap.Lifespan` states this, and that the result is the plain
  difference whenever `start <= now`.

Of the two heaps, only `allocator.c` coalesces, and it has no profiler.
`src/allocator.cpp` profiles, and its `r_free` does not coalesce
(`src/allocator.cpp:109-111`).

## Model

| member | source | states |
|---|---|---|
| HeapLayout.FirstFit | allocator.c:44-45 | The chosen block is free and at least the request, every earlier block is not, and none is chosen only when no block qualifies |
| HeapLayout.TakeBlock | allocator.c:47-66 | Block k is replaced by an in-use block of the request and a free block of the leftover minus one header when it splits, and by itself in use otherwise; the list grows by one exactly when it splits, and the taken block holds at least the request and at most the old block |
| HeapLayout.AllocBlocks | allocator.c:41-74 | The first fitting block taken, or the list unchanged when none fits; the list grows by at most one block |
| HeapLayout.AllocAddr | allocator.c:41-74 | One header past the first fitting block's header, or NULL; a returned pointer is never below one header |
| HeapLayout.AllocIsFirstFit | allocator.c:41-74 | An allocation returns NULL exactly when no block is free and large enough, and then leaves the list unchanged; otherwise it returns the payload of the first such block |
| HeapLayout.TakeBlockShape | allocator.c:47-66 | After a split the taken block has exactly the requested size and is followed by a free block of the leftover size, larger than the slack. Without a split the whole block is taken at its old size. It is marked in use, and all other blocks are the old ones |
| HeapLayout.TakeBlockSplitOffset | allocator.c:49-51 | The split-off block's header starts right after the requested bytes of the taken payload |
| HeapLayout.TakeBlockOffsetsBefore | allocator.c:56-59 | Taking a block moves no block up to and including it |
| HeapLayout.TakeBlockOffsetsAfter | allocator.c:54 | The old successors keep their addresses; after a split each sits one place later, behind the new block linked in before them |
| HeapLayout.TakeBlockInPlace | src/allocator.cpp:62-70 | Relinking the split-off block with the taken block's size set to the request, then clearing the free flag, gives the same list as the split |
| HeapLayout.TakeBlockConserves | allocator.c:53 | Taking a block, with or without a split, keeps the bytes the list spans (sizes plus one header per block) |
| HeapLayout.TakeBlockLive | allocator.c:56-57 | The taken block's payload was not live and becomes the one new live payload |
| HeapLayout.AllocEffect | allocator.c:41-74 | An allocation conserves the region's bytes. A successful one returns a pointer that was not live and adds exactly that pointer to the live set; a failed one changes nothing |
| HeapLayout.PayloadBeforeLater | allocator.c:49-51 | Addresses grow along the list: a block's payload ends at or before every later header |
| HeapLayout.PayloadsDisjoint | allocator.c:49-51 | The payloads of two different blocks do not overlap, and every payload lies inside the region the list spans |
| HeapLayout.Release | allocator.c:80 | Block k is flagged free with its size kept, and every other block is unchanged |
| HeapLayout.ReleaseKeepsLayout | allocator.c:80 | Marking a block free keeps every address and the bytes spanned |
| HeapLayout.ReleaseLive | allocator.c:80 | Marking a block free removes exactly its payload from the live set |
| HeapLayout.LiveMember | allocator.c:57 | A block's payload is live exactly when the block is in use |
| HeapLayout.RunEndStops | allocator.c:83 | The merge run consists of free blocks only and stops at the first in-use block or at the end of the list |
| HeapLayout.MergeNext | allocator.c:85-86 | One merge step: block k keeps its flag and grows by one header plus its successor's payload, the successor leaves the list, and the blocks before and after are unchanged |
| HeapLayout.Coalesce | allocator.c:83-87 | Merge steps while block k has a free successor: the blocks before k and k's flag are unchanged, k never shrinks, the list never grows, and afterwards k's successor, if any, is in use |
| HeapLayout.MergeNextLayout | allocator.c:85-86 | One merge step keeps the bytes spanned and the merging block's address |
| HeapLayout.MergeNextKeeps | allocator.c:85-86 | One merge step keeps the bytes spanned and the live set |
| HeapLayout.MergeNextRun | allocator.c:83-87 | One merge step shortens the free run still to be absorbed by one block and leaves the final coalesced list the same |
| HeapLayout.CoalesceShape | allocator.c:83-87 | Coalescing makes block k absorb exactly the free run after it, one header plus the payload of each; earlier blocks and those after the run are untouched |
| HeapLayout.CoalesceNoRun | allocator.c:83 | With no free block right after it, coalescing changes nothing |
| HeapLayout.CoalesceKeeps | allocator.c:83-87 | Coalescing keeps the bytes spanned and the live set |
| HeapLayout.BlockOf | allocator.c:79 | Stepping back one header from a payload pointer finds the block whose payload it is |
| HeapLayout.PayloadRoundTrip | allocator.c:68 | The pointer returned for a block, stepped back one header, is that block again |
| HeapLayout.LiveIsPayload | allocator.c:79 | Every live pointer is the payload of an in-use block |
| FirstFitHeap.Heap.Init | allocator.c:31-36 | After start-up the list is one free block of page size minus one header, with no successor |
| FirstFitHeap.InitBlocks | allocator.c:31-36 | The list after start-up is one free block whose payload is the page minus one header |
| FirstFitHeap.FreeBlocks | allocator.c:76-89 | NULL changes nothing; otherwise the pointer's block is marked free and coalesced forward, so the list never grows and is never emptied |
| FirstFitHeap.InitCoversPage | allocator.c:31-36 | The initial block covers the page and nothing is live |
| FirstFitHeap.Heap.Alloc | allocator.c:41-74 | The list walk returns the first-fit payload or NULL and leaves the list as the split rule without slack says; the page stays covered |
| FirstFitHeap.AllocSplitRule | allocator.c:47 | The list grows by one block exactly when the chosen block exceeds the request plus one header |
| FirstFitHeap.Heap.Free | allocator.c:76-89 | NULL changes nothing. Otherwise the block is marked free and every consecutive free successor is merged into it; the page stays covered |
| FirstFitHeap.FreeShape | allocator.c:79-87 | After a free, the predecessors are untouched and the freed block is free. It has grown by one header plus the payload of each block in the free run that followed it, and everything from the first in-use block on is kept |
| FirstFitHeap.FreeMergesForwardOnly | allocator.c:83-87 | For blocks A free, B in use and C free, freeing B merges B and C and leaves A separate |
| FirstFitHeap.FreeEffect | allocator.c:76-89 | A free conserves the page's bytes and removes exactly the freed pointer from the live set |
| FirstFitHeap.FreedBlockReused | allocator.c:44-45 | After a free, a request no larger than the freed block is served from it or from an earlier block, at or below the freed address |
| FirstFitHeap.AllocFreeRoundTrip | allocator.c:76-87 | When the chosen block's successor is in use or absent, freeing the returned pointer at once restores the list exactly, split or not |
| FirstFitHeap.TakeThenFree | allocator.c:76-87 | The same round trip for a given free block that fits |
| FirstFitHeap.ReuseAfterFree | allocator.c:44-45 | On a fresh page, allocating 64 twice, freeing the first and allocating 64 again returns the first pointer, one header into the page |
| ProfiledHeap.Lifespan | src/allocator.cpp:97 | The lifespan added to the start time gives the end time modulo 2^64, and it is the plain difference when start <= now |
| ProfiledHeap.Born | src/allocator.cpp:75-81 | With profiling on, a returned pointer's entry becomes the birth record, replacing any older one; at most that one key is added |
| ProfiledHeap.Died | src/allocator.cpp:94-106 | With profiling on, the freed pointer has no entry afterwards; no entry is added or changed, and every other entry stays |
| ProfiledHeap.Logged | src/allocator.cpp:94-104 | With profiling on, the log file open and the pointer in the shadow map, exactly one record is appended: the entry's site and size and the lifespan `now - start_time`; in every other case the log is unchanged |
| ProfiledHeap.Heap.Init | src/allocator.cpp:39-55 | One free block of 64 MiB minus one header, an empty shadow map, and a log holding the column header exactly when profiling is on and the file opened |
| ProfiledHeap.Heap.Alloc | src/allocator.cpp:57-88 | First fit with a 32-byte split slack. With profiling, a success (over)writes the shadow entry for the pointer with time, site and requested size; the log is unchanged and the invariant is kept |
| ProfiledHeap.Heap.TakeAt | src/allocator.cpp:59-83 | The found branch of `r_alloc`: splitting or taking the first fitting block in place gives the first-fit list and pointer, the shadow map gains the birth record when profiling, and the invariant is kept |
| ProfiledHeap.Heap.Free | src/allocator.cpp:90-112 | NULL changes nothing. Otherwise only the block's flag is cleared. A profiled pointer in the map loses its entry and, when the file is open, appends one record of site, size and lifespan; the invariant is kept |
| ProfiledHeap.AllocPreserves | src/allocator.cpp:75-81 | After an allocation, the shadow map still holds exactly the live pointers when profiling, and nothing otherwise |
| ProfiledHeap.FreePreserves | src/allocator.cpp:94-107 | After a free, the shadow map still mirrors the live set and the log stays a header followed by records |
| ProfiledHeap.ProfileRoundTrip | src/allocator.cpp:74-106 | On any consistent heap, freeing the pointer of a successful allocation restores the shadow map exactly and, with the log open, appends exactly the record of that allocation's site, requested size and lifespan |
| ProfiledHeap.FreeOnlyFlipsFlag | src/allocator.cpp:109-111 | A free keeps the number of blocks, every size and every address, and changes only the freed block's flag |
| ProfiledHeap.ProfileLifetime | src/allocator.cpp:94-106 | On a fresh profiled heap with the log open, an allocation then a free leaves an empty shadow map and the log header plus one record with the site, the requested size and the lifespan |
| ArenaBase.AlignUp8 | src/arena.cpp:47 | The result is the least multiple of 8 not below the size, or 0 when the 64-bit sum wraps |
| ArenaBase.Bump | src/arena.cpp:50-57 | current and size advance together; a success returns the old current and advances by n within base + capacity; a failure happens only when n does not fit and leaves the cursor unchanged |
| ArenaBase.BumpAlloc | src/arena.c:16-38 | The request rounded up to a multiple of 8, then bumped: the cursor moves by a multiple of 8, and on success by less than 8 bytes past the request unless the rounding wraps |
| ArenaBase.BumpAllocEffect | src/arena.cpp:50-57 | A bump succeeds exactly when the rounded size fits below base + capacity. It then returns the old current and advances current and size by the rounded size; on overflow nothing changes. The cursor invariant is kept |
| ArenaBase.BumpAdjacent | src/arena.cpp:51-55 | Two successive bumps return adjacent ranges, the second starting where the first's rounded size ends |
| ArenaBase.BumpWrapsToEmpty | src/arena.cpp:47 | A request within 7 bytes of 2^64 rounds to 0, succeeds and reserves nothing |
| ArenaBase.BumpExample | src/arena.c:17-25 | In a 1024-byte arena, requests of 10, 20 and 30 return base, base+16 and base+40 and leave current at base+72; 1000 more fail |
| SlabArena.SlabIndex | src/arena.cpp:7-17 | The class index is -1 or one of the eight classes |
| SlabArena.ClassSize | src/arena.cpp:19-21 | The slot size of class i, 32 shifted left by i, at least 32 |
| SlabArena.ClassSizeTable | src/arena.cpp:19-21 | The slot sizes are 32, 64, ..., 4096, each twice the previous |
| SlabArena.SlabIndexSmallestFit | src/arena.cpp:7-21 | The index is -1 exactly above 4096; otherwise its slot size holds the size and the next smaller class's does not |
| SlabArena.SlabIndexMonotone | src/arena.cpp:7-17 | A larger size never gets a smaller class, and is too big whenever a smaller one is |
| SlabArena.AlignKeepsClass | src/arena.cpp:110 | For every size below 2^64 - 7, the unrounded size used by free and the rounded size used by allocation name the same class |
| SlabArena.WrappedSizeChangesClass | src/arena.cpp:47 | At 2^64 - 1 bytes the rounded size names the 32-byte class while the unrounded size names none |
| SlabArena.CarvedSlots | src/arena.cpp:83-87 | Carving m slots leaves m list entries, entry j being slot m - j |
| SlabArena.CarveLayout | src/arena.cpp:79-88 | The 63 carved slots lie inside the chunk after the returned first slot, slot 63 at the head, each one slot below the previous |
| SlabArena.SlotInArena | src/arena.cpp:79-88 | In a valid intermediate arena, every slot of class i lies, whole, inside the part of the region already bumped past |
| SlabArena.CarvedAreSlots | src/arena.cpp:83-88 | The slot returned by a carve and every slot it lists are slots of the newly recorded chunk |
| SlabArena.PopKeepsValid | src/arena.cpp:65-69 | Popping a list keeps the invariant, and the popped slot lies inside the part of the region bumped past |
| SlabArena.CarveKeepsValid | src/arena.cpp:71-88 | Carving a chunk that fits keeps the invariant: the new chunk lies below the advanced cursor, and the new list holds only its slots |
| SlabArena.AllocKeepsValid | src/arena.cpp:45-101 | An allocation keeps the arena invariant, so every listed slot stays a slot of its own class. A returned range of the rounded size lies inside the part of the region already bumped past, and a failure changes nothing |
| SlabArena.AllocatedMayBeFreed | src/arena.cpp:59-90 | Whatever an intermediate arena returns for a size below 2^64 - 7 is a slot of that size's class, so handing it back with that size is allowed |
| SlabArena.FreeRefusesMisaligned | src/arena.cpp:103-118 | After the first 40-byte request of a fresh 4096-byte arena, base + 64 may be handed back as a 64-byte slot and base + 8 may not |
| SlabArena.FreeKeepsValid | src/arena.cpp:103-118 | A free of an allowed pointer keeps the arena invariant and never moves the cursor or changes the chunk record |
| SlabArena.ResetKeepsValid | src/arena.cpp:120-130 | A reset keeps the invariant, rewinds transient and intermediate arenas to base with size 0, and leaves a persistent arena exactly as it was |
| SlabArena.FreeThenAllocReuses | src/arena.cpp:113-117 | LIFO: after a slot is freed, the next allocation of the same class returns it and restores the arena's fields |
| SlabArena.CarveOnEmptyList | src/arena.cpp:71-88 | On an empty list the call fails unchanged without room for 64 slots. With room it returns current, advances by 64 slots, lists slots 63..1 with slot 63 at the head, records the chunk, and leaves the other lists alone |
| SlabArena.ResetThenAllocReturnsBase | src/arena.cpp:120-130 | After a reset, the next request that fits is served from base, for transient and for intermediate arenas |
| SlabArena.SlabAlloc | src/arena.cpp:59-90 | NULL for a rounded size over 4096; otherwise the head of the class's list, popped; otherwise, if 64 slots fit, a fresh chunk at current whose first slot is returned and slots 63..1 listed. The cursor never moves back, a failure changes nothing, and a success means the size has a class |
| SlabArena.ArenaAlloc | src/arena.cpp:45-101 | `r_arena`: the slab path for intermediate arenas and the rounded bump for the others; the cursor never moves back and a failure changes nothing |
| SlabArena.ArenaFree | src/arena.cpp:103-118 | `r_arena_free`: NULL, a non-intermediate arena or a size over 4096 change nothing; otherwise the pointer is pushed on its class's list. The cursor, the chunk record and every other class's list are unchanged |
| SlabArena.ArenaReset | src/arena.cpp:120-130 | `r_reset`: a transient arena goes back to base with size 0; an intermediate one also gets empty lists and an empty chunk record; a persistent one is unchanged. size never grows and the eight lists are kept |
| SlabArena.Arena.Init | src/arena.cpp:33-36 | A new record has current = base, size 0 and the given capacity and policy |
| SlabArena.Arena.InitSlabCache | src/arena.cpp:23-27 | All eight free lists are empty |
| SlabArena.Arena.Alloc | src/arena.cpp:45-101 | The pointer and the new fields are those of the bump or slab path for the arena's policy, and the invariant is kept |
| SlabArena.Arena.CarveSlots | src/arena.cpp:83-87 | The loop pushes slots 1 to 63 in front of the class's list |
| SlabArena.Arena.Free | src/arena.cpp:103-118 | NULL, a non-intermediate arena or a size over 4096 change nothing; otherwise the pointer is pushed on its class's list. The invariant is kept |
| SlabArena.Reset | src/arena.cpp:120-130 | NULL is ignored; otherwise the fields become the reset state and the invariant is kept |
| SlabArena.CreateArena | src/arena.cpp:29-43 | NULL exactly when the record allocation fails, with the heap unchanged. Otherwise the record and region come from two heap allocations, with current = base, size 0, the given capacity and policy, no chunk recorded, and empty lists for an intermediate arena |
| SlabArena.Destroy | src/arena.cpp:132-137 | NULL is ignored; otherwise the region's block and then the record's block are marked free, with the profiler's death records for both |
| SlabArena.SlabScenario | testSlab.js:18-35 | On the fields of a fresh 4096-byte intermediate arena, two 40-byte requests return base and base + 63 * 64, the first may be handed back, and the next 40-byte request returns it |
| SlabArena.SlabReuse | testSlab.js:18-35 | In a 4096-byte intermediate arena, two 40-byte requests are served from the 64-byte class, the second 63 slots after the first; after the first is freed, the next 40-byte request returns it |
| BumpArena.ResetCursor | src/arena.c:40-49 | A transient arena goes back to base with size 0; any other arena's cursor is unchanged; size never grows |
| BumpArena.ResetEffect | src/arena.c:40-49 | A reset keeps the cursor invariant. A transient arena then serves the next fitting request from base, and any other arena behaves as if no reset happened |
| BumpArena.DestroyedBlocks | src/arena.c:51-56 | Freeing the region and then the record conserves the page's bytes and removes exactly those two pointers from the live set |
| BumpArena.Arena.Init | src/arena.c:7-11 | A new record has current = base, size 0 and the given capacity and policy |
| BumpArena.Arena.Alloc | src/arena.c:16-38 | Both policy branches give the bump result for the rounded size, and the cursor invariant is kept |
| BumpArena.Reset | src/arena.c:40-49 | A transient arena is rewound to base with size 0; NULL and other arenas are untouched |
| BumpArena.CreateArena | src/arena.c:5-14 | The record and the region come from two heap allocations, the region's request reduced modulo 2^32, with current = base, size 0 and the given capacity and policy |
| BumpArena.Destroy | src/arena.c:51-56 | NULL is ignored; otherwise the region's block and then the record's block are freed and coalesced |
| BumpArena.ResetReuse | test.js:26-45 | In a 512-byte transient arena, two 64-byte requests return adjacent blocks; after a reset the next one returns the first address again |

## Left out

- N-API bridging (`src/addon.cpp`, `src/addon.c`, `addon.c`) and the JavaScript benchmarks and servers are not modelled. They marshal arguments and carry no allocation logic. The scenarios of `test.js` and `testSlab.js` appear only as the scenario methods above.
- `mmap`, `getpagesize` and the `MAP_FAILED` path are not modelled. The region is a given size: the page size is a parameter, and the profiled heap uses its 64 MiB constant.
- Console output (`printf`, `perror`, the overflow and reset warnings) is not modelled. Neither is the CSV text of the training log: the log is a sequence of header and record values.
- `fopen` is not modelled: whether the log file opened is a parameter of start-up.
- `clock_gettime` is not modelled: times are parameters.
- The byte sizes of `struct heapchunk_t`, `Block` and `arena_t`, and their alignment, are kept abstract as parameters.
- `r_defrag` is declared in `src/allocator.h:9`, but no implementation is part of this model.
- Memory contents are not modelled: payload bytes, the arena record stored in its heap block, and the slab links overlaid on freed slots. Free lists are plain sequences, so the model does not capture a user write clobbering a listed slot.
- Undefined-behaviour misuse becomes preconditions, not checked errors. This covers freeing a pointer that is not a payload of the heap, a freed pointer whose block was absorbed by a merge, and a pointer handed to `r_arena_free` that is not a slot of a chunk carved for the class its size names.
- The unchecked region allocation of `create_arena` in `src/arena.cpp:32` is a precondition: when the record allocation succeeds, so does the region's. In `src/arena.c`, both allocations are required to succeed.
- The `site_id` parameter of `r_arena` is unused and dropped. The mismatch between `src/arena.h:34` and `src/arena.cpp:45` has no behaviour to model.
- `my_heap.avail` is set at start-up and never read again. The model keeps it and shows that it does not change.
- The `uint32_t` block sizes of `allocator.c` are modelled as unbounded naturals. They agree with the code while the page is smaller than 4 GiB, because every size is bounded by the page.
- Pointer arithmetic is on unbounded naturals, so an address overflowing the machine word is not modelled.
- The block looked up by `r_free` is found by searching the list for the header one header below the pointer. This stands in for the pointer subtraction and is equivalent for every payload pointer.
