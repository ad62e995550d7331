# The kernel heap and the number printers, verified

This project models the memory allocator of the kernel, `src/mm/malloc.c` (dlmalloc 2.8.6) on top of `sbrk` from
`src/mm/heap.c`, and the integer printers of `src/lib/io/printf.c`, and proves what the allocator's own check
routines assert, what its documentation promises its callers, and that the printed text reads back.

`dafny verify dfyconfig.toml` checks everything.

## What is modelled

The configuration is the one this kernel builds: AArch64 (8-byte `size_t`, wrap-around modulo 2^64 written out),
alignment 16, `HAVE_MMAP 0`, no locks, no footers, no mspaces, `sbrk` as the one source of memory, `DEBUG` and the
RTCHECKs on. The bin macros are the generic, branch-free ones.

* **Memory** is word-addressed: a map from word addresses to words (`Memory`), with a byte view of the payloads
  (`Bytes`). `malloc_state` lies at address 0 of that memory, below every chunk, so that links to bin headers and to
  chunks are the same kind of word. Its scalar fields are fields of the class `HeapState.Heap`, together with
  `cur_brk`.
* **Chunks** are a ghost map from address to size, CINUSE and PINUSE, tied to the head and foot words of memory
  (`Tiling`). The invariant says that they tile the segment exactly, that the tags of neighbours agree, that no two
  free chunks are adjacent (top counts as free), and that every free chunk repeats its size in its last word.
* **The index** of free chunks (`Index`) is one representation of a finite map from addresses to sizes: 32 circular
  lists (`Rings`; valid only while the map bit is set), 32 bitwise tries (`Tries` as values, `TrieLinks` in memory)
  and the two bitmaps.
* **The live blocks** are a ghost map from chunk address to size: exactly the chunks in use.

`Heap.Inv(hole, orphan)` is the whole invariant with two chunks exempt: `hole`, a chunk still tagged in use that is
live no more (its head word may be stale, as between two `set_inuse` calls), and `orphan`, a free chunk in no bin. An
operation such as `dlfree` is a sequence of small methods, each of which moves from one such state to another
(`HeapChunks`, `HeapReturns`, `HeapResizes`, `HeapRelays`), so that no branch of the code needs a proof of the whole
invariant. RTCHECKs and assertions are `assert` statements at the places where the code has them; `hide` statements
keep the definitions a body does not need out of its proof.

The modules follow the program: `Bits` and `BinIndex` for the bitmap and bin-index macros, `HeapBins`, `HeapTrees`,
`HeapUnlink` and `HeapRelink` for the insert and unlink macros, `HeapFit` and `HeapSearch` for the best-fit walks,
`HeapSys` for `sbrk`, `sys_alloc` and `sys_trim`, `HeapMalloc`, `HeapFree`, `HeapRelease`, `HeapCalloc`,
`HeapRealloc`, `HeapMemalign`, `HeapIalloc` and `HeapBulk` for the entry points, `HeapChecks`, `HeapInspect`, `HeapAudit`
and `HeapInfo` for the check routines and `mallinfo`, `HeapExact`, `HeapHistory`, `HeapTables` and `HeapRuns` for what
holds over several calls.

The contracts of the entry points relate a `HeapViews.View` before the call to one after it: the live blocks and the
chunks, what is binned, in which order chunks of one size wait (`HeapQueues`), dv, top, and the accounts with the
system. `Allocated`, `FreedTo`, `ReallocatedTo`, `Aligns`, `Aggregated` and `BulkFreedTo` are these relations.

## Main results

* **Every run** (`HeapRuns.Run`): from the untouched kernel state, any sequence of malloc, calloc, free, realloc,
  memalign, independent_calloc, independent_comalloc, bulk_free, trim and stores into blocks, with live or null
  pointers, keeps the heap well formed; no assertion and no RTCHECK fails on the way; it is a chain of states in which
  each call does exactly what its contract says; and what the callers see is a table of byte arrays that change only
  when their owners store into them, in which a call fails exactly when the heap before it has no room.
* **Canonical form** (`Tiling.Canonical`): chunks, free runs and top are a function of the live blocks alone. Hence
  free after malloc restores the free runs whichever source served (`HeapHistory.MallocThenFree`), the order of frees
  does not matter, and bulk_free leaves what single frees leave, in the bins too.
* **Best fit** (`HeapMalloc.Malloc`): the chunk that serves a request is the one the policy names, the smallest in the
  whole heap that fits when it comes from a bin, and among those of its size the newest of a small bin or the oldest
  of a tree bin; the system is asked only when nothing free can serve, and for no more than that takes; null means that
  the system denied the request too.
* **Nothing left open** (`HeapExact.MallocDetermined`, `HeapExact.FreeDetermined`, `HeapExact.ResizeDetermined`): what
  these contracts say determines the address, the sizes, dv, the bins with the order in them, top and the accounts:
  any two outcomes that meet the contract for the same heap are the same.
* **Index** (`Index.IndexInsertTree`, `Index.IndexRemoveTree` and their small-bin partners; `HeapInspect.BinFind`): each
  link operation changes the represented set by exactly one chunk, and `bin_find` finds exactly that set.
* **One segment** (`HeapSys.AddSpace`): with `sbrk` used by no one else the segment is always [base, break);
  `add_segment` and `prepend_alloc` are unreachable.
* **Self-check** (`HeapAudit.CheckMallocState`): the allocator's own check of the whole state passes in every
  well-formed heap, and `HeapInfo.InternalMallinfo` balances.
* **Printing** (`Printf`): for every length modifier and every value of its type, what is printed reads back to the
  value (`Printf.UnsignedReads`, `Printf.SignedPrinted`), has no leading zero, and is counted right.

Where code and documentation differ the model follows the code. `%hhd` and `%hd` mask the argument and so lose the
sign the C standard keeps: `Printf.ShortPrinted` says exactly when the right number is printed, and
`Printf.ShortPrintedOnce` is an instance of the difference. `%#o` of zero prints `00` where the standard asks for `0`
(`Printf.SecondZero`). The doubling loop of `internal_memalign` ends exactly for alignments up to 2^63
(`HeapMemalign.DoublingEnds`), and `ialloc` computes the size it needs exactly when the sum does not wrap
(`HeapIalloc.OverflowCondition`), which it does not check. `internal_memalign` gives back a tail only when it exceeds
MIN_CHUNK_SIZE, so a block may have MIN_CHUNK_SIZE bytes to spare, one unit more than malloc leaves.

## Model

| member | source | states |
|---|---|---|
| `Bits.ShrIsDiv` | src/mm/malloc.c:2888-2905 | a right shift by n is the quotient by 2^n |
| `Bits.LeastBitIsLowest` | src/mm/malloc.c:2938 | `x & -x` is the power of two at the lowest set bit of x, for every non-zero 32-bit word |
| `Bits.LeftBitsOfBit` | src/mm/malloc.c:2941 | `left_bits` of bin i's bit is the mask of exactly the bins above i |
| `Bits.Bit2IdxLine` | src/mm/malloc.c:2976-2986 | one line of the branch-free index computation shortens the run of ones by what it adds to the index |
| `Bits.ComputeBit2Idx` | src/mm/malloc.c:2976-2986 | the generic branch-free form maps 2^i back to i, for all 32 bits |
| `Bits.IsMarkedBit` | src/mm/malloc.c:2926-2935 | the marked tests read bit i of the map |
| `Bits.LowestMarked` | src/mm/malloc.c:4471-4479 | `least_bit` and `compute_bit2idx` together give the lowest marked bin of a non-zero map: it is marked and none below it is |
| `BinIndex.TreeBinsOrdered` | src/mm/malloc.c:2918-2920 | a size lies in the range of at most one tree bin, and a larger size in no earlier one |
| `BinIndex.TreeIndexLine` | src/mm/malloc.c:2889-2905 | one line of `compute_tree_index`: the wrapped 32-bit difference, shifted and masked, is the shift width exactly when Y is below the bound, and Y is scaled accordingly |
| `BinIndex.TopTwoBits` | src/mm/malloc.c:2889-2905 | the position of the top bit and the bit below it select the one bin whose size range holds the size |
| `BinIndex.IndexOfTopBits` | src/mm/malloc.c:2889-2905 | the middle branch of `compute_tree_index` gives the bin i with minsize(i) <= S < minsize(i+1) |
| `BinIndex.ComputeTreeIndex` | src/mm/malloc.c:2889-2905 | for every 64-bit size from 256 up the index is that of the bin whose range holds the size (no upper bound for bin 31) |
| `Rings.InsertRing` | src/mm/malloc.c:3690-3695 | linking a chunk in behind the first member of a circular list gives the circular list with it second |
| `Rings.RemoveRing` | src/mm/malloc.c:3597-3620 | bypassing the k-th member gives the circular list of the others; when it was the first, its bk neighbour comes first |
| `Rings.Neighbours` | src/mm/malloc.c:3597-3612 | the list's RTCHECKs hold: fd->bk and bk->fd lead back, and both neighbours coincide only in a list of at most two |
| `Tries.HeightBound` | src/mm/malloc.c:2913-2915 | a trie over an interval of 2^e sizes, all multiples of 16, is at most e - 3 nodes deep |
| `Tries.InsertShape` | src/mm/malloc.c:3656-3705 | insertion keeps the bitwise trie: every size on the side of its dividing size, one node per size |
| `Tries.InsertHalved` | src/mm/malloc.c:3669-3703 | ... and every node still halves the interval of the sizes possible below it |
| `Tries.InsertHolds` | src/mm/malloc.c:3656-3705 | ... and adds exactly the new chunk, at the node of its size |
| `Tries.RemoveShape` | src/mm/malloc.c:3724-3793 | removal keeps the trie, also when an inner node is replaced by the rightmost leaf below it |
| `Tries.RemoveHalved` | src/mm/malloc.c:3724-3793 | ... with the same halving of intervals |
| `Tries.RemoveHolds` | src/mm/malloc.c:3724-3793 | ... and takes out exactly the one chunk; all others stay at the node of their size |
| `TrieQueues.QueueHolds` | src/mm/malloc.c:3309-3357 | a chunk waits in the queue of size s of its trie exactly when it is in the trie and has size s |
| `TrieQueues.InsertJoins` | src/mm/malloc.c:3689-3697 | a chunk put into a tree bin joins the queue of its size last; the queues of other sizes stay |
| `TrieQueues.RemoveLeaves` | src/mm/malloc.c:3724-3793 | a chunk taken out leaves its queue; the order of all others, in every queue, stays, also when a leaf replaces an inner node |
| `TrieLinks.LinksFrame` | src/mm/malloc.c:2389-2402 | a trie in memory is untouched by writes outside the tree words of its chunks |
| `TrieLinks.InsertLinks` | src/mm/malloc.c:3669-3703 | the link writes at the place where the descent stops turn the trie in memory into the trie with the chunk inserted |
| `TrieLinks.RemoveLinks` | src/mm/malloc.c:3724-3793 | once the node is replaced and the word leading to it updated, memory holds the trie with the chunk removed |
| `TreeKeys.FirstKey` | src/mm/malloc.c:2913-2915 | the size shifted by `leftshift_for_tree_index` has exactly the undecided size bits of its bin at the top |
| `TreeKeys.KeyStep` | src/mm/malloc.c:3669-3676 | the top bit of the shifted size tells the half of the interval the size is in, and shifting it out gives the key for that half |
| `Index.PathBound` | src/mm/malloc.c:2913-2920 | a path in tree bin i < 31 has at most i/2 + 4 nodes, one in bin 31 at most 61 |
| `Index.IndexInsertSmall` | src/mm/malloc.c:3578-3594 | the writes of `insert_small_chunk` add exactly one chunk to the finite map that bins and bitmaps represent |
| `Index.IndexRemoveSmall` | src/mm/malloc.c:3597-3638 | the writes of `unlink_small_chunk` take exactly one chunk out of it |
| `Index.IndexInsertTree` | src/mm/malloc.c:3656-3705 | the writes of `insert_large_chunk` add exactly one chunk to it |
| `Index.IndexRemoveTree` | src/mm/malloc.c:3724-3793 | the writes of `unlink_large_chunk` take exactly one chunk out of it |
| `Index.IndexFrame` | src/mm/malloc.c:2586-2612 | writes outside the bodies of binned chunks and the bin headers leave the index as it is |
| `Tiling.HeadBits` | src/mm/malloc.c:2260-2300 | size, CINUSE and PINUSE read back from a head word are those it was built from, and setting or clearing PINUSE changes nothing else |
| `Tiling.PrevFrom` | src/mm/malloc.c:2060-2169 | every chunk but the first, and top, has a predecessor that ends where it starts |
| `HeapMoves.OneFoot` | src/mm/malloc.c:2060-2169 | no two chunks end at the same address, so that the predecessor is unique |
| `Tiling.GiveTopTiled` | src/mm/malloc.c:4742-4745 | the last chunk can be given back to top when the chunk before it is in use |
| `Tiling.Canonical` | src/mm/malloc.c:4708-4787 | the chunks, the free runs and top are a function of the live blocks alone: two coalesced heaps with the same live blocks are the same |
| `HeapState.Heap.constructor` | src/mm/malloc.c:2586-2643 | the static state before the first call is all zero |
| `HeapLemmas.LinksKeepTags` | src/mm/malloc.c:2060-2169 | writes to link words inside free chunks keep every boundary tag and every word of top |
| `HeapTags.TagsAfter` | src/mm/malloc.c:2060-2169 | a tag write keeps the tags of every chunk whose description did not change |
| `HeapSteps.WritesKeep` | src/mm/malloc.c:2290-2300 | the tag writes of a step reach no link of a binned chunk and no payload word of a live one |
| `HeapSteps.ReadTags` | src/mm/malloc.c:2260-2300 | `chunksize`, `cinuse`, `pinuse` read what the tiling says of a chunk |
| `HeapSteps.ReadPrev` | src/mm/malloc.c:2280-2288 | when PINUSE is clear, `prev_foot` leads to the free chunk that ends here |
| `HeapSteps.StepParts` | src/mm/malloc.c:2060-2169 | every step that shows the new tiling keeps the index, the partition of the free chunks and all live payloads |
| `HeapBins.InsertSmallChunk` | src/mm/malloc.c:3578-3594 | a chunk linked into a small bin is its first; the represented set grows by exactly it; only link words inside free chunks are written; the RTCHECK holds |
| `HeapBins.UnlinkSmallChunk` | src/mm/malloc.c:3597-3620 | the chunk leaves the ring of its bin and the order of the others stays; the represented set shrinks by exactly it, the bit goes with the last one; all RTCHECKs hold |
| `HeapBins.UnlinkFirstSmallChunk` | src/mm/malloc.c:3623-3638 | the newest chunk of the bin is taken out; the RTCHECK holds |
| `HeapTrees.TreeDescend` | src/mm/malloc.c:3669-3703 | the descent by shifted size bits ends at the node of the size or at the vacant child word where that node belongs, and terminates |
| `HeapTrees.InsertLargeChunk` | src/mm/malloc.c:3656-3705 | a chunk linked into a tree bin: the trie of its size range is the old one with the chunk inserted, the represented set grows by exactly it, only link words are written |
| `HeapUnlink.FindLeaf` | src/mm/malloc.c:3739-3746 | the loop finds the rightmost leaf below the node and the child word that leads to it, and terminates |
| `HeapUnlink.Detach` | src/mm/malloc.c:3724-3753 | the first half of `unlink_large_chunk`: the node has lost the chunk, or the heir that will replace it is detached |
| `HeapRelink.ParentOf` | src/mm/malloc.c:3725-3727 | x->parent is null exactly when x hangs on the ring of another node of its size |
| `HeapRelink.Relink` | src/mm/malloc.c:3754-3792 | the second half: the heir takes over parent and children, and the bin's bit goes exactly when its trie became empty |
| `HeapRelink.UnlinkLargeChunk` | src/mm/malloc.c:3724-3793 | the trie of the size range is the old one with the chunk removed, the represented set shrinks by exactly it, only link words are written; all RTCHECKs hold |
| `HeapRelays.UnlinkChunk` | src/mm/malloc.c:3801-3803 | any binned chunk leaves its bin, the order of all others, in every queue, stays; heap and live payloads are kept |
| `HeapRelays.InsertChunk` | src/mm/malloc.c:3797-3799 | the one free chunk in no bin joins the queue of its size, first in a small bin, last in a tree bin, and no other queue; heap and live payloads are kept |
| `HeapRelays.UnlinkFirst` | src/mm/malloc.c:4593-4596 | the chunk handed out by a small bin has exactly the bin's size and is the newest of its bin |
| `HeapRelays.ReplaceDv` | src/mm/malloc.c:3642-3651 | the new chunk is the designated victim; the old one, if any, is binned, first of its queue |
| `HeapQueues.WaitsHold` | src/mm/malloc.c:2586-2612 | in the queue of size s, a small bin or a part of a trie, wait exactly the binned chunks of size s |
| `HeapQueues.LargeLeft` | src/mm/malloc.c:3724-3793 | when a chunk leaves a trie, the queues of all sizes in all bins keep their order |
| `HeapQueues.LargeQueued` | src/mm/malloc.c:3656-3705 | a chunk put into a trie is last in the queue of its size, and all other queues stay |
| `HeapQueues.ShrunkQueued` | src/mm/malloc.c:4774-4783 | chunks leaving their queues and then one joining: each queue is the old one without those that left, with at most the one more at its end |
| `HeapChunks.TakeWhole` | src/mm/malloc.c:3067-3070 | a free chunk in no bin becomes a live block of its whole size |
| `HeapChunks.TakeFront` | src/mm/malloc.c:4500-4502 | the front of a free chunk becomes a live block, the rest one free chunk in no bin |
| `HeapChunks.SplitDv` | src/mm/malloc.c:4649-4654 | the front of dv becomes a live block, the rest, right behind it, is dv |
| `HeapChunks.TakeDv` | src/mm/malloc.c:4655-4660 | dv becomes a live block of its whole size, and there is no dv |
| `HeapChunks.SplitTop` | src/mm/malloc.c:4666-4675 | the front of top becomes a live block; top shrinks by it |
| `HeapFit.Consider` | src/mm/malloc.c:4454-4458 | comparing wrapped differences from -nb accepts exactly the chunks that fit and beat the best so far |
| `HeapFit.AheadStep` | src/mm/malloc.c:4481-4488 | after the root of a subtree was considered, whatever fits better is reached through its leftmost child |
| `HeapFit.PathOnce` | src/mm/malloc.c:4460-4467 | one step down the path of nb: `rst` stays the deepest untaken right subtree |
| `HeapFit.DescendBin` | src/mm/malloc.c:4448-4469 | the walk down the bin of nb ends with an exact fit, or with the best chunk on the path and the subtree where any better one is; it terminates |
| `HeapFit.SmallestBelow` | src/mm/malloc.c:4481-4488 | the leftmost walk ends with the best fit of the whole subtree; it terminates |
| `HeapSearch.FindLarge` | src/mm/malloc.c:4442-4488 | the search of `tmalloc_large` returns the smallest large binned chunk that fits, or null when none does; the chunk is a node of its trie |
| `HeapSearch.FindSmallest` | src/mm/malloc.c:4513-4528 | the search of `tmalloc_small` returns the smallest large binned chunk |
| `HeapSearch.NodeIsFront` | src/mm/malloc.c:4481-4488 | the chunk a tree search returns is the oldest of its size |
| `HeapSearch.EvenBins` | src/mm/malloc.c:4587-4594 | only even small bins are ever marked |
| `HeapSearch.AboveBits` | src/mm/malloc.c:4608 | the shifted and masked word holds exactly the marked bins above idx |
| `HeapSearch.NextBin` | src/mm/malloc.c:4471-4479 | the next bin tried is the first non-empty one after idx: everything that fits is in it or later |
| `HeapSys.Sbrk` | src/mm/heap.c:62-85 | the old break on success; -1 and the break as it was when the new one would reach MAX_BRK, on wrapping 64-bit sums |
| `HeapSys.InitTop` | src/mm/malloc.c:3904-3916 | top starts at the first aligned address; it and the foot behind it get their head words; trim_check is the threshold |
| `HeapSys.InitBins` | src/mm/malloc.c:3919-3926 | every small bin is a ring of its header alone |
| `HeapSys.PaddingWraps` | src/mm/malloc.c:4060-4062 | the padded request does not fit size_t exactly when the wrapped sum is no larger than nb |
| `HeapSys.LeastPages` | src/mm/malloc.c:2684-2686 | `granularity_align` gives the least multiple of the page size that is no less than its argument |
| `HeapSys.CallContiguous` | src/mm/malloc.c:4091-4150 | tried exactly when contiguous extension has not failed before; sbrk is then asked for exactly the pages of nb - topsize + SYS_ALLOC_PADDING, and its space is right behind the segment; it fails exactly when the break would reach MAX_BRK, and exactly then it is not tried again; the branch for a break moved by someone else is unreachable |
| `HeapSys.CallNoncontiguous` | src/mm/malloc.c:4161-4177 | the fallback asks for exactly the padded request and also gets space right behind the segment, since nobody else moves the break |
| `HeapSys.CallMoreCore` | src/mm/malloc.c:4091-4177 | exactly the increment the state calls for right behind the segment, or no space, exactly when the break would reach MAX_BRK: once the contiguous way fails the fallback, which asks for no less, fails too |
| `HeapSys.AddSpace` | src/mm/malloc.c:4179-4235 | new space becomes the one segment or extends it and top, and is counted in the footprint and its maximum; `prepend_alloc` and `add_segment` are unreachable |
| `HeapSys.ServeFromNew` | src/mm/malloc.c:4179-4247 | once sbrk granted space, the enlarged top is larger than nb, and serves it |
| `HeapSys.SysAlloc` | src/mm/malloc.c:4045-4251 | null exactly when the padded request wraps, exceeds the limit, or its increment would move the break to MAX_BRK, with only contiguous growth switched off in the last case; else the segment grows by exactly that increment, the largest footprint is remembered, trim_check is the threshold again, and the block of exactly nb lies at the old top |
| `HeapSys.WithinLimit` | src/mm/malloc.c:4060-4068 | what is granted keeps the footprint within its limit, lets top serve nb, and is the least whole number of pages that does |
| `HeapSys.SysTrim` | src/mm/malloc.c:4303-4366 | only whole pages are returned, all but less than a page and the pad and foot; top, segment, footprint and break shrink by the same amount; trim_check becomes the threshold, or MAX_SIZE_T when there was nothing to return |
| `HeapMalloc.LeastSize` | src/mm/malloc.c:2235-2244 | `request2size` is the least legal chunk size with room for the request, and small requests are exactly those up to MAX_SMALL_REQUEST |
| `HeapMalloc.RoomTest` | src/mm/malloc.c:2239-2244 | the result of `request2size` has room for the request exactly when padding does not wrap |
| `HeapMalloc.BetterThanDv` | src/mm/malloc.c:4491 | the wrapped comparison with dvsize - nb holds exactly when dv does not fit or the chunk is smaller than dv |
| `HeapMalloc.Remainderless` | src/mm/malloc.c:4588-4592 | the two-bit test succeeds exactly when the bin of nb itself is marked |
| `HeapMalloc.NextSmallBin` | src/mm/malloc.c:4604-4611 | the next marked bin holds the smallest binned chunks that fit |
| `HeapMalloc.TmallocLarge` | src/mm/malloc.c:4442-4510 | served from a tree exactly when the best fit fits strictly better than dv, and then from the oldest chunk of the smallest fitting size in the whole heap; the rest is binned, unless it is too small for a chunk, and dv stays |
| `HeapMalloc.TmallocSmall` | src/mm/malloc.c:4513-4548 | served from the oldest of the smallest large chunks, when no small one fits; the block has exactly nb bytes and the rest becomes dv, the old dv being binned, or it gets all when the rest is too small |
| `HeapMalloc.MallocSmall` | src/mm/malloc.c:4583-4635 | a small request takes an exact fit, or, when dv is too small, the best fit of the whole heap; among chunks of one size the newest of a small bin or the oldest of a tree bin; the size of the block, the new dv, the binned chunks and their order are determined; the result passes `do_check_malloced_chunk` |
| `HeapMalloc.MallocLarge` | src/mm/malloc.c:4638-4644 | a large request takes the best fit when it beats dv, with the same said of what is left |
| `HeapMalloc.Malloc` | src/mm/malloc.c:4552-4686 | where the block comes from (the smallest fitting chunk of the whole heap and among its size the newest of a small bin or the oldest of a tree bin, dv, top, or new space), its exact size, what becomes of dv, which chunks are binned and in which order, what the system is asked for and the accounts; null exactly when nothing free fits and the system denies, and then nothing changes but that contiguous growth is given up; it passes `do_check_malloced_chunk`; no payload word of a live block is written |
| `HeapFree.Backward` | src/mm/malloc.c:4713-4738 | consolidation with the free chunk before: the merged chunk, what is binned and that all others keep their order; dv is finished here exactly when it is before and the chunk after is in use |
| `HeapFree.Forward` | src/mm/malloc.c:4740-4773 | consolidation with top, dv or the free chunk after: dv contains the old dv, unless top took it over; what is binned keeps its order |
| `HeapFree.DisposeChunk` | src/mm/malloc.c:4371-4437 | a chunk that is live no more joins the free space around it: dv is the free chunk that contains the old dv, or none when there was none or top took it over; at most one chunk joins one queue and all others keep their order; no live payload word is written |
| `HeapFree.KeptTrans` | src/mm/malloc.c:4371-4437 | what several frees leave of dv is what is left of the first dv |
| `HeapRelease.Free` | src/mm/malloc.c:4690-4797 | exactly the one block is live no more; dv is the free chunk that contains the old dv, or none; a chunk that is neither dv nor part of top is binned, at its end of the queue, the others keep their order; top is trimmed exactly when the freed chunk was merged into it and it is larger than trim_check; all other payloads keep every word; all RTCHECKs hold |
| `HeapRelease.FreeReleased` | src/mm/malloc.c:4711-4786 | the same from the point where the block is no longer counted as live |
| `HeapCalloc.OverflowTest` | src/mm/malloc.c:4802-4807 | the division gives the factor back exactly when the product did not wrap |
| `HeapCalloc.CallocRequest` | src/mm/malloc.c:4801-4807 | the request is the true product, or MAX_SIZE_T when it overflows |
| `HeapCalloc.PayloadWrite` | src/mm/malloc.c:2060-2169 | a live payload is its owner's: any write to it keeps the heap well formed and all other payloads |
| `HeapCalloc.Calloc` | src/mm/malloc.c:4799-4812 | null exactly when malloc of the true product, overflow counted as too large, gives null; otherwise the block malloc gives, covering the true product, and zero; other payloads are kept |
| `HeapResizes.SplitTail` | src/mm/malloc.c:4831-4836 | a live block keeps its front; the rest is a chunk in use that is about to be freed |
| `HeapResizes.SplitHead` | src/mm/malloc.c:4943-4944 | a live block keeps its end; the leading space is about to be freed |
| `HeapResizes.GrowIntoTop` | src/mm/malloc.c:4840-4849 | a live block grows into top and keeps its old bytes |
| `HeapResizes.GrowIntoDv` | src/mm/malloc.c:4855-4863 | a live block grows into the front of dv |
| `HeapResizes.GrowOverDv` | src/mm/malloc.c:4864-4869 | a live block takes over all of dv, and there is no dv |
| `HeapResizes.GrowAndSplit` | src/mm/malloc.c:4882-4887 | a live block grows into the front of the free chunk after it |
| `HeapResizes.GrowWhole` | src/mm/malloc.c:4878-4881 | a live block takes over the whole free chunk after it |
| `HeapResizes.JoinNext` | src/mm/malloc.c:5126-5130 | two neighbouring live blocks become one |
| `HeapRealloc.TryReallocChunk` | src/mm/malloc.c:4819-4896 | the block is resized in place exactly when it is large enough or the free space right after it suffices, to exactly nb when it grows into top or a chunk can be left, else to all there is; what is left of dv is dv, other rests are freed; its old bytes stay; null changes nothing |
| `HeapRealloc.MoveBlock` | src/mm/malloc.c:5225-5231 | malloc, copy, free, each with all its effects: the new block starts with min(old usable size, new size) old bytes; null exactly when malloc gives null, and the old block is untouched |
| `HeapRealloc.Realloc` | src/mm/malloc.c:5193-5236 | resized in place exactly when that is possible, to the exact size; else moved to where malloc puts it, with the old block freed; null exactly when the request is too large or neither is possible; on every path the first min(old usable size, new size) bytes are kept and all other live blocks are unchanged |
| `HeapMemalign.PowerTest` | src/mm/malloc.c:4902 | x & (x - 1) is zero exactly for powers of two |
| `HeapMemalign.RoundAlignment` | src/mm/malloc.c:4900-4906 | the alignment used is the least power of two from 32 up that is not below the one asked for; for all alignments for which the loop ends |
| `HeapMemalign.RoundedOnce` | src/mm/malloc.c:4900-4906 | there is only one such alignment |
| `HeapMemalign.DoublingEnds` | src/mm/malloc.c:4902-4906 | the wrapping doubling reaches an alignment exactly when it is at most 2^63 |
| `HeapMemalign.DoublingEntered` | src/mm/malloc.c:4902 | above 2^63 no alignment is a power of two, so the loop is entered |
| `HeapMemalign.DoublingForever` | src/mm/malloc.c:4904 | an alignment of 2^63 + 1 is never reached |
| `HeapMemalign.LeadFits` | src/mm/malloc.c:4929-4936 | the leader given back is a legal chunk of at least MIN_CHUNK_SIZE and at most alignment + 16 bytes, and the spot behind it is aligned |
| `HeapMemalign.GiveLeader` | src/mm/malloc.c:4929-4946 | the leader is free again, and the block behind it keeps the rest |
| `HeapMemalign.AlignBlock` | src/mm/malloc.c:4920-4948 | the block starts at the first aligned spot that leaves nothing or a chunk in front of it, and keeps all from there |
| `HeapMemalign.TrimBlock` | src/mm/malloc.c:4951-4960 | spare space at the end is given back exactly when it is more than MIN_CHUNK_SIZE, and the block then has exactly nb bytes |
| `HeapMemalign.InternalMemalign` | src/mm/malloc.c:4898-4970 | the part of the block malloc gives that starts at the aligned spot, trimmed to nb; a multiple of the rounded alignment; null exactly when the padded request is too large or malloc gives null; the other live blocks are unchanged |
| `HeapMemalign.Memalign` | src/mm/malloc.c:5269-5274 | the same for every alignment up to 2^63; small alignments are plain malloc |
| `HeapIalloc.SplitElements` | src/mm/malloc.c:5060-5076 | the aggregate is divided into adjacent live blocks that tile it exactly, whose pointers are stored in order |
| `HeapIalloc.Prepare` | src/mm/malloc.c:5046-5058 | the elements are zero when asked for, and the pointer array is a block of its own behind them |
| `HeapIalloc.OverflowCondition` | src/mm/malloc.c:5008-5025 | no step of the size computation wraps exactly when all that is needed, on unbounded integers, fits size_t |
| `HeapIalloc.AggregateSize` | src/mm/malloc.c:5008-5025 | for all sizes: the size computed with wrap-around is the size needed exactly when nothing wraps |
| `HeapIalloc.OverflowOnce` | src/mm/malloc.c:5014-5016 | two elements of 2^63 bytes wrap to a request for one smallest chunk |
| `HeapIalloc.Ialloc` | src/mm/malloc.c:4979-5096 | when the sizes do not wrap: one block per element, adjacent, each of its own legal size and individually live, dividing exactly the block malloc gives for the whole size, all zero when asked for; null exactly when malloc gives null; older payloads are kept |
| `HeapBulk.FreeSlot` | src/mm/malloc.c:5111-5138 | one slot: the block is freed, or merged with its neighbour that comes next in the array; dv contains the old dv, or there is none |
| `HeapBulk.BulkFree` | src/mm/malloc.c:5105-5145 | exactly the listed blocks are live no more, every slot is null, nothing is left unfreed; dv contains the old dv, or there is none; top is trimmed once, exactly when it is larger than trim_check in the end; other payloads are kept |
| `HeapChecks.LiveChecks` | src/mm/malloc.c:3261-3269 | every live block passes `do_check_inuse_chunk` |
| `HeapChecks.MallocedChecks` | src/mm/malloc.c:3295-3306 | a block just handed out passes `do_check_malloced_chunk` |
| `HeapChecks.TopChecks` | src/mm/malloc.c:3233-3244 | top passes `do_check_top_chunk` |
| `HeapChecks.BinnedChecks` | src/mm/malloc.c:3272-3292 | every binned chunk passes `do_check_free_chunk` |
| `HeapChecks.DvChecks` | src/mm/malloc.c:3272-3292 | so does the designated victim, which is in no bin |
| `HeapInspect.FindNode` | src/mm/malloc.c:3408-3415 | the descent by size bits reaches the node of the size, or shows that there is none |
| `HeapInspect.BinFind` | src/mm/malloc.c:3395-3429 | `bin_find` finds a chunk exactly when it is in the set the index represents, through small bins and tries alike |
| `HeapAudit.CheckSmallBin` | src/mm/malloc.c:3371-3392 | all assertions of `do_check_smallbin` hold, for every bin of every well-formed heap |
| `HeapAudit.CheckTree` | src/mm/malloc.c:3309-3357 | all assertions of `do_check_tree` hold: bin index, size range, ring links, parent and child links, order of the children, one head per ring; it terminates |
| `HeapAudit.CheckTreeBin` | src/mm/malloc.c:3360-3368 | all assertions of `do_check_treebin` hold |
| `HeapAudit.TraverseAndCheck` | src/mm/malloc.c:3431-3459 | walking the chunks, `bin_find` fails for chunks in use and succeeds for free ones other than dv, no two free chunks are adjacent, and the sum of the sizes is the footprint |
| `HeapAudit.CheckMallocState` | src/mm/malloc.c:3463-3489 | all assertions of `do_check_malloc_state` hold |
| `HeapInfo.InternalMallinfo` | src/mm/malloc.c:3495-3532 | arena = footprint = break - base, uordblks + fordblks = arena, uordblks is the total size of the live blocks, ordblks counts the free chunks and top |
| `HeapHistory.SameLiveSameFree` | src/mm/malloc.c:4708-4787 | heaps from the same base with the same live blocks have the same chunks and top |
| `HeapHistory.SameLiveSameBins` | src/mm/malloc.c:4774-4783 | heaps with the same live blocks and what is left of the same dv have the same dv, and in their bins the same chunks: every other free chunk, with its size |
| `HeapHistory.MallocThenFree` | src/mm/malloc.c:4646-4676 | free right after malloc restores the free runs and top, whatever source served the block |
| `HeapHistory.FreeInEitherOrder` | src/mm/malloc.c:4690-4797 | the order of two frees does not matter for the free runs, top, dv and the binned chunks, trimming included |
| `HeapHistory.FreeAll` | src/mm/malloc.c:5100-5104 | freeing a list of blocks one by one leaves exactly the others |
| `HeapHistory.BulkFreeAsSingles` | src/mm/malloc.c:5098-5145 | bulk_free leaves the same live blocks, free runs, top, dv and binned chunks as freeing one by one |
| `HeapHistory.LiveBlocks` | src/mm/malloc.c:3295-3306 | live blocks are 16-aligned, at least MIN_CHUNK_SIZE, inside the segment below top, and disjoint |
| `HeapExact.ServedOnce` | src/mm/malloc.c:4583-4676 | the policy names one chunk: no two chunks satisfy it for the same heap and request |
| `HeapExact.SameQueues` | src/mm/malloc.c:3309-3357 | two outcomes of one step on the queues with the same binned chunks have the same order everywhere |
| `HeapExact.MallocDetermined` | src/mm/malloc.c:4552-4686 | malloc's contract leaves nothing open: the address, the live blocks, dv, the binned chunks and their order, top and the accounts are a function of the heap before the call and the size |
| `HeapExact.MallocAlike` | src/mm/malloc.c:4552-4686 | two heaps that are alike give a request the same block and are alike again |
| `HeapExact.TrimOnce` | src/mm/malloc.c:4309-4313 | there is one number of pages whose return leaves less than a page to spare |
| `HeapExact.FreeDetermined` | src/mm/malloc.c:4690-4797 | free's contract leaves nothing open: chunks, top, dv, the binned chunks and their order, and the accounts are a function of the heap before the call and the block |
| `HeapExact.ResizeDetermined` | src/mm/malloc.c:4819-4896 | the same for realloc where the block stays in place |
| `HeapTables.DoRealloc` | src/mm/malloc.c:5193-5236 | seen as byte arrays: null exactly when there is no room, else the block's bytes up to the new size at its old or a new place |
| `HeapTables.DoStore` | src/mm/malloc.c:2060-2169 | storing a byte into a payload changes that byte of that array only |
| `HeapRuns.BulkFreed` | src/mm/malloc.c:5105-5145 | seen as byte arrays: the listed arrays are gone, all others are the same |
| `HeapRuns.IndependentShown` | src/mm/malloc.c:4979-5096 | seen as byte arrays: one new array per element, distinct, large enough and zero when asked for, all others the same |
| `HeapRuns.Step` | src/mm/malloc.c:4552-5145 | each call keeps the heap well formed, has its abstract effect on the table of byte arrays, failing exactly when there is no room, and changes chunks, bins, dv, top and accounts as its own contract says |
| `HeapRuns.Run` | src/mm/malloc.c:4552-5145 | every run of malloc, calloc, free, realloc, memalign, stores, trim, bulk_free and independent_* with live or null pointers keeps the heap well formed; it is a chain of states each related to the next by the contract of its call, and its clients see a table of independent byte arrays in which a call fails exactly when the state before it has no room; exactly the calls with valid arguments are made |
| `HeapRuns.FirstState` | src/mm/malloc.c:2586-2643 | the untouched kernel state is a well-formed heap without blocks |
| `Bytes.MemSetZero` | src/mm/malloc.c:4810 | memset writes zero to the n bytes and no other |
| `Bytes.MemCopy` | src/mm/malloc.c:5229 | memcpy of disjoint blocks copies the n bytes and writes no other |
| `Printf.ReadBack` | src/lib/io/printf.c:214-270 | the digits of n read back to n and have no leading zero |
| `Printf.OneNumeral` | src/lib/io/printf.c:214-270 | a value has no other such digits |
| `Printf.TextReads` | src/lib/io/printf.c:273-446 | a reader gets n back from what is printed for n, in every base up to 16 |
| `Printf.TextCase` | src/lib/io/printf.c:430-440 | every letter is in A-F exactly with the upper-case conversion, else in a-f |
| `Printf.SignedReads` | src/lib/io/printf.c:249-262 | with sign, plus or space in front the text reads back to the signed value |
| `Printf.SignFirst` | src/lib/io/printf.c:249-262 | the first character is - exactly below zero, + exactly from zero up with the plus flag, a space exactly from zero up with the space flag alone; all others are digits |
| `Printf.TextInjective` | src/lib/io/printf.c:273-446 | two numbers are never printed alike |
| `Printf.SignLost` | src/lib/io/printf.c:221-232 | hh, h and z give the converted value exactly when it is not negative (for z: fits intmax_t) |
| `Printf.SignedPrinted` | src/lib/io/printf.c:221-232 | what a signed conversion prints reads back to the argument, for z to the argument as intmax_t; hh and h print the low byte or two only |
| `Printf.ShortPrinted` | src/lib/io/printf.c:224-225 | what `%hhd` prints for a signed char, and `%hd` for a short, reads back to the value exactly when it is not negative |
| `Printf.ShortPrintedOnce` | src/lib/io/printf.c:224 | `%hhd` of -1 prints 255 |
| `Printf.PrintDecimal` | src/lib/io/printf.c:214-270 | the output is the sign character and the digits of the absolute value; the count is the number of characters |
| `Printf.PrintUnsigned` | src/lib/io/printf.c:273-320 | the output is `UnsignedText` of the argument, whose meaning `UnsignedReads` and `UnsignedLike` give; the count is right |
| `Printf.UnsignedReads` | src/lib/io/printf.c:282-293 | for every length modifier and every value of its type, the text of each of the three unsigned conversions reads back to the value, to the value plus 2^64 for a negative j or t argument |
| `Printf.UnsignedLike` | src/lib/io/printf.c:282-284 | an hh or h argument outside the type prints like its remainder |
| `Printf.LowBits` | src/lib/io/printf.c:365-368 | masking with w ones is the remainder by 2^w |
| `Printf.ShrStrips` | src/lib/io/printf.c:365-368 | the shift by 3i or 4i bits drops i digits |
| `Printf.SecondZero` | src/lib/io/printf.c:349-364 | with the # flag a zero follows the flag's zero exactly when the value is zero |
| `Printf.PrintOctal` | src/lib/io/printf.c:323-371 | the output is `OctalText` of the argument: octal digits, after a 0 with the # flag; the count is right |
| `Printf.PrintHex` | src/lib/io/printf.c:374-446 | the output is `HexText` of the argument: hexadecimal digits in the right case, after 0x or 0X with the # flag; the count is right |
| `Printf.Nibble` | src/lib/io/printf.c:548-556 | the arithmetic shift of a negative ptrdiff_t has the low four bits of the address |
| `Printf.PrintPointer` | src/lib/io/printf.c:516-560 | the output is 0x and the hexadecimal digits of the address, also above 2^63; the count is right |

## Left out

- HeapMemalign.Memalign: alignments above 2^63 are excluded, since for exactly those the doubling loop of `internal_memalign` does not end (`HeapMemalign.DoublingEnds`).
- HeapMemalign.InternalMemalign: the same.
- HeapMemalign.RoundAlignment: the same.
- HeapIalloc.Ialloc: sizes whose sum wraps are excluded; the code does not check for them, and what it then does to memory is not modelled (`HeapIalloc.AggregateSize` says exactly when that is).
- HeapRelease.Free: a pointer that is neither null nor live is outside the contract; the USAGE_ERROR_ACTION for detected misuse is not modelled.
- HeapBulk.BulkFree: the same for the pointers of the array, which must also be distinct. The chunks it frees join the queues of their sizes in steps, each keeping the order of all others; the order among the newcomers is not spelled out.
- HeapSys.CallContiguous: the branch for a break that someone else moved is shown unreachable, not modelled; `sbrk` is used by no one else.
- HeapSys.AddSpace: `add_segment` and `prepend_alloc` are shown unreachable, not modelled.
- Printf.PrintDecimal: INTMAX_MIN is excluded, since `-d` is undefined there.
- Printf.PrintOctal: width, precision, the `-` and `0` flags are parsed by the original but not used by its printers.
- Bytes.MemCopy: memcpy and memset are modelled as loops over words and a last partial word with the effect the C standard gives them; the kernel's own versions are not part of this model.
- HeapState.Heap.constructor: `&__end` and MAX_BRK, fixed by the linker, are parameters; HEAP_FLOOR < `__end` + one page < MAX_BRK <= 2^63 is assumed of them, and the trim threshold is a parameter too.
- HeapRelease.CountRelease: `release_unused_segments` finds no second segment in this configuration and only restarts the count.
- mmap, mspaces, locks, footers, Win32, PROCEED_ON_ERROR and fork hooks are compiled out.
- `dlmalloc_set_footprint_limit`, `mallopt`, `malloc_stats`, `malloc_inspect_all`, `valloc`, `pvalloc`, `posix_memalign`, `dlrealloc_in_place` and `malloc_usable_size` are small variations of what is modelled; the footprint limit is a field that `sys_alloc` obeys.
- The magic number and the security tag `extp`/`exts` are not modelled.
- `alloc_buf` of `src/mm/heap.c`, strings, characters, floats and `%n` of `src/lib/io/printf.c`.
- The format parser of `src/lib/io/printf.c`: the printers are given the parsed flags and length.
- Consolidation is written once, as `HeapFree.Backward` and `HeapFree.Forward`, for `dlfree` and `dispose_chunk`, whose code repeats it.
- Everything else in the repository: drivers, file systems, graphics, shell, timers, assembly.
