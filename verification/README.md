# Verification of the c64 allocators, RPC driver, data pipelines and address maps

A Dafny model of the parts of the c64 DSP toolkit that other code has to trust, with machine-checked
proofs. `dafny verify dfyconfig.toml` checks everything.

**The mspace heap** (`libc64/dl_malloc.c`). Memory is a map from word addresses to 32-bit words. The class
`Mspace.Mspace` holds the fields of `malloc_state` and changes them and the words store by store, as the C code does:
chunk heads and feet, small-bin links, tree links, bitmaps, designated victim, top. A ghost chunk map and a ghost bin
set say what the words mean, and `Valid()` ties them together. The layers are: 32-bit words (`Machine`, `Words`), bin
indices and bitmaps (`BinIndex`), rings (`Rings`), tries as values and in words (`Tries`, `TreeWords`, `TreeUnlink`,
`TreeWalks`, `BestFits`), all bins together (`Bins`, `BestBins`), the tiling of the segment (`Chunks`), the whole
state (`HeapState`) and what each step does to it (`HeapSteps`, `HeapBins`, `HeapCuts`, `HeapReads`, `UnlinkReads`),
the bins as queues, one for each size (`BinQueues`, `HeapQueues`), what a caller sees (`HeapLive`, `Requests`), what a
call does, exactly (`Outcomes`), the operations (`Mspace`), whole runs (`MspaceRuns`), the DEBUG checkers
(`HeapChecks`) and the `dsp_mspace_*` layer (`DspHeap`).

A layout (`Outcomes.Layout`) is a heap without its words: chunks, queues, designated victim, top. `malloc`, `free` and
`memalign` are proved against relations between the layouts before and after, and each of these relations leaves one
outcome only, the address included. So the operations alone determine every address a run returns
(`MspaceRuns.HistoryOnce`). The memory of an mspace is its segment, word by word, so that no call writes outside it.

The configuration is the one the build fixes: 32-bit `size_t`, only mspaces, no mmap, footers or locks, no growth.

**The block allocator** (`kmod/minim.c`). `Minim.Minim` works on the block array in place. A ghost list of runs
says what the array stores (`MinimRuns.Render`), and everything a caller can see is a function of the live regions.

**The RPC driver** (`kmod/dev.c`, `kmod/mlb.c`). `Rpc.Driver` has each file operation and the reply interrupt as one
step; `RpcRuns` states what every operation does and returns as a function of the history. `RpcGrain` breaks the
operations into single assignments between which the interrupt may come, and relates the two grains.
The step grain there: the mutex holder advances one assignment at a time, the interrupt handler runs to its end,
one file is not read and written by two threads at once.

**Two pipelines and a mapping.** `Qdma` and `Checksums` model the ping-pong DMA sums, with transfers whose bytes land
at any time and in any order; `CinitTables` the overlay loader's `.cinit` pass; `AddressMaps` the translation between
physical and virtual addresses.

Things the code does that its documentation does not promise, each with its exact condition and a witness:

- `minim_free_by_client` never ends when a run of the client has a free run, or another run of the client, directly
  on its left (`Minim.Minim.FreeByClient`, `Minim.ZeroBlockTraps`, `Minim.StuckScan`).
- A write that fails in the copying overwrites a reply that was not read yet (`RpcRuns.AnswerExactly`,
  `RpcRuns.DamagedReply`, `RpcGrain.Delivery`).
- A reply to a released client that arrives between the writer's state assignment and its look at the mailbox is
  delivered to the writer (`RpcGrain.RaceExactly`, `RpcGrain.RaceSpoils`, `RpcGrain.RaceReached`).
- `dsp_phys_to_virt` answers for addresses that are not mapped when the huge-page table still names them
  (`AddressMaps.StrayAnswers`, `AddressMaps.SurvivesExactly`, `AddressMaps.StrayPage`).
- `dsp_mspace_malloc` adds 4 to the request without an overflow test: requests of 2^32-4 bytes and more are granted a
  tiny block (`DspHeap.RoomExact`, `DspHeap.TinyGrant`). `dsp_mspace_memalign` returns a pointer that is 4 off every
  multiple of the alignment.
- The rounding loop of `internal_memalign` ends iff the alignment is at most 2^31 (`HeapLive.LoopEnds`,
  `MspaceRuns.EndlessRounding`).
- `qdma_copy2d` keeps 16 bits of each count and pitch, and `loc_addskip32_dma` checks neither. Of the requests whose
  working set fits its buffer, the results are right for every memory iff the stride is in -32768..32767, or is not
  needed (`Checksums.RightExactly`, `Checksums.WideStride`, `Qdma.LimitsExactly`).
- Its size test multiplies 32-bit words. The first transfer stays in its scratch buffer iff the product of the 16-bit
  counts fits, which a wrapped product does not ensure (`Checksums.StaysExactly`, `Checksums.FitStays`,
  `Checksums.EscapingJob`).
- `do_check_top_chunk` fails exactly for a segment that ends at 2^32 (`HeapChecks.CheckTopChunk`,
  `HeapChecks.LastSegment`).
- `dsp_shm_free` of a region with address 0, which a refused allocation returns, drops the region of the first type iff
  that is mapped and some entry is unused (`AddressMaps.Tables.Free`, `AddressMaps.LostRegion`).

## Model

| member | source | states |
|---|---|---|
| `BinIndex.TreeIndexBounds` | libc64/dl_malloc.c:2230-2261 | for every size from 256 on, the branch-free index computation yields a bin whose least size is at most the size, and below the next bin's least size |
| `BinIndex.TreeIndexOrders` | libc64/dl_malloc.c:2230-2246 | a smaller bin index means a smaller size |
| `BinIndex.RootBits` | libc64/dl_malloc.c:2254-2256 | leftshift_for_tree_index puts the first discriminating bit of every size of a bin at bit 31 |
| `BinIndex.BitsStep` | libc64/dl_malloc.c:2967-2970 | bit 31 tells the half a size lies in, and one shift lines up the next bit |
| `BinIndex.MarkMarks` | libc64/dl_malloc.c:2270-2276 | marking bin i sets exactly bit i |
| `BinIndex.ClearClears` | libc64/dl_malloc.c:2270-2276 | clearing bin i clears exactly bit i |
| `BinIndex.Bit2IdxOfSingleBit` | libc64/dl_malloc.c:2293-2303 | the branch-free bit search inverts a one-bit shift |
| `BinIndex.LeastMarked` | libc64/dl_malloc.c:2293-2308 | least_bit and compute_bit2idx find the lowest marked bin |
| `BinIndex.LeftBitsMarked` | libc64/dl_malloc.c:2307-2311 | masking with left_bits keeps exactly the marks above a bin |
| `BinIndex.SmallBits` | libc64/dl_malloc.c:4489-4494 | the two low bits of the shifted map are the marks of the request's bin and of the next |
| `BinIndex.LeftSmallBits` | libc64/dl_malloc.c:4510-4512 | shifting back and masking keeps the marks above the request's bin |
| `Rings.RingPush` | libc64/dl_malloc.c:2880-2896 | linking in behind the header puts the chunk first, everything else in order |
| `Rings.RingDrop` | libc64/dl_malloc.c:2899-2916 | unlinking a member removes exactly it |
| `Rings.RingDropHead` | libc64/dl_malloc.c:3019-3032 | unlinking the ring's start: the last member takes over |
| `Tries.DownFinds` | libc64/dl_malloc.c:2700-2733 | following the bits of a size reaches a node exactly when the size is in the trie |
| `Tries.PutTrie` | libc64/dl_malloc.c:2951-3000 | replacing what a search reaches by a trie that fits there keeps the trie order |
| `Tries.DropTrie` | libc64/dl_malloc.c:3007-3048 | a node may be replaced by its rightmost leaf |
| `Tries.DropElems` | libc64/dl_malloc.c:3019-3088 | unlinking removes exactly one chunk and keeps every other at its size |
| `Tries.BestFitIsLeast` | libc64/dl_malloc.c:3644-3714 | the reference best fit of a trie: the least stored size that is large enough |
| `TreeWords.PutRep` | libc64/dl_malloc.c:2951-3000 | stores in one place of a trie leave every other node's words right |
| `TreeUnlink.UnlinkMember` | libc64/dl_malloc.c:3019-3032 | the two ring stores for a chunk that is chained to a tree node leave the words of the trie without it |
| `Bins.UnlinkHeadRep` | libc64/dl_malloc.c:3022-3087 | the same for the tree node's own chunk when it has ring companions: the last of them takes its place |
| `TreeUnlink.UnlinkReplaced` | libc64/dl_malloc.c:3049-3087 | a detached node, put in a node's place with its parent and children, gives the words of the trie with that node replaced |
| `Bins.UnlinkLeafRep` | libc64/dl_malloc.c:3033-3087 | the same for the only chunk of its size in an interior node: the rightmost leaf is cut and takes its place |
| `TreeUnlink.UnlinkLast` | libc64/dl_malloc.c:3033-3054 | the only chunk of a node without children: its slot is cleared |
| `Bins.InsertSmall` | libc64/dl_malloc.c:2880-2896 | the bins hold one chunk more; all other bins, and the maps, are right |
| `Bins.UnlinkSmall` | libc64/dl_malloc.c:2899-2934 | the bins hold one chunk less; the map bit goes with the last chunk of a bin |
| `Bins.InsertLarge` | libc64/dl_malloc.c:2951-3000 | the same for a tree bin: hung as a leaf or chained to its size |
| `Bins.UnlinkLarge` | libc64/dl_malloc.c:3019-3088 | the same for a tree bin, whatever the chunk's place |
| `Chunks.TilesExactly` | libc64/dl_malloc.c:2736-2764 | the chunk sizes from any chunk on add up to the distance to top |
| `Chunks.SplitTiled` | libc64/dl_malloc.c:4521-4526 | splitting a free chunk keeps the tiling |
| `Chunks.CoalescedTiled` | libc64/dl_malloc.c:4606-4672 | merging a used chunk and its free neighbours keeps the tiling, and no two free chunks touch |
| `Chunks.AbsorbedTiled` | libc64/dl_malloc.c:4639-4649 | merging into top keeps the tiling |
| `Chunks.CutTiled` | libc64/dl_malloc.c:3866-3898 | cutting a used chunk in two keeps the tiling |
| `HeapState.OneBinEach` | libc64/dl_malloc.c:2665-2733 | a chunk is in a bin iff it is free and not the designated victim; it is in the one bin of its size; a map bit is set iff its bin holds something |
| `HeapSteps.TakeWhole` | libc64/dl_malloc.c:4497-4500 | a loose free chunk becomes used: the invariant and every live payload word are kept |
| `HeapSteps.TakeFirst` | libc64/dl_malloc.c:4521-4527 | the same for its first part, the rest staying a free chunk |
| `HeapSteps.TakeTop` | libc64/dl_malloc.c:4568-4577 | the same for a piece of top |
| `HeapSteps.Coalesce` | libc64/dl_malloc.c:4606-4672 | merging used and free chunks keeps the invariant and the payload of all others |
| `HeapSteps.Absorb` | libc64/dl_malloc.c:4639-4649 | the same for merging into top |
| `HeapCuts.PayloadStore` | libc64/dl_malloc.c:1581-1584 | a caller that stores within its block, foot word included, cannot break the invariant |
| `HeapCuts.CutUsed` | libc64/dl_malloc.c:3880-3896 | cutting a live chunk in two keeps the invariant |
| `BestFits.SearchBin` | libc64/dl_malloc.c:3651-3673 | the first loop, with its unsigned comparisons: the best fit is what it found or lies in the deepest right subtree it did not take |
| `BestFits.SearchLeftmost` | libc64/dl_malloc.c:3685-3692 | the second loop finds the smallest chunk of the subtree if it beats what was found |
| `TreeWalks.Descend` | libc64/dl_malloc.c:2963-2997 | the descent of an insertion ends at the chunk of the same size or at the empty child word where the new one belongs |
| `TreeWalks.FindLeaf` | libc64/dl_malloc.c:3034-3047 | the replacement search ends at the rightmost leaf and at the word that points to it |
| `BestBins.FirstFitIsBest` | libc64/dl_malloc.c:3644-3693 | a fit in one bin, with none in the bins before, is a smallest fit over all 32 tries |
| `BestBins.NoFitAnywhere` | libc64/dl_malloc.c:3675-3714 | finding nothing means that no tree chunk is large enough |
| `BinQueues.InsertStored` | libc64/dl_malloc.c:2951-3000 | inserting a chunk in a trie puts it behind the first of its size, and alone if there is none; every other size keeps its chunks and their order |
| `BinQueues.UnlinkStored` | libc64/dl_malloc.c:3019-3088 | unlinking takes exactly the chunk from those of its size; the last of them becomes the first if that was unlinked |
| `HeapQueues.QueueHolds` | libc64/dl_malloc.c:2665-2733 | the queue of a size holds exactly the free chunks of that size that are not the designated victim |
| `HeapQueues.HeadFirst` | libc64/dl_malloc.c:3644-3693 | a chunk at which a tree search ends is the first of its queue |
| `HeapLive.LiveDisjoint` | libc64/dl_malloc.c:2600-2611 | live blocks lie in the segment, behind the record, and share no payload word, the foot word of the next chunk counting as payload |
| `Words.TopHeadExactly` | libc64/dl_malloc.c:3197-3209 | the head word that init_top stores reads back iff the size is a multiple of 4 |
| `HeapLive.RequestSizeFits` | libc64/dl_malloc.c:1651-1660 | the chunk size of a request has room for it, and is the least that has |
| `HeapLive.AlignedSpot` | libc64/dl_malloc.c:3857-3874 | an oversized chunk has an aligned spot with a leader of 0 or at least 16 bytes and room behind it |
| `HeapLive.RoundAlignment` | libc64/dl_malloc.c:3834-3840 | alignments become the least sufficient power of two from 16 on; the loop ends iff the alignment is at most 2^31 |
| `HeapLive.RoundedIs` | libc64/dl_malloc.c:3834-3840 | that power is the alignment itself where it is a power of two, and otherwise less than twice it |
| `HeapLive.LoopEnds` | libc64/dl_malloc.c:3837-3839 | some number of shifts reaches the alignment iff it is at most 2^31; from the 28th shift on the word is 0 |
| `Requests.SmallBinChoice` | libc64/dl_malloc.c:4492-4527 | the bin chosen for a small request holds a smallest sufficient chunk |
| `Requests.VictimChoice` | libc64/dl_malloc.c:4505-4566 | the designated victim is what a small request gets when no near fit is binned |
| `Requests.TreeChoice` | libc64/dl_malloc.c:4532-4535 | and a smallest tree chunk when no small bin serves |
| `Outcomes.NearChosen` | libc64/dl_malloc.c:4492-4502 | a chunk of the request's size or the next is the chunk chosen |
| `Outcomes.NextChosen` | libc64/dl_malloc.c:4505-4515 | so is the first chunk of the next marked small bin, if the victim is too small |
| `Outcomes.TreeChosen` | libc64/dl_malloc.c:3717-3735 | then the first chunk of the smallest size in the trees |
| `Outcomes.LargeChosen` | libc64/dl_malloc.c:3644-3697 | for a large request, the first chunk of the smallest sufficient size, if it beats the victim |
| `Outcomes.AllocatedOnce` | libc64/dl_malloc.c:4476-4590 | the layout and the size leave one address and one layout after |
| `Outcomes.RestServesNext` | libc64/dl_malloc.c:4517-4566 | the rest of a small request's chunk serves the next small request, right behind, unless a near fit waits |
| `Outcomes.FreedOnce` | libc64/dl_malloc.c:4592-4681 | the layout and the block leave one layout after |
| `Outcomes.GrownServesNext` | libc64/dl_malloc.c:4651-4657 | a block freed beside the victim makes it grow, and the next small request starts where the grown victim does, unless a near fit waits |
| `Outcomes.FirstAligned` | libc64/dl_malloc.c:3857-3874 | the computed address is the first multiple of the alignment that leaves a chunk of at least 16 bytes in front |
| `Outcomes.AlignedAllocatedOnce` | libc64/dl_malloc.c:3831-3914 | layout, alignment and size leave one address and one layout after |
| `Mspace.NextMark` | libc64/dl_malloc.c:3675-3683 | the next marked bin above a bin |
| `Mspace.SmallFit` | libc64/dl_malloc.c:4489-4495 | the first bin tried: the request's, or the next if that is empty |
| `Mspace.NextSmall` | libc64/dl_malloc.c:4506-4513 | the lowest marked bin above those two |
| `Mspace.FirstMark` | libc64/dl_malloc.c:3721-3722 | the lowest marked bin |
| `Mspace.Mspace.constructor` | libc64/dl_malloc.c:4394-4412 | a fresh mspace is valid: one record chunk, the rest top, nothing live; only words of the segment change |
| `Mspace.Mspace.InsertSmallChunk` | libc64/dl_malloc.c:2880-2896 | a loose small chunk goes to the front of its bin |
| `Mspace.Mspace.UnlinkSmallChunk` | libc64/dl_malloc.c:2899-2916 | a small chunk leaves its bin; no abort check fires |
| `Mspace.Mspace.UnlinkFirstSmallChunk` | libc64/dl_malloc.c:2919-2934 | the first chunk leaves its bin |
| `Mspace.Mspace.InsertLargeChunk` | libc64/dl_malloc.c:2951-3000 | a loose large chunk is put in its tree |
| `Mspace.Mspace.UnlinkLargeChunk` | libc64/dl_malloc.c:3019-3088 | a large chunk leaves its tree; no abort check fires |
| `Mspace.Mspace.UnlinkTree` | libc64/dl_malloc.c:3020-3087 | its pointer work store by store equals the specified stores |
| `Mspace.Mspace.InsertChunk` | libc64/dl_malloc.c:3092-3094 | any loose chunk is binned |
| `Mspace.Mspace.UnlinkChunk` | libc64/dl_malloc.c:3096-3098 | any binned chunk is unlinked |
| `Mspace.Mspace.ReplaceDv` | libc64/dl_malloc.c:2937-2946 | a new designated victim; the old one, always small, is binned |
| `Mspace.Mspace.FindBest` | libc64/dl_malloc.c:3644-3693 | a smallest sufficient chunk over all tries, or null exactly if there is none |
| `Mspace.Mspace.TmallocLarge` | libc64/dl_malloc.c:3644-3714 | exact best fit, the first chunk of its size, unless the designated victim fits at least as well; a remainder is binned, and the victim stays |
| `Mspace.Mspace.TmallocSmall` | libc64/dl_malloc.c:3717-3753 | a smallest tree chunk, the first of its size, serves a small request; a remainder of at least 16 bytes becomes the designated victim, and the old victim is binned |
| `Mspace.Mspace.ServeNextBin` | libc64/dl_malloc.c:4506-4530 | the chunk is always split, and the remainder, of at least 16 bytes, is the designated victim |
| `Mspace.Mspace.ServeSmallRequest` | libc64/dl_malloc.c:4485-4537 | the small-request branch: a block from the chunk of choice, with the rest and the victim exactly as they are left, or no change and only victim and top left |
| `Mspace.Mspace.ServeVictim` | libc64/dl_malloc.c:4548-4566 | the designated victim is split or given whole |
| `Mspace.Mspace.ServeTop` | libc64/dl_malloc.c:4568-4578 | a piece of top is given |
| `Mspace.Mspace.Malloc` | libc64/dl_malloc.c:4476-4590 | null iff the request is MAX_REQUEST or more, or every free chunk is smaller than needed and top is no larger, and then nothing changed; else one new live block of nb to nb+15 bytes at the address of the chunk of choice, and no payload word of any live block changed. Chunks, queues, designated victim and top afterwards are stated exactly: a remainder of at least 16 bytes is the victim if the block came from the victim or the request is small, and is queued otherwise; a victim given whole is gone; a replaced one is queued; otherwise it stays |
| `Mspace.Mspace.FreeForward` | libc64/dl_malloc.c:4637-4673 | merging with what follows, in all its cases: top, victim, any free chunk, or none; a victim on either side grows to the merged chunk, one that joins top is gone |
| `Mspace.Mspace.Free` | libc64/dl_malloc.c:4592-4681 | exactly the block is no longer live; every other live block keeps all its words; no abort check fires. Chunks, queues, victim and top afterwards are stated exactly: the victim is the merged chunk if it touched the block, gone if that joined top, and unchanged otherwise; else the merged chunk is queued |
| `Mspace.Mspace.Store` | libc64/dl_malloc.c:1581-1584 | a caller's store keeps the heap valid and changes one word |
| `Mspace.Mspace.Memalign` | libc64/dl_malloc.c:3831-3914 | null iff the request, enlarged by the rounded alignment, is refused, and then nothing changed; else one new live block at the address that malloc gives for the enlarged request, if that is aligned, and otherwise at the first multiple with at least 16 bytes in front; of exactly nb bytes, or all the room behind if that is 16 bytes more or less; leader and trailer are freed in that order; no word of another block changed; the call returns iff the alignment is at most 2^31 |
| `MspaceRuns.CreateMspaceWithBase` | libc64/dl_malloc.c:4433-4445 | null iff the capacity is out of bounds; else a valid empty mspace over exactly the region |
| `MspaceRuns.Step` | libc64/dl_malloc.c:4476-4681 | one request keeps allocator and callers in step; an allocation, aligned or not, is refused iff the heap cannot serve it; address and layout are those malloc, memalign and free leave |
| `MspaceRuns.Run` | libc64/dl_malloc.c:4394-4681 | every sequence of requests: the heap stays valid, every pointer is aligned, not already held, and the address of the chunk of choice in the layout before; a request is refused exactly if that layout has no room; every held block keeps every word stored to it; and whenever nothing is held the layout is that of a new mspace |
| `MspaceRuns.HistoryOnce` | libc64/dl_malloc.c:4394-4681 | the sequence of requests determines every address returned, every refusal and every layout |
| `MspaceRuns.NothingLive` | libc64/dl_malloc.c:4592-4681 | a valid heap without live blocks has the layout of a new mspace: the record chunk and one top of full size, empty queues and no designated victim |
| `MspaceRuns.AloneServed` | libc64/dl_malloc.c:4476-4590 | in every run a request that finds nothing held is refused iff it would not fit into all of top |
| `MspaceRuns.StoreInStep` | libc64/dl_malloc.c:2600-2611 | a store to a held block leaves the stored words of all other held blocks |
| `MspaceRuns.EndlessRounding` | libc64/dl_malloc.c:3834-3840 | an aligned request, to a new mspace, whose rounding loop does not end |
| `HeapChecks.BinFind` | libc64/dl_malloc.c:2700-2733 | bin_find finds exactly the chunks that are in a bin |
| `HeapChecks.CheckInuseChunk` | libc64/dl_malloc.c:2566-2575 | none of its assertions fails on a live chunk |
| `HeapChecks.CheckFreeChunk` | libc64/dl_malloc.c:2577-2598 | nor on a free one |
| `HeapChecks.CheckTopChunk` | libc64/dl_malloc.c:2538-2552 | none of its assertions fails, except that no segment holds top iff the segment ends at 2^32 |
| `HeapChecks.LastSegment` | libc64/dl_malloc.c:2538-2552 | a new mspace for which that assertion fails |
| `HeapChecks.CheckSmallBin` | libc64/dl_malloc.c:2676-2698 | nor on a small bin |
| `HeapChecks.CheckTree` | libc64/dl_malloc.c:2614-2662 | nor on a trie, child order included |
| `HeapChecks.CheckTreeBin` | libc64/dl_malloc.c:2665-2673 | nor on a tree bin |
| `HeapChecks.TraverseAndCheck` | libc64/dl_malloc.c:2736-2764 | nor during the traversal, which counts the whole segment, or nothing but top where the segment ends at 2^32 |
| `HeapChecks.CheckMallocState` | libc64/dl_malloc.c:2767-2793 | the whole checker accepts every valid heap whose segment ends below 2^32 |
| `DspHeap.DspMspace.Malloc` | libc64/dsp.c:1148-1200 | a new block with its size in front; totals go up by the size; the pointer is never a multiple of 8, and 4 behind the block that malloc chooses for the size and 4 more |
| `DspHeap.DspMspace.Memalign` | libc64/dsp.c:1205-1259 | the pointer is 4 off every multiple of the rounded alignment, and of the alignment itself where that is a power of two; null iff refused; 4 behind the block that memalign gives |
| `DspHeap.DspMspace.Free` | libc64/dsp.c:1263-1305 | the block goes back and its stored size off the total: totals are conserved |
| `DspHeap.RoomExact` | libc64/dsp.c:1148-1171 | the block has room for the request iff adding 4 does not wrap around |
| `DspHeap.TinyGrant` | libc64/dsp.c:1148-1176 | in any fresh mspace, requests of 2^32-4 bytes and more are granted a block too small for them |
| `DspHeap.SumWithout` | libc64/dsp.c:1171-1174 | the total of held sizes does not depend on the order of counting |
| `MinimRuns.RegionsDetermine` | kmod/minim.c:49-152 | two block arrays with the same live regions are equal |
| `MinimRuns.AllocatedRender` | kmod/minim.c:106-135 | the stores of an allocation |
| `MinimRuns.AllocatedNormal` | kmod/minim.c:106-135 | keep the runs non-empty and no two free runs touching |
| `MinimRuns.AllocatedRegions` | kmod/minim.c:106-135 | and add exactly one region |
| `MinimRuns.FreedRender` | kmod/minim.c:160-209 | the stores of a free, with both neighbours |
| `MinimRuns.FreedNormal` | kmod/minim.c:160-209 | keep the runs normal |
| `MinimRuns.FreedRegions` | kmod/minim.c:160-209 | and remove exactly one region |
| `Minim.Minim.constructor` | kmod/minim.c:28-45 | one free run over the whole pool |
| `Minim.Minim.FindBest` | kmod/minim.c:62-104 | the first among the shortest free runs that are long enough, or none exactly if there is none |
| `Minim.Minim.Alloc` | kmod/minim.c:49-152 | best fit, address, one new region; its size is the request rounded up to blocks; fails iff no free run is long enough, and then changes nothing; the result is unset iff the request is 0 or its rounding wraps around |
| `Minim.Minim.FreeByIdx` | kmod/minim.c:156-241 | frees exactly the region that starts at the block and belongs to the client; otherwise changes nothing |
| `Minim.Minim.Free` | kmod/minim.c:245-270 | the same for an address |
| `Minim.Minim.FreeByClient` | kmod/minim.c:274-306 | the scan ends iff no run of the client has a free run or another run of the client directly on its left; then exactly the client's regions are gone; else its pointer rests for ever on a zero block, and which block that is, and what has been freed by then, is exact; the other clients' regions stay in either case |
| `Minim.ZeroBlockTraps` | kmod/minim.c:280-303 | on a zero block the scan's pointer never moves again |
| `Minim.StuckScan` | kmod/minim.c:274-306 | a client that allocates twice from any fresh pool gets the scan stuck |
| `Minim.BlockedKept` | kmod/minim.c:274-306 | freeing one run does not change which later runs block the scan |
| `Minim.RunsWalk` | kmod/minim.c:62-104 | walking the run heads lands exactly on the end; interior blocks are zero; each head has one positive count; no two free runs touch |
| `Minim.BlocksAddUp` | kmod/minim.c:28-45 | allocated and free blocks add up to the pool |
| `Minim.RegionsDisjoint` | kmod/minim.c:49-152 | live regions lie in the pool and share no block |
| `Minim.AllocThenFree` | kmod/minim.c:49-241 | an allocation followed by its free restores every block |
| `Minim.FreesCommute` | kmod/minim.c:156-241 | frees of two regions commute |
| `Rpc.Driver.Find` | kmod/dev.c:299-326 | the first slot in use by the file |
| `Rpc.Driver.Open` | kmod/dev.c:731-818 | the first unused slot, in a session of its own; every error case exactly |
| `Rpc.Driver.Release` | kmod/dev.c:822-847 | the slot becomes unused at once, even while pending |
| `Rpc.Driver.Send` | kmod/mlb.c:196-334 | sends iff ready and the FIFO has room; ready is restored when it has not |
| `Rpc.Driver.Write` | kmod/dev.c:1133-1254 | accepted iff the size is that of a message, nobody waits, the file is open, the copy succeeds and the mailbox takes it; every error exactly, the wrong size included; a failed copy leaves its rubbish in the client's message |
| `Rpc.Driver.Submit` | kmod/dev.c:1146-1172 | after the copying: the client waits if the mailbox takes the message, and is idle otherwise |
| `Rpc.Driver.Read` | kmod/dev.c:1013-1125 | returns, once, the DSP's answer to the last accepted request of the file, or what a failed copy has left of it; the debug word for 4 bytes; every error exactly |
| `Rpc.Driver.Interrupt` | kmod/dev.c:2904-2970 | the reply goes to the client whose request it answers, and to nobody if that was released, even if its slot is open again |
| `Rpc.Accepted` | kmod/dev.c:1144-1157 | an accepted write keeps the order: pending iff current, and current implies not ready |
| `Rpc.TurnedAway` | kmod/dev.c:1158-1172 | a write the mailbox turns away keeps it |
| `Rpc.Faulted` | kmod/dev.c:1144-1188 | so does a write that fails in the copying |
| `Rpc.Released` | kmod/dev.c:835-847 | a release keeps it, with a request in flight or not |
| `Rpc.Replied` | kmod/mlb.c:171-189 | the reply interrupt keeps it |
| `RpcRuns.Run` | kmod/dev.c:731-2970 | every run of opens, closes, writes, reads and replies: each operation does and returns exactly what follows from the history |
| `RpcRuns.AnswerExactly` | kmod/dev.c:1013-1151 | a message that can be read is the DSP's answer to the file's last request iff no write of the file has failed in the copying since, or one happened to leave the same words |
| `RpcRuns.DamagedReply` | kmod/dev.c:1013-1188 | a run in which a read returns what a failed copy left, for any DSP and any rubbish |
| `RpcRuns.SomebodyWaits` | kmod/dev.c:1140-1148 | current_client is set iff the history has a file waiting |
| `RpcRuns.AllSlotsUsed` | kmod/dev.c:748-785 | all slots are in use iff sixteen files are open |
| `RpcRuns.OneSlotStep` | kmod/dev.c:731-1254 | an operation of one file leaves what every other file may expect |
| `RpcRuns.AnswerStep` | kmod/dev.c:2904-2970 | an answer changes what one waiting file may expect, and nothing else |
| `RpcGrain.Refines` | kmod/dev.c:731-1254 | every single assignment, and the interrupt at any point but one, is nothing or one whole operation of the driver, and keeps the invariant |
| `RpcGrain.Alone` | kmod/dev.c:731-1254 | each operation ends, and its assignments one after the other, uninterrupted, are the whole operation: a write is accepted iff the mailbox is ready and has room |
| `RpcGrain.CalmRuns` | kmod/dev.c:731-1254 | so does every run that keeps out of that point |
| `RpcGrain.PatientRuns` | kmod/dev.c:731-1254 | and every run that releases no client while pending keeps out of it |
| `RpcGrain.Delivery` | kmod/dev.c:1013-1151 | in such a run a reply read is the answer to the reader's own last request iff no write of it has failed in the copying since, or one left the same words; without failed copies it always is |
| `RpcGrain.HarmlessRuns` | kmod/dev.c:1144-1188 | only a failed write harms a client's message |
| `RpcGrain.Lands` | kmod/dev.c:1144-1172 | where a reply is stored: in the client whose request it answers, except at two points of a write |
| `RpcGrain.RaceExactly` | kmod/dev.c:1148-1152 | the interrupt breaks the invariant iff it comes between the writer's state assignment and its look at the mailbox |
| `RpcGrain.RaceSpoils` | kmod/dev.c:1148-1152 | from there the writer reads the answer to somebody else's request |
| `RpcGrain.RaceReached` | kmod/dev.c:1148-1152 | a run that gets there |
| `Qdma.RowsAt` | dsp/libc64_dsp/include/dma.h:64-72 | the addresses of a two-dimensional transfer |
| `Qdma.LimitsExactly` | dsp/libc64_dsp/include/syscalls.h:316-324 | the rows asked for are the rows programmed iff nothing is to be moved, or both counts are below 2^16 and the pitch of more than one row is in -32768..32767 |
| `Qdma.Dsp.Copy2d` | dsp/libc64_dsp/src/dma.c:218-263 | a transfer starts over the rows that the 16-bit count and pitch fields describe, with the bytes its source holds then |
| `Qdma.Dsp.Tick` | dsp/libc64_dsp/include/dma.h:50-72 | any of its bytes may land at any time, and nothing else changes |
| `Qdma.Dsp.Wait` | dsp/libc64_dsp/src/dma.c:157-172 | afterwards all of them have |
| `Checksums.Add` | dsp/components/demo_checksum/demo_checksum.c:51-64 | the flat loop: the sum of the words mod 2^32, byte by byte: the first bytes of the words once, the second 256 times, and so on |
| `Checksums.TotalBytes` | dsp/components/demo_checksum/demo_checksum.c:51-64 | a sum of words is the sum of their bytes, each with the weight of its place |
| `Qdma.Dsp.Store` | dsp/components/demo_checksum/demo_checksum.c:330-346 | byte i of what is stored is w / 256^i % 256, and nothing else changes |
| `Checksums.SumBlock` | dsp/components/demo_checksum/demo_checksum.c:321-327 | the inner loop sums words that no running transfer touches |
| `Checksums.Turn` | dsp/components/demo_checksum/demo_checksum.c:293-361 | one working set, while the next is on its way to the other buffer |
| `Checksums.AddSkip` | dsp/components/demo_checksum/demo_checksum.c:252-368 | whenever the transfers land, output k is, or grows by, the sum of the block fetched as number k, and nothing but results and scratch is written; where the working set fits and the stride fits its field, that is the flat sum of block k, k strides behind the first; both also in terms of the bytes alone; which requests are refused, stray, overrun or are served is exact |
| `Checksums.RightExactly` | dsp/libc64_dsp/src/dma.c:239-249 | of the requests whose working set fits, the results are right for every memory iff there are no results, at most one block a set, no bytes in a block, or the stride is in -32768..32767 |
| `Checksums.WideStride` | dsp/libc64_dsp/src/dma.c:247-249 | two blocks 64 kB apart: in every memory the driver programs pitch 0 and sums the first one twice |
| `Checksums.StaysExactly` | dsp/libc64_dsp/src/dma.c:239-249 | the first transfer writes within its scratch buffer iff the product of the 16-bit counts fits |
| `Checksums.FitStays` | dsp/components/demo_checksum/demo_checksum.c:268-291 | a working set that fits passes the size test and stays; whatever else passes has a product that wrapped around |
| `Checksums.EscapingJob` | dsp/components/demo_checksum/demo_checksum.c:268-291 | a request that passes, with all areas disjoint in 16 MB, whose first transfer writes 196612 bytes from scratch on |
| `Checksums.Add32` | dsp/components/demo_checksum/demo_checksum.c:158-248 | the flat sums of consecutive blocks, in terms of the bytes, iff a block fits its buffer, and no change otherwise |
| `Checksums.BlockInBuffer` | dsp/components/demo_checksum/demo_checksum.c:312-330 | the buffer holds the block, word by word, where the inner loop looks |
| `Checksums.TotalSame` | dsp/components/demo_checksum/demo_checksum.c:58-61 | equal bytes have equal sums |
| `CinitTables.Load` | src/coff_overlay.c:319-370 | the loop ends, and memory is as if each record were written in order; where nothing wraps around, the table is read as far behind virtAddr as its address is behind physAddr, and byte i of a record is written as far behind virtAddr as its destination plus i is behind physAddr; the last record to hold a byte for an address wins; a table at address 0 is skipped |
| `CinitTables.SameDistance` | src/coff_overlay.c:38 | P2V keeps the distance from the base, modulo 2^32, wraps included |
| `CinitTables.RecordBytes` | src/coff_overlay.c:331-364 | where record k of a table starts, and that length, destination and bytes lie there, lowest byte first |
| `CinitTables.EncodeEncodes` | src/coff_overlay.c:331-364 | records laid out with headers and padding are such a table |
| `CinitTables.EncodesOne` | src/coff_overlay.c:331-364 | a table holds one list of records only |
| `CinitTables.LastWins` | src/coff_overlay.c:346-361 | a byte is what the last record to cover it says |
| `CinitTables.Untouched` | src/coff_overlay.c:346-361 | a byte that no record covers keeps its value |
| `AddressMaps.Tables.VirtToPhys` | libc64/dsp.c:1526-1570 | the one region or huge page that has the address, or 0 |
| `AddressMaps.Tables.PhysToVirt` | libc64/dsp.c:1574-1635 | the first region, huge page or left-over table entry that has the address, or 0 |
| `AddressMaps.Tables.AllocContig` | libc64/dsp.c:804-960 | one region more is mapped, of the rounded size |
| `AddressMaps.Tables.AllocHuge` | libc64/dsp.c:804-960 | the pages in use are filled in, later entries are left; the table is left behind iff there are more than 128 pages |
| `AddressMaps.Tables.TypeOf` | libc64/dsp.c:171-192 | the first entry with the address; for address 0 the first entry of all, as long as any entry is unused |
| `AddressMaps.Tables.Free` | libc64/dsp.c:1022-1076 | one region is no longer mapped; the page table stays; for address 0 a mapped region goes iff the first type is mapped and some entry is unused |
| `AddressMaps.VirtPhysVirt` | libc64/dsp.c:1526-1635 | virtual to physical and back is the identity on everything mapped, whatever the table holds beyond |
| `AddressMaps.PhysVirtPhys` | libc64/dsp.c:1526-1635 | and so is the other way round |
| `AddressMaps.SurvivesExactly` | libc64/dsp.c:1574-1635 | a physical address survives the way to virtual and back iff it is mapped |
| `AddressMaps.StrayAnswers` | libc64/dsp.c:1605-1630 | dsp_phys_to_virt answers for an unmapped address iff an unused table entry covers it and the 32-bit sum is not 0 |
| `AddressMaps.StrayPage` | libc64/dsp.c:804-1635 | two huge pages, freed, then one: the second page is still answered for |
| `AddressMaps.LostRegion` | libc64/dsp.c:804-1076 | freeing what a refused allocation returned unmaps a region that is in use |

## Left out

- MspaceRuns.CreateMspaceWithBase: requires base and capacity to be multiples of 8. `init_top` does not round the size down, and `Words.TopHeadExactly` says when that puts stray bits in top's head word.
- Mspace.Mspace.constructor: requires the same multiples of 8.
- MspaceRuns.Step: alignments above 2^31, for which the call does not return.
- Mspace.Mspace.Free: the `trim_check` counter and `sys_trim`, which only change that counter on a segment that was handed in.
- Mspace.Mspace.Malloc: `sys_alloc`, which is never called here.
- Mspace.Mspace.ReplaceDv: sets the new victim before the old one is binned, so that the invariant holds between the two; the original bins first. The stores are the same.
- Minim.Minim.FreeByClient: returns false at the point from which the original loops for ever.
- Checksums.AddSkip: stops before a transfer that writes outside its buffer or reads what is not a source byte, and before sums that run past the buffer; the original goes on. Block sizes are multiples of 4, the stride is read as a signed number, and block addresses do not wrap around 2^32.
- CinitTables.Load: the table of records is well formed; the original does not check it. Reading the COFF file and copying sections are not part of this model.
- AddressMaps.Tables.AllocContig: requests of 0 bytes and those whose rounding wraps to 0, which mmap refuses, and the other failure paths of mmap and of the ioctls.
- AddressMaps.Tables.AllocHuge: the same requests; the failure paths of mmap and of the ioctls, with what they leave in the entry; stops before the first write behind the page table. Regions end below 2^32 in both address spaces.
- Rpc.Driver.Open: the limit test on `at_num_open`, which compares the boolean result of `atomic_inc_and_test` and so never refuses; the wait queue.
- Rpc.Driver.Release: freeing shared memory, power state and overlays, and the fastcall handshake, whose DSP half is not in the repository.
- Rpc.Driver.Write: requires a size other than 4: the 4-byte test message, which bypasses the clients. The emergency unload. The DSP is assumed to reply once to each message.
- RpcGrain.Refines: two threads that read and write the same file at once, since `fops__read` takes no mutex.
- The global `dl*` routines, `realloc`, `calloc`, statistics and footprint: easier members over the same heap.
- Mapping with mmap, footers, locks and segments beyond the first: compiled out in this build.
- Cache maintenance, device registration, power sequencing, logging and the log ring buffer.
- Overlay reference counts, which the kernel flags alone do not determine.
