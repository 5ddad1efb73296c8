# A model of libffi's allocator, trampolines and argument marshalling

libffi, as bundled with jffi, turns calls described at run time into calls of C functions and back.
This project models the parts of it in which state and arithmetic are intertwined, and proves what
they promise.

* **The heap.** dlmalloc as `closures.c` configures it: 64-bit words, memory from mmap only, no
  footers, one global state. The size-to-bin arithmetic (`Words`, `BinIndex`, `BinMap`), the small
  bins as rings (`Rings`, `SmallBins`), the tree bins as tries of rings (`Forest`, `Chains`,
  `TreeSearch`, `TreeBins`), the boundary tags as words and as the tiling they stand for (`Tiling`,
  `Tags`), the heap invariant and the steps that keep it (`HeapState`, `HeapGrowth`, `HeapSteps`,
  `GrowthSteps`), segments (`Segments`) and how regions join them (`Regions`), request sizes
  (`Requests`), and the operations themselves (`Allocator`, `Memalign`, `Realloc`). `Payloads` and
  `Clients` say what a caller sees, over whole runs, and `Checkers` that the assertions of
  dlmalloc's own debug checkers hold in every state.
* **Trampolines and closures.** The two-level pool of static trampolines (`Lists`, `Pool`,
  `Trampolines`) and the pairing of heap chunks with trampolines or executable aliases (`Closures`).
* **Calls.** For 32-bit ARM and AArch64: where the calling side puts every argument, where the
  closure side, computing independently, looks for it, and whether all of it fits the bytes set
  aside (`Align`, `Bytes`, `PrepCif`, `VfpLayout`, `ArmArgs`, `ArmCalls`, `ArmBytes`, `A64Args`,
  `A64Bytes`, `A64Calls`). `ArmRules` and `A64Rules` say where arguments belong without either side's
  state, by the procedure call standard and by sums over the list of types.
* **Types.** Structure layout in libffi and in the Java binding (`Layout`) and the recognition of
  homogeneous floating-point aggregates (`Hfa`).

Code that updates state in place is a class whose methods follow the source branch by branch. The
heap's memory is a map from addresses to words: head and foot words in `Tags`, tree fields in
`Forest`, links in maps. Addresses are integers, 0 is null, and 32-bit and 64-bit wrap-around is
written out where it matters. The state the tags and links stand for is a ghost value, which `Valid`
ties to them.

What the operating system does is a parameter: `mapping`, `answer`, `TableMemory` and `Platform` say
what mmap, malloc and sysconf would answer. All that is assumed of them is that a region lies in no
segment, and that memory for a table is not in use and, for its code, made of whole mappings.

## What turned out to be false

* **32-bit ARM, complex values returned in memory.** `ffi_prep_cif_machdep` treats them like
  structures, so that their address takes the first argument word, but `ffi_prep_cif_core` counts
  that word only for structures. `ArmBytes.ComplexOverruns` gives argument lists that overrun the
  area, and `ArmBytes.SafeIff` shows that this is the only way to.
* **32-bit ARM, core registers after a spilled candidate.** Section 5.5 of ARM IHI 0042 closes the
  core registers when an argument does not fit in those left and the stack is in use (stage C.6).
  `ffi_prep_args_VFP` leaves them open, so that a later, smaller argument is put in a register where
  the callee looks on the stack. `ArmRules.LateOvertakes` gives a call, and `ArmRules.AsRuledIff`
  shows that this is the only way to depart from the standard. The closure side makes the same
  choice, so that both sides of libffi still agree.
* **AArch64, arguments and copies of structures.** Their areas can meet in two ways. Pointers to
  copies that find no register are not counted (`A64Bytes.TenStructsOverlap`), and where values of
  different alignments are on the stack, the padding between them is not what `ffi_prep_cif_core`
  counted, as it also counts values that are in registers (`A64Bytes.PaddingOverlaps`, a call without
  a spilled pointer). `A64Bytes.DisjointIff` says for every list of arguments when they stay apart;
  `A64Bytes.AreaBound` and `A64Bytes.RoomForPointers` bound what is missing by those two amounts,
  for structures by reference that are aligned to at most 8.
* **AArch64, structures by reference with an alignment above 8.** The call aligns a spilled pointer
  like the structure, the closure like a pointer (`A64Args.AgreesIff`).
* **`newArray`** leaves out the padding between elements that `initialize_aggregate` puts there;
  the two agree exactly if the element's size is a multiple of its alignment
  (`Layout.ArrayAgreesIff`).
* **`internal_memalign`** never returns for an alignment above 2^63: the loop that rounds it up to a
  power of two shifts its one bit out (`Memalign.LoopEndsIff`). `Memalign.Memalign` is for all
  alignments up to there.

## Model

| member | source | states |
|---|---|---|
| BinIndex.ComputeTreeIndexCorrect | jni/libffi/src/dlmalloc.c:2319-2335 | the branch-free computation gives, for every 64-bit size, the first bin whose successor starts above the size |
| BinIndex.TreeBinRange | jni/libffi/src/dlmalloc.c:2339-2350 | for every large size a bin index is the size's own exactly if the size lies in that bin's range; the last range is open |
| BinIndex.TreeBinOrders | jni/libffi/src/dlmalloc.c:2348-2350 | a size in a lower tree bin is smaller than any in a higher one, so the index is monotone |
| BinIndex.MinSizeMonotone | jni/libffi/src/dlmalloc.c:2348-2350 | the least sizes of the bins never fall from one bin to the next |
| BinIndex.WalkBit | jni/libffi/src/dlmalloc.c:2343-2345 | the sign bit tested at depth d of a tree walk is the next bit of the size's key for its bin |
| BinIndex.RootKey | jni/libffi/src/dlmalloc.c:2339-2345 | all sizes of one bin agree on the bits that the bin's tree does not resolve |
| BinMap.FirstMarkedLowest | jni/libffi/src/dlmalloc.c:2382-2397 | least_bit and compute_bit2idx together give the lowest marked bin of any non-zero map |
| BinMap.BitToIndexInverts | jni/libffi/src/dlmalloc.c:2382-2392 | compute_bit2idx inverts idx2bit for all 32 bins |
| BinMap.NextMarked | jni/libffi/src/dlmalloc.c:2397-2400 | left_bits, least_bit and compute_bit2idx give the next marked bin above an index, or show that there is none |
| BinMap.Mark | jni/libffi/src/dlmalloc.c:2359-2363 | marking sets the one bin's bit and no other |
| BinMap.Clear | jni/libffi/src/dlmalloc.c:2360-2364 | clearing clears the one bin's bit and no other |
| BinMap.ShiftedMapLow | jni/libffi/src/dlmalloc.c:4166-4170 | the two low bits of the shifted map are the wanted bin and the one after it, and the complement of the lowest is the correction from one to the other |
| BinMap.ShiftedAbove | jni/libffi/src/dlmalloc.c:4186-4188 | the shifted map, shifted back and masked, marks exactly the non-empty bins above the index |
| Words.LeastBitIsLowest | jni/libffi/src/dlmalloc.c:2397 | x & -x is the lowest set bit of any non-zero word |
| TreeBins.TreeBins.InsertLargeChunk | jni/libffi/src/dlmalloc.c:3045-3094 | keeps the invariant of tries, rings and map and adds exactly the one chunk with its size |
| TreeBins.TreeBins.FindPlace | jni/libffi/src/dlmalloc.c:3058-3077 | the walk ends at the node of the size, or at the empty slot where such a node belongs, and then no node has the size |
| TreeBins.TreeBins.PlaceRoot | jni/libffi/src/dlmalloc.c:3052-3057 | an empty bin gets the chunk as its root |
| TreeBins.TreeBins.PlaceLeaf | jni/libffi/src/dlmalloc.c:3067-3072 | the chunk becomes a leaf |
| TreeBins.TreeBins.PlaceTwin | jni/libffi/src/dlmalloc.c:3078-3086 | the chunk joins the ring of its size, without a parent |
| TreeBins.TreeBins.UnlinkLargeChunk | jni/libffi/src/dlmalloc.c:3113-3182 | keeps the invariant and removes exactly the one chunk, whether twin, head of a ring, leaf or inner node |
| TreeBins.TreeBins.DetachRightmost | jni/libffi/src/dlmalloc.c:3127-3142 | finds a leaf below the node by going right where possible and cuts it off; ends, and gives null exactly for a leaf |
| TreeBins.TreeBins.Relink | jni/libffi/src/dlmalloc.c:3143-3181 | parent, bin and children of the node pass to its replacement, and the bin's bit is cleared if nothing is left |
| Forest.NodeReplaced | jni/libffi/src/dlmalloc.c:3143-3181 | a leaf or twin with the right leading size bits can take any node's place: the trie invariant holds again, for every node |
| Forest.LeafInserted | jni/libffi/src/dlmalloc.c:3061-3072 | hanging a leaf at the slot its next size bit selects keeps the trie invariant |
| Forest.LeafRemoved | jni/libffi/src/dlmalloc.c:3131-3137 | taking a leaf out keeps the trie invariant |
| Forest.LeftSmaller | jni/libffi/src/dlmalloc.c:2749-2751 | all sizes below a node's left child are smaller than all below its right one |
| Forest.SamePlace | jni/libffi/src/dlmalloc.c:3061-3066 | a node is determined by its bin, depth and resolved size bits |
| Chains.TwinDropped | jni/libffi/src/dlmalloc.c:3116-3126 | when a chunk leaves a ring, every other chunk is still on the ring of the one tree node of its size |
| Chains.OwnerSize | jni/libffi/src/dlmalloc.c:2720-2755 | every stored chunk is on the ring of a tree node of its size and bin |
| TreeBins.TreeBins.FindBest | jni/libffi/src/dlmalloc.c:3734-3780 | gives null exactly if no stored chunk fits, else a chunk of least size among all those that fit, with its surplus |
| TreeBins.TreeBins.SearchPath | jni/libffi/src/dlmalloc.c:3739-3761 | after the walk down the path of the size, every chunk that fits is no better than the best one seen or lies in the deepest untaken right subtree |
| TreeBins.TreeBins.NextRoot | jni/libffi/src/dlmalloc.c:3763-3771 | with nothing in the own bin, the root of the next non-empty bin covers all chunks that fit |
| TreeBins.TreeBins.SearchLeft | jni/libffi/src/dlmalloc.c:3773-3780 | the leftmost walk ends with the smallest of a subtree |
| TreeBins.TreeBins.FindSmallest | jni/libffi/src/dlmalloc.c:3805-3821 | finds the smallest chunk of all tree bins |
| TreeSearch.StepPath | jni/libffi/src/dlmalloc.c:3743-3760 | each step of the path walk loses no chunk that could still be best, although it forgets shallower right subtrees |
| TreeSearch.DeeperIsSmaller | jni/libffi/src/dlmalloc.c:3751-3756 | all sizes off the path at a deeper right turn are smaller than all at a shallower one |
| TreeBins.NoneMarked | jni/libffi/src/dlmalloc.c:4208 | with no tree bin marked there is no chunk in the tree bins |
| SmallBins.SmallBins.InsertSmallChunk | jni/libffi/src/dlmalloc.c:2974-2990 | adds the chunk in front of the ring of its bin and marks the bin |
| SmallBins.SmallBins.UnlinkSmallChunk | jni/libffi/src/dlmalloc.c:2993-3010 | removes exactly the one chunk, and unmarks its bin exactly when it was the last |
| SmallBins.SmallBins.UnlinkFirstSmallChunk | jni/libffi/src/dlmalloc.c:3013-3027 | removes the first chunk of a marked bin, and the rest of the bin stays in order |
| SmallBins.MarkedBin | jni/libffi/src/dlmalloc.c:2770-2791 | a small bin is marked exactly if some chunk of its size is binned |
| Tags.Read | jni/libffi/src/dlmalloc.c:1734-1754 | head and foot words tell of every chunk its size, both inuse bits and, if the chunk before is free, where that starts |
| Tags.SplitTags | jni/libffi/src/dlmalloc.c:4228-4231 | the two writes that cut a free chunk leave the tags of all chunks right |
| Tags.FreeTagsWritten | jni/libffi/src/dlmalloc.c:1761-1762 | set_free_with_pinuse leaves the tags of all chunks right, whatever the chunk's own words were |
| Tiling.SplitTiled | jni/libffi/src/dlmalloc.c:1742-1747 | cutting a chunk in two keeps the chunks apart and each one's inuse bit equal to what the next one says of it |
| Tiling.MergeTiled | jni/libffi/src/dlmalloc.c:1742-1747 | so does merging two neighbours |
| HeapState.AbsorbPrev | jni/libffi/src/dlmalloc.c:4298-4305 | consolidating backward keeps the heap invariant around the chunk in hand; the chunk before is free, in a bin or the victim, and preceded by one in use |
| HeapState.AbsorbNext | jni/libffi/src/dlmalloc.c:4337-4341 | consolidating forward keeps it too, and the chunk after is then in use |
| HeapSteps.TakeFront | jni/libffi/src/dlmalloc.c:4228-4231 | using the front of a free chunk and keeping the rest in hand keeps invariant, tags and segments |
| HeapSteps.JoinTop | jni/libffi/src/dlmalloc.c:4319-4326 | a freed chunk below top becomes top |
| Allocator.MallocState.constructor | jni/libffi/src/dlmalloc.c:3304-3311 | the empty heap satisfies the invariant |
| Allocator.MallocState.Malloc | jni/libffi/src/dlmalloc.c:4134-4264 | keeps the heap invariant; a result is a chunk that was not in use, with size from the padded request to 31 bytes more, and no other chunk in use changes. If bins, victim or top can serve the request it succeeds without the system, by the best-fit policy, and what the chosen chunk has to spare stays top, becomes the victim or is binned as the branch says; else it fails exactly if the system gives nothing or the size wraps, and if not, the new region joins the segments, serves the request and leaves its rest as sys_alloc says; at MAX_REQUEST it always fails |
| Allocator.MallocState.Free | jni/libffi/src/dlmalloc.c:4266-4360 | keeps the heap invariant; exactly the one chunk is no longer in use, all others keep place and size. Its space, with the free chunks before and after it, becomes the start of top, the victim if that was one of them, or a binned chunk of the whole size |
| Allocator.MallocState.FreeBackward | jni/libffi/src/dlmalloc.c:4289-4315 | the free chunk before is taken from its bin, or from being the victim, and swallows the chunk; the whole then lands as in the other case |
| Allocator.MallocState.BackToVictim | jni/libffi/src/dlmalloc.c:4306-4310 | the victim has swallowed the chunk after it and stays the victim |
| Allocator.MallocState.FreeForward | jni/libffi/src/dlmalloc.c:4317-4353 | the space becomes the start of top, joins the victim or a binned chunk, or is binned |
| Allocator.MallocState.MergeNext | jni/libffi/src/dlmalloc.c:4331-4350 | the cases in which the chunk after is free and not top |
| Allocator.MallocState.PlaceMerged | jni/libffi/src/dlmalloc.c:4341-4350 | merged with a binned chunk, the space stays the victim or is binned |
| Allocator.MallocState.JoinVictim | jni/libffi/src/dlmalloc.c:4331-4336 | the chunk in hand takes the victim after it and becomes the victim |
| Allocator.MallocState.TmallocLarge | jni/libffi/src/dlmalloc.c:3732-3802 | takes a chunk of least size among the tree-binned ones that fit; declines, changing nothing, exactly if none fits or the victim fits at least as well |
| Allocator.MallocState.CarveLarge | jni/libffi/src/dlmalloc.c:3784-3797 | takes the chunk out and bins what it has to spare, if that is a chunk |
| Allocator.MallocState.TmallocSmall | jni/libffi/src/dlmalloc.c:3805-3841 | takes the smallest tree-binned chunk and makes its rest the victim |
| Allocator.MallocState.SmallFromBins | jni/libffi/src/dlmalloc.c:4161-4213 | serves a small request from an exact bin, the next bin or the trees, or shows that only the victim can do |
| Allocator.MallocState.LargeFromBins | jni/libffi/src/dlmalloc.c:4216-4222 | serves a large request from the trees, or shows that the victim fits better or nothing fits |
| Allocator.MallocState.TakeExactSmall | jni/libffi/src/dlmalloc.c:4168-4178 | uses a small chunk whole |
| Allocator.MallocState.TakeNextSmall | jni/libffi/src/dlmalloc.c:4182-4205 | uses the front of a chunk of the next non-empty small bin, the rest becoming the victim |
| Allocator.MallocState.TakeDv | jni/libffi/src/dlmalloc.c:4224-4242 | splits or exhausts the victim |
| Allocator.MallocState.SplitTop | jni/libffi/src/dlmalloc.c:4244-4254 | cuts the request off top |
| Allocator.MallocState.ReplaceDv | jni/libffi/src/dlmalloc.c:3031-3040 | the chunk in hand becomes the victim and the old one is binned |
| Allocator.MallocState.UnlinkChunk | jni/libffi/src/dlmalloc.c:3190-3192 | takes a chunk out of the kind of bin its size says |
| Allocator.MallocState.InsertChunk | jni/libffi/src/dlmalloc.c:3186-3188 | puts a chunk into the kind of bin its size says |
| Allocator.SmallBits | jni/libffi/src/dlmalloc.c:4165-4188 | the map tricks of the small path find the least fitting small bin, or show that no small chunk fits |
| Allocator.MallocState.SysAlloc | jni/libffi/src/dlmalloc.c:3522-3620 | with memory from the system succeeds, keeps the invariant and every address's executable alias; fails, changing nothing, exactly if mmap fails or the size wraps. The request is cut off the old top exactly if the region continues the segment of top at the same offset, else off the start of the region; the rest stays top, or joins what was first in the segment behind |
| Allocator.MallocState.AddMemory | jni/libffi/src/dlmalloc.c:3554-3606 | without a top the region is the only segment; else it lengthens the segment that ends where it starts, if that holds top and has its offset, so that top grows by it; else it goes in front of the segment that starts where it ends, if that has its offset, and serves the request at once; else it is a segment of its own and the new top, the old one being retired |
| Allocator.MallocState.PrependMemory | jni/libffi/src/dlmalloc.c:3589-3600 | a region in front of a segment becomes part of it; the request is cut off its start and the rest lands with what was first there |
| Allocator.MallocState.StartTop | jni/libffi/src/dlmalloc.c:3559-3572 | the first region becomes a segment of its own and, up to the room kept at its end, top |
| Allocator.MallocState.AppendToTop | jni/libffi/src/dlmalloc.c:3574-3586 | a region behind the segment of top makes both longer, keeping the invariant |
| Allocator.MallocState.PrependAlloc | jni/libffi/src/dlmalloc.c:3333-3372 | allocates exactly the request from the front of the region and consolidates the rest with what was first in the segment |
| Allocator.MallocState.ConsolidateFront | jni/libffi/src/dlmalloc.c:3346-3368 | that rest joins top, the victim, which it then is, or a free chunk in its bin, or is binned by itself, with the sizes added |
| Allocator.MallocState.AddSegment | jni/libffi/src/dlmalloc.c:3376-3427 | the new region becomes top; the old top gets one record, over or behind it, and exactly what is left of it in front of the record is binned; the victim stays |
| Allocator.MallocState.WriteSegment | jni/libffi/src/dlmalloc.c:3376-3415 | the writes of add_segment: the new top, the record at the end of the old one or over it, and the fenceposts |
| Allocator.MallocState.InsertFenceposts | jni/libffi/src/dlmalloc.c:3405-3415 | at least two fenceposts fill the room behind the record up to the old end and nothing else is written |
| Allocator.MallocState.SegmentHolding | jni/libffi/src/dlmalloc.c:2165-2173 | the first segment that holds the address |
| GrowthSteps.NewFront | jni/libffi/src/dlmalloc.c:3593-3600 | a region in front of a segment becomes a free chunk in hand |
| GrowthSteps.Retire | jni/libffi/src/dlmalloc.c:3393-3424 | the writes of add_segment keep invariant, tags and segments, with the old top kept in hand or covered by the record |
| GrowthSteps.LongerTop | jni/libffi/src/dlmalloc.c:3584-3585 | a region behind top's segment makes top longer |
| GrowthSteps.TopEnd | jni/libffi/src/dlmalloc.c:3380-3385 | the record's place, computed back from the segment's end, is the end of top |
| Segments.Append | jni/libffi/src/dlmalloc.c:3577-3585 | appending keeps the segments apart and tiled, and every address's executable alias |
| Segments.Prepend | jni/libffi/src/dlmalloc.c:3591-3600 | so does prepending |
| Segments.Push | jni/libffi/src/dlmalloc.c:3396-3403 | so does a segment of its own |
| Segments.Covered | jni/libffi/src/dlmalloc.c:2839-2853 | every address of a segment, up to the room kept at its end, lies in some chunk of it |
| Segments.OnlyChunk | jni/libffi/src/dlmalloc.c:2839-2853 | and in no other |
| Requests.RequestFits | jni/libffi/src/dlmalloc.c:1704-1713 | below MAX_REQUEST padding never wraps and gives the least legal chunk size that has room for the bytes and the overhead |
| Requests.SystemSizeFits | jni/libffi/src/dlmalloc.c:3523-3525 | the comparison after rounding succeeds exactly if nothing wrapped, and then there is room for the request and what a segment needs, in whole pages of which at most one is too many |
| Payloads.Given | jni/libffi/src/dlmalloc.c:4134-4264 | a successful dlmalloc gives a payload aligned to 8 with room for the bytes, apart from every live payload |
| Payloads.PayloadsApart | jni/libffi/src/dlmalloc.c:2694-2705 | no two live payloads overlap |
| Payloads.PayloadIsCallers | jni/libffi/src/dlmalloc.c:1725-1765 | what a caller writes into its payload reaches no head word and no word of a free chunk |
| Memalign.Memalign | jni/libffi/src/dlmalloc.c:3916-3999 | gives null, changing nothing, exactly if with the slack the request is too big or neither the heap nor the system can serve it; else a payload with the alignment and room asked for, at most 32 bytes above need; other live chunks stay and the heap invariant is kept |
| Memalign.NormalAlignment | jni/libffi/src/dlmalloc.c:3919-3925 | the least power of two not below the alignment and the least chunk size |
| Memalign.LoopEndsIff | jni/libffi/src/dlmalloc.c:3921-3925 | the loop that rounds an alignment up ends exactly for alignments up to 2^63 |
| Memalign.PowerTest | jni/libffi/src/dlmalloc.c:3921 | a & (a - 1) is zero exactly for powers of two |
| Memalign.CutToAlignment | jni/libffi/src/dlmalloc.c:3942-3977 | stays at the chunk if that is aligned, else goes to the aligned spot and leaves a leader of at least 32 bytes in front |
| Memalign.SpotFits | jni/libffi/src/dlmalloc.c:3951-3961 | the spot is aligned and within what was asked for in excess |
| Memalign.SpotFirst | jni/libffi/src/dlmalloc.c:3951-3961 | it is the first aligned spot that leaves room for a leader |
| Memalign.Trim | jni/libffi/src/dlmalloc.c:3936-3995 | leader and trailer are given back, the chunk keeps its place among the live ones; either it has just the size needed or nothing was cut off behind it |
| Memalign.CutBehind | jni/libffi/src/dlmalloc.c:3971-3983 | cuts off what is behind the request exactly if that is more than the least chunk |
| Realloc.Realloc | jni/libffi/src/dlmalloc.c:3845-3912 | gives null, changing nothing, exactly if the request is too big, or does not fit in place and neither the heap nor the system can serve it; else moves the ownership to a chunk with room, at most 31 bytes above need, whose payload starts with the old one's bytes; all other payloads keep their bytes. It stays in place exactly if the chunk is big enough or can grow into top |
| Realloc.Resize | jni/libffi/src/dlmalloc.c:3858-3885 | cuts off and frees what is too much, or grows into top; else changes nothing |
| Realloc.Stretch | jni/libffi/src/dlmalloc.c:3874-3884 | growing into top keeps the heap invariant and all other live chunks |
| Realloc.CopyApart | jni/libffi/src/dlmalloc.c:3903-3905 | the copy overwrites no live payload |
| Clients.Run | jni/libffi/src/dlmalloc.c:3845-4364 | for every client, whose calls may depend on the addresses it got before, every number of calls, and a system that may answer differently each time: the heap stays valid, every block the client should have is there with exactly the bytes it should have, and every new block is new and aligned; a request within range is refused only in a call for which the system refuses memory that would be enough, and that call leaves the segments as they were |
| Clients.Step | jni/libffi/src/dlmalloc.c:3845-4364 | one call of malloc, memalign, realloc or free, or one write inside a block, does to the blocks what the client expects and nothing else, and refuses a request within range only if the system refuses memory that would be enough |
| Clients.BlocksApart | jni/libffi/src/dlmalloc.c:2694-2705 | no two blocks of a client share a byte |
| Checkers.InuseChecks | jni/libffi/src/dlmalloc.c:2660-2668 | every live chunk passes the check of chunks in use |
| Checkers.FreeChecks | jni/libffi/src/dlmalloc.c:2671-2691 | every free chunk but top passes the check of free chunks, but for its links; the chunk after it is always in use |
| Checkers.FreeLinks | jni/libffi/src/dlmalloc.c:2684-2687 | the links of every binned chunk lead back to it, and the chunk in front of it in a small bin has its size unless that is the bin's header |
| Checkers.TopAndDvChecks | jni/libffi/src/dlmalloc.c:2870-2882 | top ends where its segment's foot starts; top and victim have the sizes recorded and are in no bin |
| Checkers.MallocedChecks | jni/libffi/src/dlmalloc.c:2694-2705 | a chunk just allotted passes the check of malloced chunks |
| Checkers.NodeChecks | jni/libffi/src/dlmalloc.c:2711-2751 | every tree node has the index its size computes to and lies in its bin's range, is linked from its parent or bin, and its left child is smaller than its right one |
| Checkers.RingChecks | jni/libffi/src/dlmalloc.c:2720-2755 | every chunk on a node's ring has its size and index and consistent links, and only the node has a parent |
| Checkers.BinFind | jni/libffi/src/dlmalloc.c:2794-2827 | by following links alone finds a chunk exactly if it is in a bin |
| Checkers.TraverseChecks | jni/libffi/src/dlmalloc.c:2842-2850 | chunks in use are in no bin, free ones are in exactly one or the victim, and no two free ones follow each other |
| Trampolines.TrampGlobals.TableAdd | jni/libffi/src/tramp.c:525-533 | pushes a table on the list of tables |
| Trampolines.TrampGlobals.TableDel | jni/libffi/src/tramp.c:539-548 | takes a table off the list, wherever it is |
| Trampolines.TrampGlobals.TrampAdd | jni/libffi/src/tramp.c:556-579 | the trampoline is free again; its whole table is released exactly if it is then wholly free beside another with free trampolines |
| Trampolines.TrampGlobals.TrampDel | jni/libffi/src/tramp.c:585-599 | the trampoline is live; its table leaves the list if it was the last free one |
| Trampolines.TrampGlobals.TableAlloc | jni/libffi/src/tramp.c:434-508 | does nothing if a table has free trampolines; else makes a table of what malloc and mmap gave with all its trampolines free, or fails |
| Trampolines.TrampGlobals.TableFree | jni/libffi/src/tramp.c:514-519 | drops a table of which no trampoline is live |
| Trampolines.TrampGlobals.Init | jni/libffi/src/tramp.c:384-422 | settles once and for all whether trampolines are supported, unless a page is bigger than the code table: they are exactly if the architecture has the code, a file to map it from and a first table can be had; then the table has as many trampolines as the code mapping has room for |
| Trampolines.TrampGlobals.Alloc | jni/libffi/src/tramp.c:618-642 | hands out the first free trampoline of the first table, which was not live, and never meets an empty list; fails exactly if flags are given, the feature is not or turns out not to be supported, or no table has one and none can be had |
| Trampolines.TrampGlobals.Release | jni/libffi/src/tramp.c:678-685 | takes a live trampoline back; all others in use stay mapped where they are |
| Trampolines.TrampGlobals.SetParms | jni/libffi/src/tramp.c:648-656 | the code of the trampoline, looking one mapping above itself, finds target and data; that of every other trampoline of the pool finds what it found before |
| Pool.ListedExactly | jni/libffi/src/tramp.c:525-599 | in every state the list holds exactly the mapped tables with free trampolines, and the counters count what they say |
| Pool.LiveIsMapped | jni/libffi/src/tramp.c:573-578 | no table with a live trampoline is unmapped |
| Pool.OneWhollyFree | jni/libffi/src/tramp.c:570-578 | at most one mapped table is wholly free |
| Pool.SlotsApart | jni/libffi/src/tramp.c:342-367 | code slots and parameter blocks of all trampolines are pairwise disjoint, each block exactly one mapping above its code |
| Pool.AllConserved | jni/libffi/src/tramp.c:485-498 | live and free trampolines are together ntramp for every mapped table |
| Closures.ClosureHeap.Alloc | jni/libffi/src/closures.c:991-1020 | gives null, leaving closures and trampolines as they were, exactly if no code pointer is wanted, the heap refuses, or trampolines are in use and there is none to be had; else a new closure with room, whose code pointer is that of one more trampoline if those are supported and the alias of its address if not |
| Closures.ClosureHeap.Pair | jni/libffi/src/closures.c:1003-1016 | the closure gets a trampoline of its own if they are supported, which the first call finds out, and else the alias of its segment; it is given up exactly if trampolines are in use, none is free and no table can be had |
| Closures.ClosureHeap.DataToCode | jni/libffi/src/closures.c:1023-1037 | for every closure in use gives the code pointer it was allocated with, however the heap and the pool have changed since; other addresses outside the heap come back as they are |
| Closures.ClosureHeap.Free | jni/libffi/src/closures.c:1043-1056 | gives back the closure's trampoline, if it has one, and its chunk, and nothing else; all other closures keep their code pointers |
| Closures.HeapGrown | jni/libffi/src/dlmalloc.c:3574-3605 | growing the heap changes no closure's code pointer |
| Align.AlignUpIsMacro | jni/libffi/include/ffi_common.h:118 | for powers of two the bit operations of FFI_ALIGN give the least multiple not below the number |
| Align.Aligned | jni/libffi/include/ffi_common.h:118 | rounding up gives the multiple less than one alignment away |
| PrepCif.PrepCore | jni/libffi/src/prep_cif.c:152-207 | counts the bytes of a call: the address of a structure returned, then every argument padded to its alignment and to whole words |
| PrepCif.NextCount | jni/libffi/src/prep_cif.c:166-205 | every argument is counted from the next multiple of its alignment on, with the least number of whole words that holds it |
| PrepCif.CountCovers | jni/libffi/src/prep_cif.c:166-205 | the count never falls and grows by at least each argument's size |
| VfpLayout.Cif.PlaceVfpArg | jni/libffi/src/arm/ffi.c:845-889 | places a candidate at the lowest-numbered free registers in a row that suit it, with back-filling, or fails exactly if there are none and then closes all sixteen registers |
| VfpLayout.Cif.Layout | jni/libffi/src/arm/ffi.c:891-907 | places the candidates in order until the first that fails |
| VfpLayout.UsedIsUnion | jni/libffi/src/arm/ffi.c:858-889 | until the first failure the registers in use are exactly those of the placed candidates |
| VfpLayout.BlocksApart | jni/libffi/src/arm/ffi.c:858-882 | no register is given twice, doubles start at even ones, and all fit in sixteen |
| VfpLayout.EntryOf | jni/libffi/src/arm/ffi.c:872 | a candidate is placed exactly if fewer candidates came before it than there are entries in the end, and its entry is the one with that index |
| VfpLayout.StateKept | jni/libffi/src/arm/ffi.c:874-881 | until the first failure vfp_reg_free is the lowest free register, 16 if there is none |
| VfpLayout.EntriesFit | jni/libffi/src/arm/ffi.c:872 | however many candidates there are, vfp_args gets at most sixteen entries |
| VfpLayout.FailsLate | jni/libffi/src/arm/ffi.c:858-888 | a candidate can only fail when at least five registers are in use |
| ArmArgs.SlotsAgree | jni/libffi/src/arm/ffi.c:478-545 | for every list of arguments the closure looks for each argument exactly where the call put it |
| ArmArgs.WalkersRelated | jni/libffi/src/arm/ffi.c:174-243 | the call's cursors are the closure's rounded up, and the flags differ only when that makes no difference |
| ArmRules.AsRuledIff | jni/libffi/src/arm/ffi.c:174-243 | the call puts every argument where the procedure call standard says exactly if no argument fits in core registers that the standard closed earlier, for an argument too big for them with the stack already in use |
| ArmRules.LateOvertakes | jni/libffi/src/arm/ffi.c:207-242 | a list of six arguments for which it does not: an integer is put in r1 instead of on the stack |
| ArmRules.SysvAsRuled | jni/libffi/src/arm/ffi.c:153-172 | without VFP registers every argument is where the standard says, for every list |
| ArmRules.FirstInteger | jni/libffi/src/arm/ffi.c:302-316 | a first integer is in r0, unless that holds the address for a structure or complex value of more than four bytes that is not returned in VFP registers |
| ArmCalls.PrepArgs | jni/libffi/src/arm/ffi.c:174-243 | writes every argument at its slot, in order, with small integers extended to a word |
| ArmCalls.PrepIncoming | jni/libffi/src/arm/ffi.c:477-545 | lists the closure's slot of every argument |
| ArmCalls.SlotsApart | jni/libffi/src/arm/ffi.c:203-242 | no two arguments share a byte, in registers or on the stack |
| ArmCalls.RoundTrip | jni/libffi/src/arm/ffi.c:478-545 | every argument arrives: what the closure reads at its slot is the value the call was given, byte for byte |
| ArmCalls.WordIsValue | jni/libffi/src/arm/ffi.c:89-114 | the word at the slot of a small integer is its value modulo 2^32: its two's-complement value if it is signed and its plain value if not |
| ArmCalls.RegistersHoldWords | jni/libffi/src/arm/ffi.c:203-209 | a candidate in VFP registers has its words in the single-precision registers from its first one on, each in its own |
| ArmCalls.ReturnArrives | jni/libffi/src/arm/ffi.c:189-195 | the address for a value returned in memory is not overwritten |
| ArmBytes.PrepBytes | jni/libffi/src/arm/ffi.c:246-334 | the bytes set aside for a call |
| ArmBytes.LeastCover | jni/libffi/src/arm/ffi.c:322-334 | the bytes set aside are the least multiple of 8 that covers the count, the word for a value returned in memory, and four registers |
| ArmBytes.PrepArgsSysv | jni/libffi/src/arm/ffi.c:153-172 | the soft-float walker's addresses |
| ArmBytes.PrepIncomingSysv | jni/libffi/src/arm/ffi.c:446-475 | the soft-float closure finds each argument where the call wrote it |
| ArmBytes.SpillsLate | jni/libffi/src/arm/ffi.c:203-242 | when a candidate finds no registers, at least 16 bytes of arguments have been counted |
| ArmBytes.AllCovered | jni/libffi/src/arm/ffi.c:197-242 | at every argument the walker's cursors are covered by the count so far |
| ArmBytes.FitsAlways | jni/libffi/src/arm/ffi.c:174-243 | core-register and stack bytes fit the prepared bytes for every list of arguments, under both conventions, unless a complex value is returned in memory |
| ArmBytes.ComplexOverruns | jni/libffi/src/arm/ffi.c:308-314 | with a complex value returned in memory there is a list of arguments that does not fit |
| ArmBytes.SafeIff | jni/libffi/src/arm/ffi.c:289-315 | so the bound holds for all lists exactly if no complex value is returned in memory |
| A64Args.StatesAgree | jni/libffi/src/aarch64/ffi.c:982-1121 | for every list without widely aligned structures by reference both sides are in the same state before each argument |
| A64Args.AgreesIff | jni/libffi/src/aarch64/ffi.c:779-791 | both sides find the same place for a type after any arguments they agree on exactly if it is not passed by reference with an alignment above 8 |
| A64Rules.PlacesAsTold | jni/libffi/src/aarch64/ffi.c:705-816 | for every list each argument is where sums over the earlier ones say: the X register number is the number of integers, pointers to copies and words of small composites before it, the V register number that of floating-point values, as long as they fit in eight, and else the stack offset is the first multiple of its alignment behind the last argument there; the closure looks there, unless a structure by reference is widely aligned |
| A64Rules.StackedIff | jni/libffi/src/aarch64/ffi.c:779-816 | an argument is on the stack exactly if fewer registers are left than it needs |
| A64Rules.ClosedForGood | jni/libffi/src/aarch64/ffi.c:805-812 | and then no later one of its kind is in registers |
| A64Bytes.PrepBytes | jni/libffi/src/aarch64/ffi.c:541-621 | the bytes set aside for a call |
| A64Bytes.LeastCover | jni/libffi/src/aarch64/ffi.c:613 | the bytes set aside are the least multiple of 16 that covers the count and the word for a value returned in memory |
| A64Bytes.NsaaIs | jni/libffi/src/aarch64/ffi.c:284-303 | for every list the rounded NSAA is what was put on the stack, word by word, the spilled pointers and the padding in front of widely aligned arguments |
| A64Bytes.CountCovers | jni/libffi/src/prep_cif.c:166-205 | the prepared bytes cover the arguments in registers and on the stack and what was counted for structures by reference |
| A64Bytes.NoRefFits | jni/libffi/src/aarch64/ffi.c:695-830 | without structures by reference the argument area suffices for every list, whatever the alignments |
| A64Bytes.StructAreaIs | jni/libffi/src/aarch64/ffi.c:308-318 | for every list and area the structure area reaches down by what the copies take, each rounded down to its alignment |
| A64Bytes.AreaBound | jni/libffi/src/aarch64/ffi.c:695-830 | whatever is passed by value, arguments and copies together need at most the prepared bytes, 8 for every pointer to a copy that found no register, and the padding on the stack, of which narrow alignments need none |
| A64Bytes.DisjointIff | jni/libffi/src/aarch64/ffi.c:695-830 | for every list the two areas stay apart exactly if what is stacked, the spilled pointers, the padding on the stack and the copies fit the prepared bytes |
| A64Bytes.RoomForPointers | jni/libffi/src/aarch64/ffi.c:779-791 | enough argument bytes in registers, or counted for none, make room for the spilled pointers and the padding; for structures of whole words that is also necessary |
| A64Bytes.TenStructsOverlap | jni/libffi/src/aarch64/ffi.c:779-791 | ten structures of 24 bytes make the areas meet |
| A64Bytes.PaddingOverlaps | jni/libffi/src/aarch64/ffi.c:284-303 | a call without a spilled pointer in which padding on the stack makes the areas meet |
| A64Calls.Marshal | jni/libffi/src/aarch64/ffi.c:695-830 | writes every argument's pieces, and ends in the marshalling state |
| A64Calls.Outgoing | jni/libffi/src/aarch64/ffi.c:705-816 | where the call puts one argument, and its copy |
| A64Calls.Unmarshal | jni/libffi/src/aarch64/ffi.c:982-1121 | reads every argument at the closure's slot |
| A64Calls.Incoming | jni/libffi/src/aarch64/ffi.c:992-1115 | where the closure looks for one argument |
| A64Calls.SlotsApart | jni/libffi/src/aarch64/ffi.c:284-303 | no two arguments' slots share a byte |
| A64Calls.CopiesApart | jni/libffi/src/aarch64/ffi.c:308-318 | no two copies share a byte |
| A64Calls.CopySpot | jni/libffi/src/aarch64/ffi.c:308-318 | a copy starts at the last multiple of its alignment from which it still ends where the area did |
| A64Calls.GatherSpread | jni/libffi/src/aarch64/ffi.c:381-521 | gathering elements from their 16-byte slots undoes spreading them |
| A64Calls.RoundTrip | jni/libffi/src/aarch64/ffi.c:982-1121 | every argument arrives byte for byte whenever the two areas stay apart and no structure by reference is aligned above 8 |
| A64Calls.AllDelivered | jni/libffi/src/aarch64/ffi.c:695-830 | whenever the areas stay apart a callee finds at the slot of every argument what it needs: an integer as a whole register with its value modulo 2^64, every floating-point value of an aggregate at the start of its own register, the address of a copy with the bytes there, and else the bytes |
| Layout.InitializeAggregate | jni/libffi/src/prep_cif.c:38-93 | fills in size and alignment of a structure and of all structures in it that have none, changing nothing else, or fails, exactly if at some depth a structure not yet laid out has no members or a scalar has size 0 |
| Layout.Initialized | jni/libffi/src/prep_cif.c:38-93 | every structure in the result has the size and alignment of its elements laid out one after the other with tail padding, and the result has the members of the type given |
| Layout.OneLayout | jni/libffi/src/prep_cif.c:38-93 | a type has only one such layout |
| Hfa.SameLeaves | jni/libffi/src/prep_cif.c:38-93 | laying a type out leaves its flattened members as they are |
| Layout.NewStruct | jni/jffi/Struct.c:59-139 | computes the same size and alignment as initialize_aggregate, and throws exactly for no fields or one of size 0 |
| Layout.NewArray | jni/jffi/Struct.c:141-186 | throws exactly for an element of size 0 or a length below 1 |
| Layout.ArrayAgreesIff | jni/jffi/Struct.c:169-184 | an array has the layout of a structure of as many elements exactly if the element's size is a multiple of its alignment |
| Hfa.IsVfpType | jni/libffi/src/aarch64/ffi.c:154-245 | non-zero exactly if the flattened members, a complex counting as two, are one to four of one floating type, and then tells type and number |
| Hfa.VfpTypeP | jni/libffi/src/arm/ffi.c:762-843 | the same on 32-bit ARM, without long double |
| Hfa.IsHfa0 | jni/libffi/src/aarch64/ffi.c:98-118 | the type of the first scalar, however deep |
| Hfa.IsHfa1 | jni/libffi/src/aarch64/ffi.c:123-143 | whether all scalars are of the type |
| Hfa.HomogeneousSize | jni/libffi/src/aarch64/ffi.c:154-245 | a structure of one floating type has no padding, however nested |
| Hfa.RegistersHold | jni/libffi/src/arm/ffi.c:836-842 | the registers asked for hold exactly the bytes of the type |
| Hfa.CodeTells | jni/libffi/src/aarch64/ffi.c:753 | number of elements and type are recovered from the code as the callers recover them |

## Left out

- Memalign.Memalign: alignments above 2^63, for which the source does not return.
- Allocator.MallocState.Free: handing memory back to the system (sys_trim, release_unused_segments) is not modelled; nor are chunks mapped on their own, which the mmap threshold of MAX_SIZE_T never creates.
- Allocator.MallocState.Malloc: the attempt of sys_alloc to map a chunk of MAX_SIZE_T bytes on its own, which fails because its size wraps around, is left out.
- Checkers.TopAndDvChecks: the assertion about the word after top, which is kept at TOP_FOOT_SIZE, is not covered, because words outside chunks are not followed; the same goes for fenceposts and the footprint counters.
- Realloc.Realloc: the bytes of payloads are a memory of their own beside tags and links; `Payloads.PayloadIsCallers` is why they do not meet.
- Clients.Run: the same memory; and a client frees and resizes only blocks it has and writes only inside them. Within range means that size, page and 256 bytes, and twice the alignment for memalign, add up without wrapping around.
- Closures.ClosureHeap.Free: takes the writable address only, as without FFI_CLOSURE_FREE_CODE.
- Closures.ClosureHeap.DataToCode: is for closures in use and addresses outside the heap; for other heap addresses the source reads a field nobody has written.
- A64Calls.RoundTrip: needs the areas apart and no widely aligned structure by reference, the two cases in which it is false.
- Hfa.IsVfpType: for descriptors whose floating-point scalars have the platform's sizes; unions are left out.
- Corruption checks and error recovery (RTCHECK, PROCEED_ON_ERROR), footers, mspaces and statistics: callers free only what is live.
- The list of segments is a sequence here; in memory its records lie in chunks, which the model sets aside and never frees.
- Trampoline tables and trampolines are records in maps; that mapped memory is readable and executable is not part of the model.
- Locks: every public operation is one atomic step.
- The Mach trampoline table, temporary files and the parsing of /proc/maps.
- Variadic calls on Windows and Apple systems, ILP32 and big-endian variants, and the assembly that loads registers from their images.
- The other architectures, and the JNI layer but for Struct.c.
