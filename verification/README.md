# Verified models of the Aug allocator and message archive

This project models two parts of the Aug library and proves properties of the models.

**The allocator.** `src/c/augctx/malloc.c`, in the `ONLY_MSPACES` configuration that `src/c/augctx/mpool.c` selects, for
8-byte words and 8-byte alignment. Memory is a map from addresses to words. Heads, feet, ring links, child and parent
links, bin headers and fenceposts are words in it, and the class `MSpaces.MSpace` reads and writes them in the order the
code does, next to the fields that the state record caches: the two bin maps, the designated victim, top and the
footprint. Ghost fields hold what the words mean: the tiling of the segments by chunks (`Layouts`), the small-bin rings
and the tries (`Tries`), and the set of free chunks that are momentarily in no bin. `MSpace.Valid` ties the two levels
together: boundary tags, rings, tries, bin maps, an exact index, no adjacent free chunks, segments and footprint. Every
operation keeps it.

The proof is layered. `Words`, `Sizes`, `Keys`, `BinMaps` and `Alignments` treat machine arithmetic, with wrapping written
out. `Layouts` and `Canonical` treat tilings. `Chains`, `Tries`, `TrieLinks`, `TrieUnlink` and `TriePrune` treat rings and
tries in memory. `Views` states the invariant of one snapshot; `SmallBins`, `TreeBins`, `TreeUnbins`, `TagOps`, `FreeOps`,
`Carves`, `Stretches` and `Regions` show that each group of writes keeps it; `Segments`, `Heaps`, `Gains`, `Frees`,
`Growth`, `Systems` and `Prepends` lift that to whole spaces. `Searches`, `BestFits` and `Choices` treat which chunk is
chosen. `Payloads`, `Callocs`, `Reallocs` and `Memaligns` treat user data and the derived operations. `Tops` and `Spaces`
treat a new space, at any address. `Pools` says what each operation makes of layout, heads, bins in order and segments;
`Orders` in which order chunks of one size are served; `Replies` that these decide every answer. `Areas` and `Frames` show that the words written lie in chunks of the space.
`Invariants`, `Runs` and `Sessions` state what a user of a space may rely on: at one moment, about an allocation and a
free, and over sessions of all public operations.

A block handed out is a chunk that is `Freeable`: in use and not followed by fenceposts. The chunk in front of fenceposts
is a segment record, which only the allocator itself owns. `Free`, `Realloc` and their kin ask for such a chunk; the code
aborts otherwise. System memory is a parameter: the base of the region the system would return, or 0 when it refuses,
and `Gives` says that such a region is aligned and apart from all segments.

**The archive.** `src/c/augmar`: header, body, info and the archive object. `Mars.Mar` holds the flat buffer and the cached
info; ghost fields hold the list of fields and the body. The region primitives follow `seq_.c`. `room` says whether the
buffer may grow. Sizes are 32-bit, with wrapping written out. `overrun` is set by a copy that does not fit the buffer;
`Valid` says that there was none, and each operation says exactly when there is one. `ByteFiles` says what a body is as a
file; `Archives` states what whole runs of requests make of fields and body.

## Where the code falls short of what one might expect

- Rounding an alignment up never ends for an alignment above 2^63 (`Alignments.RoundingEnds`, `RoundingDiverges`).
  `InternalMemalign` therefore asks for at most 2^63.
- An archive of 65536 fields reopens with no fields, because the count is written in 16 bits (`Images.ImageReadsBack`,
  `CountRunsOut`).
- The sizes of the byte file are 32-bit sums that nothing checks. They are right if and only if leader, fields and body
  need less than 2^32 bytes (`Images.SizesExact`): a two-byte write after a seek to 2^32 - 1, or truncating an empty
  archive to 2^32 - 1 bytes, is not (`SizesRunOut`). `Write`, `Truncate`, `SetContent` and the puts then copy or clear
  beyond the buffer, under exactly the conditions their contracts state.
- The name size test of a put is made on an incremented 32-bit size and accepts the names whose size wraps to at most
  65535 (`Images.NameLimit`). Such a name is stored without its terminator, and the bytes are then those of no list of
  fields (`FieldTables.NoTable`, `Mars.Mar.PutFieldP`).
- The value size test of a put is made on an incremented 32-bit size and accepts 2^32 - 1 (`Images.ValueLimit`); the copy
  that follows leaves the buffer (`Mars.Mar.StoreValue`, `StoreField`).
- A space in memory of the caller whose end is not a multiple of eight does not meet the invariant
  (`MSpace.CreateMspaceWithBase`). With a top size that is no multiple of four the head of top does not even say its size
  and state (`Tops.TopReads`, `Spaces.HeadsMisread`); with one that is, but is no multiple of eight, it does, and yet the
  last fencepost written when that top is retired would lie partly behind the segment (`MSpace.WriteFences`).
- `Seek` returns a position it does not keep when that needs more than 32 bits.
- Opening fewer bytes than a leader discards them and gives an empty archive (`Mars.Mar.Open`).
- A small bin that loses its last chunk keeps stale header links; its map bit alone says that it is empty
  (`SmallBins.SmallRemoveKeeps`).

## Model

| member | source | states |
|---|---|---|
| `Words.HeadDecodes` | src/c/augctx/malloc.c:1662-1673 | size, in-use bit and predecessor bit read from a head word are the ones it was made of, and setting or clearing the predecessor bit changes nothing else |
| `Sizes.PaddingFits` | src/c/augctx/malloc.c:1637-1646 | below the maximum request padding does not wrap, gives 32 bytes below 23, wastes less than a word above, and separates small from large requests exactly at the stated limit |
| `Sizes.FloorLogIs` | src/c/augctx/malloc.c:2216-2233 | the four branch-free steps, with their 32-bit borrows, compute the position of the highest bit |
| `Sizes.TreeIndexIs` | src/c/augctx/malloc.c:2216-2247 | every large size is at least the least size of the bin its index names, and below that of the next bin |
| `Sizes.TreeIndexMonotone` | src/c/augctx/malloc.c:2216-2247 | a larger size never has a smaller bin index |
| `Sizes.MmapSizeFits` | src/c/augctx/malloc.c:3413-3416 | the wrap test accepts a region exactly when nothing wraps; an accepted region is a multiple of the granularity above the request and the overhead of a segment, by at most one granularity; the impossible request is always refused |
| `Sizes.DirectSizeFits` | src/c/augctx/malloc.c:3117-3119 | the wrap test of a direct mapping refuses exactly the sizes whose sum wraps, so the impossible request fails there too |
| `Keys.SizeFitsBin` | src/c/augctx/malloc.c:2605-2610 | a large size lies in the range that the trie of its bin resolves |
| `Keys.KeyStarts` | src/c/augctx/malloc.c:2240-2242 | the left shift of a bin brings the first bit that the bin does not fix to the top of the word, whatever bits are shifted out |
| `Keys.KeySteps` | src/c/augctx/malloc.c:2951-2975 | the top bit of the shifted size selects the branch the size belongs to, and shifting once more gives the key of that branch |
| `BinMaps.Bit2IdxInverts` | src/c/augctx/malloc.c:2279-2289 | the branch-free index of a one-bit word inverts the bit of an index, for all 32 bins |
| `BinMaps.MarkSets` | src/c/augctx/malloc.c:2253-2262 | marking or clearing a bin changes the mark of that bin and of no other |
| `BinMaps.LeastBitIsFirst` | src/c/augctx/malloc.c:2279-2294 | the isolated least bit of a non-empty map is the bit of its first marked bin, and its index is that bin |
| `BinMaps.LeftBitsSelect` | src/c/augctx/malloc.c:2297 | masking with the left bits of a bin keeps exactly the marked bins after it |
| `BinMaps.BinsAfterMarks` | src/c/augctx/malloc.c:4484-4486 | shifting the map down and up again and masking leaves exactly the marked bins after the exact one |
| `Layouts.SplitOk` | src/c/augctx/malloc.c:4492-4495 | cutting any chunk in two keeps the tiling: every chunk ends where its successor begins and none overlap |
| `Layouts.JoinOk` | src/c/augctx/malloc.c:4599-4637 | merging a chunk with the one behind it keeps the tiling |
| `Canonical.LayoutIsCanonical` | src/c/augctx/malloc.c:1562-1570 | two tilings without adjacent vacant chunks that agree on segment bases, fenceposts, the end of top and the in-use chunks are the same tiling |
| `Canonical.UsedDetermines` | src/c/augctx/malloc.c:1562-1570 | the arena and the in-use set alone determine every free extent and top |
| `Chains.ChainInsert` | src/c/augctx/malloc.c:2866-2883 | linking a chunk between two neighbours of a doubly linked ring yields the ring with it there |
| `Chains.ChainRemove` | src/c/augctx/malloc.c:2885-2902 | joining the neighbours of a member yields the ring without it |
| `Tries.LeftBelowRight` | src/c/augctx/malloc.c:1777-1790 | in a well-formed trie every left size is below every right size |
| `Tries.InsertHolds` | src/c/augctx/malloc.c:2937-2982 | an insertion adds exactly the one chunk to the stored set |
| `Tries.InsertWF` | src/c/augctx/malloc.c:2937-2982 | an insertion keeps every node within the bit prefix of its path and no size twice |
| `Tries.RemoveHolds` | src/c/augctx/malloc.c:2984-3074 | a removal takes exactly the one chunk away, also when an interior node is replaced by a leaf |
| `Tries.RemoveWF` | src/c/augctx/malloc.c:2984-3074 | a removal keeps the trie well formed, also when an interior node is replaced by a leaf |
| `TrieLinks.HangLinked` | src/c/augctx/malloc.c:2951-2969 | writing the child word and the links of a new leaf lays out in memory the trie with that leaf |
| `TrieLinks.JoinLinked` | src/c/augctx/malloc.c:2970-2979 | writing four ring links lays out in memory the trie with the chunk in the ring of its size, its parent link null |
| `TrieUnlink.ReplaceUp` | src/c/augctx/malloc.c:3039-3053 | once the node that held the chunk is rebuilt in place and the one word that pointed at it is right, the whole trie in memory is the one without the chunk |
| `TrieUnlink.CrownLinked` | src/c/augctx/malloc.c:3032-3072 | a successor given the parent and both children of the node it replaces is laid out as that node rebuilt |
| `TriePrune.RotateReady` | src/c/augctx/malloc.c:3008-3017 | unlinking the tree member of a ring makes the chunk behind it, the oldest left, ready to succeed |
| `TriePrune.DetachReady` | src/c/augctx/malloc.c:3018-3031 | the leaf reached by going right whenever possible is detached, ready to succeed, and nothing else changes |
| `SmallBins.SmallInsertKeeps` | src/c/augctx/malloc.c:2866-2883 | linking a free chunk into its small bin keeps the whole invariant and every payload |
| `SmallBins.SmallRemoveKeeps` | src/c/augctx/malloc.c:2885-2921 | unlinking any member keeps them too; the last one clears the map bit and leaves the header links stale |
| `TreeBins.TreeInsertKeeps` | src/c/augctx/malloc.c:2937-2982 | linking a free chunk into its trie keeps the invariant of all bins, all tags and every payload |
| `TreeUnbins.TreeRemoveKeeps` | src/c/augctx/malloc.c:3005-3074 | unlinking any chunk of a tree bin keeps them, for ring members, leaves, interior nodes and roots |
| `MSpaces.MSpace.InsertSmallChunk` | src/c/augctx/malloc.c:2866-2883 | the free chunk goes to the front of the bin its size selects; nothing else in the index, no tag and no payload changes |
| `MSpaces.MSpace.UnlinkSmallChunk` | src/c/augctx/malloc.c:2885-2902 | the chunk, anywhere in its bin, leaves the index and the invariant holds |
| `MSpaces.MSpace.UnlinkFirstSmallChunk` | src/c/augctx/malloc.c:2905-2919 | the first chunk of a bin leaves it |
| `MSpaces.MSpace.FindSpot` | src/c/augctx/malloc.c:2951-2981 | the walk of an insertion ends, at the node of equal size or at the empty child word that the size selects |
| `MSpaces.MSpace.InsertLargeChunk` | src/c/augctx/malloc.c:2937-2982 | the trie of the bin becomes the one with the chunk; everything else in the index stays |
| `MSpaces.MSpace.DetachSuccessor` | src/c/augctx/malloc.c:3018-3031 | the loop ends at the leaf that the functional removal takes and clears the word that pointed at it |
| `MSpaces.MSpace.TakeOver` | src/c/augctx/malloc.c:3032-3073 | finding the word that points at the chunk through the bin or the parent, the rest of the unlink leaves the trie without the chunk and clears the map bit exactly when it empties the bin |
| `MSpaces.MSpace.UnlinkLargeChunk` | src/c/augctx/malloc.c:3005-3074 | the trie of the bin becomes the one without the chunk; everything else in the index stays |
| `Searches.FitTest` | src/c/augctx/malloc.c:3640-3641 | the one unsigned comparison accepts exactly the sizes that fit and leave less than what was found |
| `Searches.PathStep` | src/c/augctx/malloc.c:3634-3655 | along the bit path every fitting size is beaten, below the branch taken, or at or beyond the deepest right subtree left behind |
| `Searches.LeftmostStep` | src/c/augctx/malloc.c:3668-3675 | along the leftmost path every fitting size is beaten or still ahead |
| `BestFits.LeastOfBin` | src/c/augctx/malloc.c:3658-3666 | the least fit of the first bin that has one is the least fit of all bins |
| `MSpaces.MSpace.WalkPath` | src/c/augctx/malloc.c:3629-3656 | the bit-path walk covers its bin: what it has not met is in the subtree it stops at |
| `MSpaces.MSpace.WalkLeftmost` | src/c/augctx/malloc.c:3668-3675 | the leftmost walk finds the least fit of the subtree it is given |
| `MSpaces.MSpace.SearchLarge` | src/c/augctx/malloc.c:3621-3675 | the search yields a chunk of minimum size among all tree-binned chunks of at least nb, and nothing exactly when there is none |
| `MSpaces.MSpace.SearchSmall` | src/c/augctx/malloc.c:3694-3711 | the first marked tree bin yields a smallest tree chunk |
| `Choices.FitBeatsDv` | src/c/augctx/malloc.c:3678 | one wrapping comparison decides between the tree chunk found and the designated victim: the tree chunk is taken exactly when the victim is not at least as good and something binned fits, and then it is a smallest binned fit |
| `Choices.LargeIsBest` | src/c/augctx/malloc.c:137-139 | a large request so takes a chunk of minimum size among all free ones that fit, the victim where sizes tie, and the front of top only when nothing free fits |
| `MSpaces.MSpace.TmallocLarge` | src/c/augctx/malloc.c:3621-3691 | null exactly when the designated victim is at least as good as every binned chunk or nothing binned fits, and then nothing has changed; otherwise a best fit, the oldest of its size, is taken, a remainder of 32 bytes or more is binned, and the victim stays |
| `MSpaces.MSpace.TmallocSmall` | src/c/augctx/malloc.c:3694-3730 | a smallest tree chunk, the oldest of its size, is taken; a remainder of 32 bytes or more becomes the designated victim, and the old victim is then in its bin |
| `Gains.WholeGains` | src/c/augctx/malloc.c:2379-2382 | marking a whole free chunk in use keeps the invariant and gains exactly that chunk |
| `Gains.CutGains` | src/c/augctx/malloc.c:3683-3687 | splitting a free chunk keeps the invariant, gains exactly the front and leaves the rest free |
| `Gains.TopGains` | src/c/augctx/malloc.c:4535-4540 | splitting top keeps the invariant and gains exactly the front |
| `MSpaces.MSpace.ReplaceDv` | src/c/augctx/malloc.c:2923-2932 | the old designated victim goes to its bin and the new one takes its place; the layout stays |
| `Choices.ExactIndex` | src/c/augctx/malloc.c:4463-4467 | the two low bits of the shifted map are non-zero exactly when a bin fits without remainder, and the index chosen is the exact bin or, failing that, the next |
| `Choices.NextBin` | src/c/augctx/malloc.c:4480-4489 | the least bin after the exact one holds the smallest binned chunks that fit |
| `MSpaces.MSpace.AllocExact` | src/c/augctx/malloc.c:4465-4475 | a remainderless fit is taken whole |
| `MSpaces.MSpace.AllocNext` | src/c/augctx/malloc.c:4478-4503 | otherwise the smallest binned chunk that fits is cut or taken |
| `MSpaces.MSpace.AllocDv` | src/c/augctx/malloc.c:4519-4537 | the designated victim is cut, or exhausted when less than a chunk would be left |
| `MSpaces.MSpace.AllocTop` | src/c/augctx/malloc.c:4539-4550 | the front of top serves the request |
| `MSpaces.MSpace.Malloc` | src/c/augctx/malloc.c:4448-4556 | null if and only if the request is too large, or neither a free chunk nor top can serve it and the system refuses or the size wraps, and then nothing has changed; otherwise an 8-aligned block whose chunk has nb <= size < nb + 32, every other in-use chunk and payload as it was; whenever the space has room the one preferred chunk, and the layout, the victim, top and every bin, in order, are those that taking it leaves; else the region is merged with top, with a segment, or added, exactly as the code decides; no word that the space does not own changes |
| `Pools.TookHeads` | src/c/augctx/malloc.c:3719-3723 | the victim and top after an allocation: what is left of the victim, or of a chunk cut for a small request, is the victim; a victim used up is gone; else the victim stays; what is left of top is top |
| `Pools.ReplacedBinned` | src/c/augctx/malloc.c:2923-2932 | a victim that is replaced is afterwards in the bin of its size |
| `Replies.ChosenUnique` | src/c/augctx/malloc.c:4448-4550 | the preferred chunk is one chunk: bin order decides among equal sizes |
| `Choices.ChosenHasRoom` | src/c/augctx/malloc.c:4448-4556 | whenever some chunk is chosen the space has room, so the system is asked only when nothing free and not even top can serve |
| `Runs.ServedApart` | src/c/augctx/malloc.c:2586-2597 | a chunk just allocated lies within the address space, is aligned and overlaps no other in-use chunk |
| `FreeOps.FreedChunk` | src/c/augctx/malloc.c:4562-4651 | chunk by chunk, the layout after a free: one chunk in place of the freed one and its vacant neighbours, its successor relinked, everything else unchanged |
| `FreeOps.FreeKeeps` | src/c/augctx/malloc.c:4590-4640 | the head, foot and pinuse words that free writes keep the invariant and every other payload |
| `Frees.FreeHeap` | src/c/augctx/malloc.c:4590-4640 | freeing keeps the whole invariant, designated victim, top, segments and arena included |
| `MSpaces.MSpace.FreeForward` | src/c/augctx/malloc.c:4613-4640 | consolidating forward into top, into the designated victim, with a binned chunk or with nothing leads to the freed layout; the victim changes only if it absorbs the chunk, and otherwise the coalesced chunk goes to its bin |
| `MSpaces.MSpace.FreeChunk` | src/c/augctx/malloc.c:4572-4640 | so does consolidating backward first, with the early exit when the designated victim absorbs the chunk; layout, heads and every bin, in order, are stated |
| `MSpaces.MSpace.Free` | src/c/augctx/malloc.c:4562-4651 | free of null does nothing; otherwise exactly that chunk leaves the in-use set, the layout coalesces and every other payload stays; the victim changes only if it is next to the chunk, and is then the coalesced chunk, or none if top took it; every bin, in order, is stated; no word that the space does not own changes |
| `Replies.GivenHeads` | src/c/augctx/malloc.c:4585-4640 | the victim and top after a free, stated on addresses and sizes alone |
| `Orders.FiledWaits` | src/c/augctx/malloc.c:137-147 | a small chunk given back is served before all of its size that wait already, a large one after them |
| `Orders.DrawnWaits` | src/c/augctx/malloc.c:1763-1770 | taking the chunk that a bin offers leaves the others of its size in order |
| `Orders.FrontWaits` | src/c/augctx/malloc.c:1763-1770 | the chunk a bin offers is the first that waits at its size: the most recent small one, the oldest large one |
| `Orders.OthersWait` | src/c/augctx/malloc.c:1763-1770 | filing or drawing a chunk does not disturb the order at any other size, also when a leaf replaces a node |
| `Replies.ReplySame` | src/c/augctx/malloc.c:4448-4704 | the answer to a request, and the layout, heads, bins and segments it leaves, are determined by those before it |
| `Replies.SameAnswers` | src/c/augctx/malloc.c:4448-4704 | two sessions of mallocs, callocs, memaligns, reallocs, frees and writes that start alike and ask the same get the same addresses throughout, growth included, whatever the blocks hold |
| `Runs.FreeUndoesMalloc` | src/c/augctx/malloc.c:4448-4651 | freeing what was just allocated restores every extent |
| `Runs.FreesCommute` | src/c/augctx/malloc.c:4562-4651 | two frees give the same layout in either order |
| `Sessions.SessionsAgree` | src/c/augctx/malloc.c:4448-4704 | two sessions from one state, of mallocs, callocs, memaligns, reallocs, frees and the caller's writes that do not make the space grow, that end with the same in-use chunks end with the same layout |
| `Sessions.SessionSteady` | src/c/augctx/malloc.c:4448-4704 | every moment of a session, growth included, has the invariant of tags, bins and coalesced chunks and the same state record |
| `Sessions.BlocksApart` | src/c/augctx/malloc.c:2586-2597 | at every moment of a session no two chunks overlap |
| `Sessions.CallKeepsBlock` | src/c/augctx/malloc.c:4448-4704 | malloc, calloc, memalign, realloc, free and a caller's own write leave every block they do not name where it is, with its size and every word of its contents, and still to be freed, also when the space grows |
| `Sessions.BlockSurvives` | src/c/augctx/malloc.c:4448-4704 | so does any sequence of these operations |
| `Sessions.BlockFollowed` | src/c/augctx/malloc.c:4448-4704 | a block that is never freed nor written can be followed through any sequence of operations from one reallocation to the next: its first n bytes stay, for every n that it holds and that each reallocation of it asks for |
| `Growth.FrameConfined` | src/c/augctx/malloc.c:2306-2312 | an operation that frames the chunks of a space changes no word outside its segments |
| `Frames.FreeFrame` | src/c/augctx/malloc.c:4590-4640 | the words that free writes lie in chunks of the space |
| `Sessions.SessionConfined` | src/c/augctx/malloc.c:2306-2312 | no session, with its caller's writes, changes a word that the space does not own at its end |
| `Invariants.SegmentTiled` | src/c/augctx/malloc.c:2722-2750 | each address of a segment from its first aligned one on lies in exactly one chunk |
| `Invariants.TagsTell` | src/c/augctx/malloc.c:2552-2584 | head words tell size and in-use state, the predecessor bit is the predecessor's state, a free chunk repeats its size in its successor's prev_foot |
| `Invariants.NoVacantNeighbours` | src/c/augctx/malloc.c:2733-2741 | the chunk behind a free chunk is in use: no two free chunks, top included, are adjacent |
| `Invariants.IndexExact` | src/c/augctx/malloc.c:2662-2719 | a chunk is in a bin if and only if it is free and not the designated victim, and then only in the bin its size selects |
| `Invariants.MapsExact` | src/c/augctx/malloc.c:2651-2684 | a map bit is set if and only if its bin holds a chunk |
| `MSpaces.MSpace.InitTop` | src/c/augctx/malloc.c:3181-3193 | top starts at the first aligned address at or behind the one given; its head reads back as its size, not in use, behind a chunk in use, if and only if the size is a multiple of four that keeps the foot clear of the head; an aligned foot holds the overhead; no word but those of head and foot changes |
| `Tops.TopReads` | src/c/augctx/malloc.c:3181-3193 | the same on words, for every size: a foot that starts or ends inside the head, or a size with either of its two low bits set, spoils what the head says |
| `MSpaces.MSpace.WriteFences` | src/c/augctx/malloc.c:3296-3304 | the loop fills the segment to its end with fencepost heads, two of them or more; the last one lies inside the segment if and only if the end is a multiple of eight |
| `Systems.RecordPlace` | src/c/augctx/malloc.c:3270-3279 | the padded, aligned segment record goes right before the fenceposts, or replaces old top when that is too small |
| `Systems.AddShort` | src/c/augctx/malloc.c:3281-3305 | an old top of less than 32 bytes becomes record and fenceposts |
| `Systems.AddLong` | src/c/augctx/malloc.c:3281-3316 | a larger old top becomes a free chunk, record and fenceposts, all within the old segment |
| `MSpaces.MSpace.AddSegment` | src/c/augctx/malloc.c:3268-3319 | the invariant is kept, the new region is top, the old segments stay, of the in-use chunks only the record is new, and the front of old top, if a chunk, is in its bin |
| `Prepends.PrependWrites` | src/c/augctx/malloc.c:3225-3261 | in each case the words prepending writes are those that would free the rest of the region |
| `MSpaces.MSpace.PrependAlloc` | src/c/augctx/malloc.c:3225-3264 | the front of the region serves the request exactly and the rest merges with the old first chunk, be it top, the designated victim, free or in use; layout, heads and bins are those of giving the rest back |
| `Growth.ExtendHeap` | src/c/augctx/malloc.c:3466-3476 | appending a region to the segment of top keeps the invariant and the in-use set |
| `MSpaces.MSpace.UseRegion` | src/c/augctx/malloc.c:3462-3508 | a region behind the segment of top is appended and served from old top, one before a segment is prepended and served from its start, and only one that adjoins neither becomes a segment and top; segments, victim and top are stated for each, and the request is always satisfied |
| `MSpaces.MSpace.SysAlloc` | src/c/augctx/malloc.c:3413-3512 | null exactly when the system refuses or the size wraps, with chunks, bins, segments and footprint unchanged; otherwise the region is merged as above, the footprint grows by it, and the maximum follows |
| `Pools.NoAppend` | src/c/augctx/malloc.c:3460-3466 | when the first segment that ends at the region does not qualify, none does |
| `Pools.FrontedIs` | src/c/augctx/malloc.c:3225-3264 | prepending is putting the region in front, cutting off what is asked, and giving the rest back |
| `Systems.GainedServes` | src/c/augctx/malloc.c:4448-4556 | what an allocation gives may be freed, as may everything that could be before |
| `Callocs.CallocRequestIs` | src/c/augctx/malloc.c:4661-4666 | the request is exactly n * e when that is a size, and otherwise one that no allocation satisfies |
| `MSpaces.MSpace.MemSet` | src/c/augctx/malloc.c:4668-4669 | the first n bytes are zero, the other bytes of a last partial word and all other words stay |
| `MSpaces.MSpace.Calloc` | src/c/augctx/malloc.c:4653-4671 | null exactly where malloc would fail on the exact product, and then nothing has changed; otherwise the answer of malloc on the product, all zero; no word that the space does not own changes, and without growth the arena is the same |
| `MSpaces.MSpace.MemCopy` | src/c/augctx/malloc.c:3793-3795 | the first n bytes are copied, the other bytes of a last partial word and all other words stay |
| `Payloads.LowBytes` | src/c/augctx/malloc.c:3793-3795 | two words count as equal on n bytes exactly when each of those bytes is equal |
| `Reallocs.CarveWrites` | src/c/augctx/malloc.c:3757-3762 | marking both pieces of a cut chunk in use, in either order, writes the right heads whatever the payload held |
| `Stretches.StretchHeap` | src/c/augctx/malloc.c:3765-3775 | growing a chunk into top keeps the invariant and every payload |
| `Reallocs.MoveDone` | src/c/augctx/malloc.c:3790-3798 | allocating, copying and freeing moves the contents and leaves every other block alone |
| `MSpaces.MSpace.CopyFree` | src/c/augctx/malloc.c:3790-3798 | the new block starts with the first n bytes of the old one, which is freed; every other block is untouched |
| `MSpaces.MSpace.Shrink` | src/c/augctx/malloc.c:3750-3762 | giving back a tail keeps the front in place with its contents; layout, victim, top and bins are those of a cut and a free |
| `MSpaces.MSpace.InternalRealloc` | src/c/augctx/malloc.c:3734-3801 | null exactly when the request is too large, or the chunk neither has the size, nor reaches into top with the room, and malloc fails; the block stays where it is exactly when one of these two holds; success yields a chunk of the size the request needs with the first min(old payload, new bytes) bytes preserved and every other block untouched; failure changes nothing; layout, victim, top, bins and segments are those of the steps taken; no word that the space does not own changes |
| `MSpaces.MSpace.Realloc` | src/c/augctx/malloc.c:4673-4695 | realloc of null is malloc and fails exactly as malloc does; of a block, exactly as above |
| `Alignments.PowerTest` | src/c/augctx/malloc.c:3810 | the bit test finds exactly the powers of two |
| `Alignments.RoundedIs` | src/c/augctx/malloc.c:3808-3814 | the alignment used is the least power of two that is at least the alignment and 32 |
| `Alignments.RoundingEnds` | src/c/augctx/malloc.c:3810-3814 | the rounding ends, at once or by doubling, if and only if the alignment is at most 2^63 |
| `Alignments.RoundingDiverges` | src/c/augctx/malloc.c:3810-3814 | for an alignment of 2^63 + 1 the doubling loop is entered and never left |
| `Alignments.AlignUpIs` | src/c/augctx/malloc.c:3837-3839 | adding and masking rounds an address up to the alignment, less than one alignment away |
| `Memaligns.SpotIs` | src/c/augctx/malloc.c:3837-3844 | the spot is aligned, leaves a leading piece of at least 32 bytes or none, and keeps the room the request needs |
| `Memaligns.SpotLeast` | src/c/augctx/malloc.c:3837-3844 | no lower spot is aligned with a leading piece of at least 32 bytes or none |
| `Memaligns.PaddedChunk` | src/c/augctx/malloc.c:3825-3826 | the padded request takes exactly the chunk of the request, the alignment and 32 bytes |
| `Memaligns.TopSuffices` | src/c/augctx/malloc.c:3825-3827 | memalign never fails while top exceeds that sum |
| `MSpaces.MSpace.TrimToAlignment` | src/c/augctx/malloc.c:3825-3882 | cutting off and freeing leader and trailer leaves one chunk at the least aligned spot and the invariant |
| `MSpaces.MSpace.InternalMemalign` | src/c/augctx/malloc.c:3805-3888 | null exactly when the padded size would pass the maximum or malloc fails on it, and then nothing has changed, and never while top exceeds request, alignment and 32 bytes; otherwise the block is the first fitting multiple of the rounded alignment in the chunk malloc gives, holds the request with at most 32 bytes to spare, and every other block is untouched; layout, victim, top, bins and segments are those of the steps taken |
| `MSpaces.MSpace.constructor` | src/c/augctx/malloc.c:4368-4386 | over memory of any contents, at any address and of any size, the state chunk lies at the first aligned address and top behind it; the whole invariant holds, with the state chunk alone in use, if and only if the memory ends on a multiple of eight and leaves room for top; top's head reads back under the condition of InitTop |
| `MSpaces.MSpace.CreateMspace` | src/c/augctx/malloc.c:4388-4405 | null exactly when the capacity is too large or the system refuses; otherwise a valid space, one mapped segment of the whole region, no victim, and the exact place and size of top |
| `MSpaces.MSpace.CreateMspaceWithBase` | src/c/augctx/malloc.c:4407-4419 | null exactly outside the capacity limits; otherwise, for any base and capacity, a space that meets the invariant if and only if the memory ends on a multiple of eight and leaves room for top, and whose top reads back as its size if and only if that is a multiple of four clear of the overhead |
| `Spaces.HeadsMisread` | src/c/augctx/malloc.c:4407-4419 | on an aligned base a capacity of 1001 bytes gives a top of 17 whose head says 16, one of 1002 bytes a head that says in use, one of 1004 bytes a readable top of 20 |
| `Bytes.EncodeDecodes` | src/c/augsys/endian.c:159-194 | 16 and 32-bit encoding is decoded back, modulo the width |
| `Bytes.EncodePlaces` | src/c/augsys/endian.c:180-194 | the bytes are those of the number modulo the width, the most significant first |
| `Bytes.LowerMerges` | src/c/augctx/string.c:68-72 | lower-casing merges bytes 65 to 90 with 97 to 122, letter by letter, and no other two |
| `Bytes.CompareIsAlike` | src/c/augmar/header_.c:102-108 | comparing as many bytes as a stored name has, terminator included, finds no difference exactly when the whole names have one length and each pair of bytes is equal or the two cases of a letter |
| `FieldTables.PutFieldOk` | src/c/augmar/header_.c:349-426 | a put by name keeps names different in more than case |
| `FieldTables.PutFinds` | src/c/augmar/header_.c:349-426 | after a put the field is found under its name in any case, at the same ordinal or at the end, with the new value, and every other field is found where it was |
| `FieldTables.FindIs` | src/c/augmar/header_.c:93-114 | a name finds exactly the field whose name has its length and, byte by byte, equals it or differs in the case of a letter, in byte values |
| `FieldTables.DropFinds` | src/c/augmar/header_.c:135-196 | after a delete the field is gone, earlier fields keep their ordinals and later ones move down by one |
| `FieldTables.ReplaceEncodes` | src/c/augmar/header_.c:388-414 | replacing the bytes of one field replaces that field in the table |
| `FieldTables.DropEncodes` | src/c/augmar/header_.c:153-160 | cutting out the bytes of one field deletes it from the table |
| `FieldTables.PutValueWrites` | src/c/augmar/header_.c:326-341 | with the name bytes kept by the resize and never rewritten, the three writes make the region the new field |
| `FieldTables.PutWrites` | src/c/augmar/header_.c:395-414 | the five writes fill the resized region with the new field |
| `FieldTables.NoTable` | src/c/augmar/header_.c:395-414 | no table of fields has the bytes of a table followed by a field whose stored name has no terminator |
| `FieldTables.TableDetermined` | src/c/augmar/header_.c:83-114 | the bytes and the count determine the fields and where the table ends |
| `Bytes.ResizedKeeps` | src/c/augmar/seq_.c:323-341 | a resize keeps everything before the region, the common prefix of the region and everything behind it |
| `Mars.Mar.ResizeSeq` | src/c/augmar/seq_.c:83-117 | growing, moving the tail and cutting give that resize whenever the total fits 32 bits; then it fails, changing nothing, only when it must grow without room; otherwise the total wraps and the buffer shrinks instead |
| `Mars.Mar.OffsetN` | src/c/augmar/header_.c:83-91 | the walk ends at the offset of field n |
| `Mars.Mar.OffsetP` | src/c/augmar/header_.c:93-114 | the walk ends at the first field with the name in any case, or behind the last |
| `Mars.Mar.ClearFields` | src/c/augmar/header_.c:116-133 | no field is left, the body is the same, the number removed is returned |
| `Mars.Mar.DelFieldN` | src/c/augmar/header_.c:135-163 | the field list loses exactly field n, or nothing changes; the body is the same |
| `Mars.Mar.DelFieldP` | src/c/augmar/header_.c:165-196 | the field list loses exactly the named field, whose ordinal is returned, or nothing changes |
| `Mars.Mar.GetFieldN` | src/c/augmar/header_.c:198-226 | the value of field n of the list, or none |
| `Mars.Mar.GetFieldP` | src/c/augmar/header_.c:228-258 | the value of the field of that name, or none |
| `Mars.Mar.GetField` | src/c/augmar/header_.c:260-289 | name and value of field n of the list, or none |
| `Mars.Mar.StoreValue` | src/c/augmar/header_.c:319-343 | the resize and the three writes leave the buffer exactly when the new archive or the incremented value size needs more than 32 bits; otherwise the list has the new value, or nothing changes for lack of room |
| `Mars.Mar.StoreField` | src/c/augmar/header_.c:385-426 | the same for a whole field at the end of the table or in place of one with its name |
| `Mars.Mar.StoreSlipped` | src/c/augmar/header_.c:385-426 | a name whose size has wrapped is stored without its terminator, behind the last field |
| `Mars.Mar.PutFieldN` | src/c/augmar/header_.c:291-347 | a copy leaves the buffer exactly when the new archive or the incremented value size needs more than 32 bits; otherwise the list has the new value at n, and failure, exactly for a bad ordinal, a value of more than 65534 bytes or no room, changes nothing |
| `Mars.Mar.PutFieldP` | src/c/augmar/header_.c:349-426 | for names of any length: a copy leaves the buffer exactly under the stated sizes; otherwise the list becomes the one with the field put by name and its ordinal is returned, except exactly when the name's size wraps and the put is accepted, and then no list of fields has the bytes left; failure, exactly as stated, changes nothing |
| `Mars.Mar.FieldNtoP` | src/c/augmar/header_.c:428-448 | the name of field n of the list |
| `Mars.Mar.FieldPtoN` | src/c/augmar/header_.c:450-471 | the ordinal of the name in the list |
| `Mars.Mar.ResizeBody` | src/c/augmar/body_.c:40-61 | clearing the new bytes leaves the buffer exactly when leader, fields and a body of n bytes need more than 32 bits; otherwise the body is cut or extended with zeros and the fields are the same |
| `Mars.Mar.SetContent` | src/c/augmar/mar.c:449-463 | under the same exact condition the body is the data; offset and fields are the same |
| `Mars.Mar.Truncate` | src/c/augmar/mar.c:472-489 | under the same exact condition the body is cut or extended with zeros; offset and fields are the same |
| `Mars.Mar.WriteBody` | src/c/augmar/body_.c:85-97 | a write at an offset of the body is a write to a byte file, or fails for lack of room; the copy leaves the buffer exactly when its end or the grown archive needs more than 32 bits and growing to the wrapped end does not already fail |
| `Mars.Mar.Write` | src/c/augmar/mar.c:491-519 | under the same exact condition a write at the offset, or at the end in append mode, is a write to a byte file and moves the offset behind it |
| `Mars.Mar.Read` | src/c/augmar/mar.c:573-591 | a read returns exactly the slice at the offset, clipped at the end, and moves the offset behind it |
| `Mars.Mar.Seek` | src/c/augmar/mar.c:414-447 | the position returned is exact, for every offset whose sum with its base fits 64 bits; the offset kept is its low 32 bits, so it is the position if and only if that is below 2^32 |
| `ByteFiles.WriteIs` | src/c/augmar/body_.c:85-97 | byte by byte: the data, the old bytes, and zeros in any gap; length the greater of old end and end of data |
| `ByteFiles.ResizeIs` | src/c/augmar/body_.c:40-61 | byte by byte: a body brought to n bytes keeps the common prefix and is zero behind it |
| `ByteFiles.ReadAfterWrite` | src/c/augmar/body_.c:85-130 | what was written is read back, and reads elsewhere in the old file are unchanged |
| `ByteFiles.TruncateUndoesAppend` | src/c/augmar/body_.c:40-97 | truncating to the old length undoes a write at or behind the end, gap included |
| `ByteFiles.ApplyIs` | src/c/augmar/body_.c:40-97 | place by place, what a write at an offset, a write at the end, a truncation and a replacement leave, the end of the file included |
| `ByteFiles.LastWriteWins` | src/c/augmar/mar.c:449-519 | after any run of writes, appends, truncations and replacements a place holds what the last operation that touches it left there, be it a byte, a zero in a gap, or nothing |
| `ByteFiles.UncoveredKept` | src/c/augmar/mar.c:449-519 | a place that no operation of a run touches holds what it did |
| `Archives.BodyIsHistory` | src/c/augmar/mar.c:449-519 | through any run of requests, field requests and refused ones included, the body is the writes, truncations and replacements carried out, in order, and nothing else |
| `Archives.FieldsAreHistory` | src/c/augmar/header_.c:116-426 | through any such run the fields are the puts and deletes carried out, in order, and nothing else |
| `Archives.LastRequestWins` | src/c/augmar/mar.c:449-519 | at any moment a byte of the body is what the last request that touched it left there |
| `Archives.AppendOnly` | src/c/augmar/mar.c:491-519 | in append mode, unless the body is truncated or replaced, no byte of it ever changes |
| `Images.LeaderReadsBack` | src/c/augmar/info_.c:36-78 | a leader read back gives the counts and sizes written, modulo their words |
| `Images.ImageBytes` | src/c/augmar/info_.c:36-54 | every byte of an image: magic number, protocol, field count, table size and body size as big-endian numbers; each field as two sizes, name, zero, value, zero, one behind the other; the body |
| `Images.LeaderRead` | src/c/augmar/info_.c:56-78 | what is read as a leader, byte by byte |
| `Images.ImageReadsBack` | src/c/augmar/mar.c:66-142 | counts and sizes survive release and reopening if and only if there are fewer than 65536 fields |
| `Images.ImageDetermines` | src/c/augmar/mar.c:66-142 | the bytes of an archive determine its fields and its body |
| `Images.CountRunsOut` | src/c/augmar/info_.c:50 | a well-formed table of 65536 fields is read back as one of none |
| `Images.ValueLimit` | src/c/augmar/header_.c:366-380 | the size test rejects every value that 16 bits cannot count, except one of 2^32 - 1 bytes |
| `Images.SizesExact` | src/c/augmar/body_.c:85-97 | the end and the total computed for a write are those of a byte file if and only if leader, fields and body together need less than 2^32 bytes |
| `Images.SizesRunOut` | src/c/augmar/body_.c:85-97 | two bytes written at offset 2^32 - 1 end at 1, and an empty archive truncated to 2^32 - 1 bytes gets a buffer of 15 |
| `Images.NameLimit` | src/c/augmar/header_.c:366-380 | the test on the incremented name size accepts a name that is too long if and only if the size wraps to one that 16 bits can hold, as that of 2^32 - 1 bytes does |
| `Mars.Mar.SetInfo` | src/c/augmar/info_.c:36-54 | the leader becomes that of the cached info, each count and size a big-endian number in its place; fields and body are the same |
| `Mars.Mar.Release` | src/c/augmar/mar.c:123-142 | a writable archive leaves, byte by byte, magic number, protocol 3, counts and sizes, the fields and the body, even where writing the leader is skipped because nothing differs; a read-only one leaves its bytes alone |
| `Mars.Mar.Open` | src/c/augmar/mar.c:66-110 | null exactly when the first four bytes are not 109 97 114 0 or the next two do not make 3, or for fewer bytes than a leader that cannot grow to one; fewer bytes than a leader give an empty archive, and the image of fields and body gives back those fields and that body |

## Left out

- Directly mapped chunks: `mmap_alloc` is taken to fail, so its success path (all but its wrap test), `mmap_resize` and the mapped branches of free, realloc and memalign are not modelled.
- Trimming and `release_unused_segments`: memory never goes back to the system.
- `AddSegment`: the place of a segment's record in memory is modelled as an in-use chunk; its four words are kept as a sequence of segments instead.
- `Free`: the branch for directly mapped chunks and trimming are left out, as said above.
- The state record's scalar fields are class fields, not words; its two bin arrays are words.
- `least_addr`, `magic`, `mflags`, `trim_check` and the checks that use them, footers, locks, the `PROCEED_ON_ERROR` branches, statistics, the `dl*` clones, and `independent_calloc` and `independent_comalloc`.
- `PrependAlloc`: writes the head of the new chunk after the old first chunk has left its bin; the code writes it before, and the two touch no common word.
- `MemCopy`: words are little-endian, and a partial last word is merged rather than copied byte by byte.
- `InternalMemalign`: alignments above 2^63 are excluded, because the loop does not end for them.
- `Seek`: sums of a base and an offset that overflow 64 bits are excluded.
- `Open`: for bytes that are no image of fields and a body, only the cached counts and sizes are stated, which the code takes over unchecked.
- The permission checks that `mar.c` makes before each field operation; those before body operations are modelled.
- Truncation on opening, which is `Truncate(0)` after `Open`; insert, extract, compact and sync; files and memory maps behind the buffer; reference counts and error records.
