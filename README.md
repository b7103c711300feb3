# Buddy allocator, modelled in Dafny

This project models the header-only buddy allocator of `BuddyAllocator.hpp`.
The allocator keeps eight intrusive free lists, one per level. Level `l`
holds blocks of `levelSize[l] = 32 << l` bytes, so `maxSize` is 4096.

- `Allocator::allocate(sz)` picks a level for `sz`. Up to 2048 bytes it
  reads the `reverseLookup` table, which gives the smallest level whose block
  holds `sz`. Above 2049 bytes it takes the top level, whose 4096-byte block
  is smaller than the request when `sz` exceeds 4096. At exactly 2049 bytes
  it reads one entry past the end of the table (see Findings). It takes the head of the lowest non-empty
  free list at or above that level. When every such list is empty it asks
  `sbrk` for a fresh `maxSize` block. It then splits the block down to the
  requested level and pushes each upper half it cuts off onto the list of
  that half's level.
- `Allocator::deallocate` works the other way. While the block is below
  `maxSize`, it looks for the block's buddy (`address ^ levelSize[lv]`) on
  the free list of its level. When the buddy is there, it unlinks it and
  carries on with the merged block (`address & ~levelSize[lv]`) one level up.
  At the end it pushes the surviving block onto its list and clears the
  handle.
- The `Allocation` handle frees its block on destruction, on `free()` and
  when it is move-assigned over.

Modules:

- `Wrappers`: `Option`. It stands for an `sbrk` result that may be the
  failure value -1, and for a table read that falls outside the table.
- `Bits`: addresses as natural numbers, with 0 for `nullptr`. It defines
  bitwise XOR and AND-NOT on them bit by bit. Lemmas say what these
  operators do to a single power of two and how they relate to alignment.
- `SizeClasses`: the constants and the two `constexpr` tables. Two methods
  build the tables with the same loops as their initialisers and are proved
  against closed definitions. It also holds the level lookup of
  `allocate`/`deallocate`, both as written and corrected (see Findings).
- `FreeListState`: the free lists as a value, a sequence of eight address
  sequences with each head at index 0. It also defines the invariant the
  lists keep:
  - every block is non-null and aligned to its own size;
  - no list holds a block twice;
  - no two free blocks share a byte;
  - below the top level, no block has its buddy free on the same level.
- `HeapSpec`: what `allocate` and `deallocate` do to that value
  (`AllocateSpec`, `DeallocateSpec`, with `Search`, `Split` and `Coalesce`
  for their loops). Lemmas show:
  - both operations keep the invariant;
  - a granted block is aligned and disjoint from every free block;
  - allocate followed by deallocate gives back the free lists;
  - a block pushed onto a list is the next one handed out (LIFO).
- `LiveBlocks`: free blocks and outstanding handles together. No two of
  them share a byte, and lemmas show that `allocate` adds its block and
  `deallocate` removes one without breaking that.
- `Buddy`: the imperative model.
  - `Allocator` holds `fList` as an array of eight sequences and updates it
    in place. Its loops are proved against the `HeapSpec` functions.
  - `Allocation` is a class with the two fields that `deallocate` clears.

The model covers `sbrk` as a parameter: the value `sbrk(maxSize)` would
return, or None for -1. Nothing in the model performs I/O.

## Model

| member | source | states |
|---|---|---|
| SizeClasses.LevelSize | BuddyAllocator.hpp:60-65 | `levelSize[l]` as 2^(5 + l); its values are stated by LevelSizeTable and LevelSizeValues, and BuildLevelSize builds it with the source's loop |
| SizeClasses.ReverseLookup | BuddyAllocator.hpp:69-77 | the contents of `reverseLookup`: 2049 entries, entry n the least level whose block holds n bytes; BuildReverseLookup builds it with the source's loop |
| SizeClasses.LevelSizeTable | BuddyAllocator.hpp:60-65 | levelSize[l] is minSize·2^l, and each level's block is twice the one below |
| SizeClasses.BuildLevelSize | BuddyAllocator.hpp:60-65 | the doubling loop of the initialiser fills all eight entries, entry i being minSize·2^i |
| SizeClasses.LevelSizeValues | BuddyAllocator.hpp:60-67 | the entries are 32, 64, ..., 4096, and maxSize = levelSize[maxLevels - 1] = 4096 |
| SizeClasses.LevelSizeIncreasing | BuddyAllocator.hpp:60-65 | block sizes strictly increase with the level, by at least a factor of two |
| SizeClasses.LookupCursorStep | BuddyAllocator.hpp:72-74 | one pass of the initialiser loop: the level moves up at most once, and after that step it is the least level whose block holds i bytes |
| SizeClasses.BuildReverseLookup | BuddyAllocator.hpp:69-77 | the initialiser's loop builds exactly the 2049-entry table whose entry n is the least level (top level at most) whose block holds n bytes |
| SizeClasses.ReverseLookupLeast | BuddyAllocator.hpp:69-77 | entry n of the table holds n bytes, and no lower level does |
| SizeClasses.LookupAsWritten | BuddyAllocator.hpp:97 | the lookup as written: it reads outside the table exactly when sz equals the table's size (2049); below that it gives the least fitting level |
| SizeClasses.LookupOutOfBounds | BuddyAllocator.hpp:97 | for sz = 2049 the written lookup reads out of bounds, while the intended level (the top one) holds the request |
| SizeClasses.Classify | BuddyAllocator.hpp:97 | the corrected lookup: for sz up to maxSize the level's block holds sz and no lower level's does; above maxSize/2 it is the top level; apart from the one missed index it agrees with the lookup as written |
| SizeClasses.ClassifyLevelSize | BuddyAllocator.hpp:124 | the lookup on a block's size gives back that block's level, so `deallocate` finds the level that `allocate` used |
| SizeClasses.LevelSizeIsMax | BuddyAllocator.hpp:127 | a block's size is maxSize exactly at the top level, where the coalescing loop stops |
| Bits.Xor | BuddyAllocator.hpp:129 | the `^` on addresses, bit by bit; what it does is stated by XorPow2 and XorInvolutive |
| Bits.AndNot | BuddyAllocator.hpp:135 | the `& ~` on addresses, bit by bit; what it does is stated by AndNotPow2 |
| Bits.XorPow2 | BuddyAllocator.hpp:129 | XOR with 2^k toggles bit k: it subtracts 2^k when the bit is set and adds it when it is clear |
| Bits.AndNotPow2 | BuddyAllocator.hpp:135 | AND with the complement of 2^k clears bit k: it subtracts 2^k when the bit is set and leaves the value alone otherwise |
| Bits.XorInvolutive | BuddyAllocator.hpp:129 | XOR with the same value twice gives back the address, so the buddy of a buddy is the block itself |
| Bits.AlignedMod | BuddyAllocator.hpp:129-135 | the bitwise notion of alignment used for addresses agrees with divisibility by 2^k |
| FreeListState.Buddy | BuddyAllocator.hpp:129 | the buddy of a block, `address ^ levelSize[l]`; BuddyPair states what it is |
| FreeListState.Inv | BuddyAllocator.hpp:25-36 | the invariant of the free lists: shaped, non-null, aligned to their level, no duplicates, no two free blocks overlapping, no free buddy pair below the top level; the constructor establishes it and AllocateKeepsInvariant and DeallocateKeepsInvariant keep it |
| HeapSpec.BuddyPair | BuddyAllocator.hpp:129-135 | for a block aligned to its size, the buddy is aligned, the buddy's buddy is the block, and the base of the merged block is the lower of the two with the other one level size above it |
| HeapSpec.Search | BuddyAllocator.hpp:103-107 | the level the search returns is at or above the requested one and its list is not empty |
| HeapSpec.SearchLowest | BuddyAllocator.hpp:103-107 | the search fails exactly when every list from the requested level up is empty, and it skips only empty lists |
| HeapSpec.SearchFirst | BuddyAllocator.hpp:103-107 | a non-empty list with only empty lists between the requested level and it is the one the search returns |
| HeapSpec.SplitNothing | BuddyAllocator.hpp:117 | when the block already has the requested level, the split loop changes no list |
| HeapSpec.SplitGrow | BuddyAllocator.hpp:117 | one pass of the split loop pushes the upper half at the next lower level onto that list, and extends the split by one level |
| HeapSpec.AllocateAt | BuddyAllocator.hpp:99-118 | allocation fails (`bad_alloc`) exactly when sbrk fails and no list from the level up has a block; on success the handle's size is levelSize[level] and the block comes from that level or above |
| HeapSpec.AllocateAtSkips | BuddyAllocator.hpp:103-107 | on success every list between the requested level and the one that provided the block was empty |
| HeapSpec.AllocateAtSource | BuddyAllocator.hpp:103-111 | the block is the head of the lowest non-empty list at or above the level, which loses it; when there is none, it is the sbrk block, taken at the top level, and the top list is unchanged |
| HeapSpec.AllocateAtLists | BuddyAllocator.hpp:116-117 | each level from the requested one below the source level gains, at its head, the upper half cut off there (`mem + levelSize[l]`); the lists below the requested level and above the source level are unchanged (what happens to the source level's own list is stated by AllocateAtSource) |
| HeapSpec.AllocateSpec | BuddyAllocator.hpp:96-118 | the granted size is the block size of the request's level, and it holds the request whenever sz is at most maxSize |
| HeapSpec.AllocateFails | BuddyAllocator.hpp:110-114 | `allocate(sz)` throws exactly when sbrk fails and every list from the request's level up is empty |
| HeapSpec.FirstIndex | BuddyAllocator.hpp:132-133 | the scan stops at a position holding the buddy, with no earlier occurrence |
| HeapSpec.RemoveAt | BuddyAllocator.hpp:137 | unlinking one node removes exactly that entry: one shorter, same blocks minus that one |
| HeapSpec.Coalesce | BuddyAllocator.hpp:127-145 | the coalescing loop ends at a level at or above the start, either at the top level or where the buddy is not on the list |
| HeapSpec.CoalesceFrame | BuddyAllocator.hpp:127-145 | the loop changes only the lists it passes: each of them loses exactly one block (one it held), and every other list is unchanged |
| HeapSpec.CoalesceStep | BuddyAllocator.hpp:129-141 | when the buddy is found at position i, the loop goes on from the list without it, with the merged base, one level up |
| HeapSpec.CoalesceStop | BuddyAllocator.hpp:127-143 | the loop stops at the top level (size == maxSize) or when the buddy is not on the list |
| HeapSpec.DeallocateSpec | BuddyAllocator.hpp:121-153 | the lists keep their shape after the surviving block is pushed; what the result means is stated by DeallocateKeepsInvariant and RoundTrip |
| HeapSpec.PushKeepsInvariant | BuddyAllocator.hpp:27-31 | pushing an aligned, non-null block that overlaps no free block, and whose buddy is not free on its level, keeps the invariant |
| HeapSpec.PushUpperHalf | BuddyAllocator.hpp:117 | pushing the upper half of a block that overlaps no free block keeps the invariant |
| HeapSpec.KeepLowerHalf | BuddyAllocator.hpp:117 | after that push, the lower half, which is kept, still overlaps no free block |
| HeapSpec.SplitKeepsInvariant | BuddyAllocator.hpp:116-117 | splitting a free-standing block keeps the invariant, and the part kept overlaps no free block |
| HeapSpec.AllocateKeepsInvariant | BuddyAllocator.hpp:96-118 | a successful allocation keeps the invariant, and the block it grants is non-null, aligned to its size, at least the request (up to maxSize) and disjoint from every free block |
| HeapSpec.CoalesceKeepsInvariant | BuddyAllocator.hpp:127-145 | every merge step keeps the invariant, and the block the loop ends with is non-null, aligned and disjoint from every free block |
| HeapSpec.DeallocateKeepsInvariant | BuddyAllocator.hpp:121-153 | releasing an aligned block that overlaps no free block keeps the invariant |
| HeapSpec.CoalesceSplit | BuddyAllocator.hpp:117 | the coalescing loop over a freshly split block finds, level by level, exactly the upper halves the split pushed, and ends where the split began |
| HeapSpec.RoundTripFromList | BuddyAllocator.hpp:103-153 | releasing a block taken from a free list and split down gives back the original free lists |
| HeapSpec.RoundTripFromSbrk | BuddyAllocator.hpp:110-153 | releasing the sbrk block after splitting it merges all the way up and leaves it alone on the top list |
| HeapSpec.RoundTripAt | BuddyAllocator.hpp:96-153 | for a block of a given level: allocate followed by deallocate restores the lists, or adds the sbrk block to the top list |
| HeapSpec.RoundTrip | BuddyAllocator.hpp:96-153 | `allocate(sz)` followed by `deallocate` of the handle restores every free list when the block came from a list; when it came from sbrk, the lists differ only in that the top list now holds that block |
| HeapSpec.PushThenAllocate | BuddyAllocator.hpp:27-31 | free lists are LIFO: after a block is pushed onto level l, the next allocation of that level's size returns it and restores the lists |
| HeapSpec.ReleaseBesideLiveBuddy | BuddyAllocator.hpp:127-148 | a released block whose buddy is still in use, because it overlaps no free block, does not merge: its list just gains it at the head and nothing else changes |
| HeapSpec.SecondHalfMerges | BuddyAllocator.hpp:127-148 | releasing a block whose buddy heads its list unlinks that head and continues as the release of the merged block one level up |
| HeapSpec.LowerFirst | BuddyAllocator.hpp:127-148 | releasing the lower half and then the upper half of a block that is not free gives the same lists as releasing the whole block |
| HeapSpec.UpperFirst | BuddyAllocator.hpp:127-148 | releasing the upper half and then the lower half gives the same lists as releasing the whole block |
| HeapSpec.SiblingsCommute | BuddyAllocator.hpp:127-148 | split/merge duality for two buddies: releasing the two halves of a block that is not free, in either order, gives the same lists as releasing that block at once |
| LiveBlocks.LiveBlocksDistinct | BuddyAllocator.hpp:96-118 | two outstanding handles of a separated state never hold the same address |
| LiveBlocks.SplitKeepsApart | BuddyAllocator.hpp:116-117 | splitting a block that misses x keeps x apart from every free block, and the part kept misses x too |
| LiveBlocks.AllocateKeepsApart | BuddyAllocator.hpp:96-118 | a block apart from the free blocks and from the sbrk block stays apart from the new free lists and from the granted block |
| LiveBlocks.CoalesceKeepsApart | BuddyAllocator.hpp:127-145 | a non-empty block apart from the free blocks and from the released block stays apart from the lists and from the merged block |
| LiveBlocks.DeallocateKeepsApart | BuddyAllocator.hpp:121-153 | a non-empty block apart from the free blocks and from the released block stays apart from the free lists after deallocate |
| LiveBlocks.AllocateKeepsSeparated | BuddyAllocator.hpp:96-118 | when free blocks and outstanding handles are pairwise disjoint and sbrk returns memory none of them uses, a successful allocate keeps them so, with the new handle added |
| LiveBlocks.DeallocateKeepsSeparated | BuddyAllocator.hpp:121-153 | releasing any outstanding handle, not only the last one granted, keeps free blocks and the remaining handles pairwise disjoint and the invariant kept |
| LiveBlocks.PairwiseWithout | BuddyAllocator.hpp:121-153 | dropping the released handle keeps the other handles pairwise disjoint |
| LiveBlocks.OthersStayApart | BuddyAllocator.hpp:121-153 | after one handle is released, every other handle is still apart from every free block |
| Buddy.Scan | BuddyAllocator.hpp:132-133 | the scan finds the buddy exactly when it is on the list, at its first position |
| Buddy.Allocator.constructor | BuddyAllocator.hpp:58 | every free list starts empty, which meets the invariant |
| Buddy.Allocator.Empty | BuddyAllocator.hpp:34 | a list is empty exactly when it holds no block |
| Buddy.Allocator.Emplace | BuddyAllocator.hpp:27-31 | the block becomes the head of its list; nothing else changes |
| Buddy.Allocator.Extract | BuddyAllocator.hpp:35 | the node after the given one is unlinked and returned; nothing else changes |
| Buddy.Allocator.Allocate | BuddyAllocator.hpp:96-119 | `bad_alloc` exactly in AllocateSpec's failure case, with the lists unchanged; otherwise a fresh handle holding the granted pair and the new lists; the invariant is kept and the block is aligned to its size and disjoint from the free blocks |
| Buddy.Allocator.SplitDown | BuddyAllocator.hpp:117 | the split loop leaves exactly the lists that Split describes |
| Buddy.Allocator.Merge | BuddyAllocator.hpp:127-145 | the coalescing loop ends with the lists, block and level that Coalesce describes |
| Buddy.Allocator.Deallocate | BuddyAllocator.hpp:121-153 | a null handle changes nothing; otherwise the lists become DeallocateSpec of the old lists and the handle is cleared, and the invariant is kept |
| Buddy.Allocation.constructor | BuddyAllocator.hpp:118 | the handle holds the block's address and size |
| Buddy.Allocation.IsLive | BuddyAllocator.hpp:92 | `operator bool`: the handle owns a block exactly when its address is not null |
| Buddy.Allocation.Free | BuddyAllocator.hpp:156-158 | `free()` hands the handle to `deallocate` and leaves it null |
| Buddy.Allocation.Destroy | BuddyAllocator.hpp:83 | the destructor frees the block, as `free()` does |
| Buddy.Allocation.MoveAssign | BuddyAllocator.hpp:84-89 | frees this handle's block, then takes the other's pair and leaves the other null with size 0; self-assignment frees the block and leaves the handle null |
| Buddy.FreeThenDestroy | BuddyAllocator.hpp:82-83 | calling `free()` and then the destructor releases the block once, since the second call sees a null handle |

## Left out

- `sbrk` (BuddyAllocator.hpp:111) is a parameter of `Allocate`. It is the address `sbrk(maxSize)` would return, or None for -1. The call's effect on the program break is not modelled.
- Allocate requires the sbrk address to be non-null. The source would treat a null result as a valid block.
- The invariant-preserving parts of Allocate and AllocateKeepsInvariant assume that a successful `sbrk` gives fresh memory that is maxSize-aligned and disjoint from every free block (`SbrkOk`). AllocateKeepsSeparated assumes in addition that this memory is disjoint from every outstanding handle (`SbrkFresh`). The source relies on both without checking them.
- AllocateSpec / Buddy.Allocator.Allocate use Classify: at sz = 2049 the source reads `reverseLookup[2049]`, one past the end of the table, and what it does next is undefined. The model gives that request the top level, as the corrected lookup does. LookupAsWritten models the read as written (see Findings).
- The outstanding handles are a ghost sequence of blocks in the LiveBlocks lemmas. The Allocator class does not track them, so the separation of live handles is stated on values, not as a postcondition of the methods.
- Memory contents are not modelled. A free list is a sequence of addresses. The `next` words stored inside the free blocks, and any aliasing between a block's bytes and the allocator's links, are left out.
- `Iterator` and the two `operator<<` overloads (BuddyAllocator.hpp:12-23, 38-43) are not modelled: they only print the lists. The order they traverse in is the order of the sequences here.
- `popcount` and its `static_assert` (BuddyAllocator.hpp:49-56) only check at compile time that minSize is a power of two. Here minSize is 2^5 by definition.
- Addresses are unbounded naturals. `std::uintptr_t` wrap-around at 2^64 is not modelled, for example in `mem + levelSize[l]`.
- There is no concurrency: the global `fList` is used without locks in the source, and the model has one sequential allocator.
- Buddy.Allocator.Deallocate requires that a live handle's size is one of the eight block sizes (`IsBlockSize`). Every handle from `allocate` meets this (ClassifyLevelSize). For other sizes the source's stop test `alloc.size != maxSize` can be stepped over, and the level can then run past the end of `levelSize` and `fList`.
- Buddy.Allocator.Deallocate promises to keep the invariant only for a block that is aligned to its size and overlaps no free block. The source does not detect a double free or a foreign address; the model does not say what happens then.
- AllocateSpec: `allocate(0)` and requests above maxSize are not rejected, as in the source. A request above maxSize gets a maxSize block, smaller than asked, so the "holds the request" clause is stated only up to maxSize.
- RoundTrip: when the block came from `sbrk`, deallocation does not restore the lists exactly. The sbrk block stays on the top list, and the lemma states this.
- SiblingsCommute states split/merge duality for one pair of buddies. The general form is not stated as one lemma: releasing, in any order, all the blocks that partition a maxSize block merges them back into that block. It follows by applying SiblingsCommute level by level, but each step also needs the other parts to stay apart from the free blocks; LiveBlocks states that separation.
- C++ object lifetime is not modelled: scope-based destructor calls and copy elision. `Destroy` and `MoveAssign` are methods the caller invokes explicitly. `operator bool` is the predicate IsLive; its implicit use in conditions is not modelled.
- The intermediate `mem == -1` test (BuddyAllocator.hpp:113) is folded into the sbrk branch. A block from a free list is never -1.

## Findings

| source | as written | input that shows it | evidently intended | confidence | as-written member | corrected member |
|---|---|---|---|---|---|---|
| BuddyAllocator.hpp:97 | `sz > reverseLookup.size() ? maxLevels - 1 : reverseLookup[sz]` sends sz == reverseLookup.size() to `reverseLookup[sz]` | `allocate(2049)`: the table has 2049 entries (0..2048), so `reverseLookup[2049]` reads one past its end | `sz >= reverseLookup.size()` selects the top level, whose 4096-byte block holds the request | not executed | SizeClasses.LookupAsWritten, SizeClasses.LookupOutOfBounds | SizeClasses.Classify |
