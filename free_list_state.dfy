/**
 * The allocator's state as a value: the eight free lists, each a sequence of
 * block addresses with its head at index 0 (the intrusive `next` links of
 * `FreeList` read in order), and the invariant the free lists keep.
 */
module FreeListState {
  import opened Wrappers
  import opened Bits
  import opened SizeClasses

  /** One free list per level; entry l is `fList[l]` read from its head. */
  type FreeLists = seq<seq<nat>>

  predicate Shaped(L: FreeLists)
  {
    |L| == MaxLevels
  }

  /** No free block sits at the null address (a null link ends an intrusive list). */
  predicate NoNull(L: FreeLists)
  {
    forall l, x :: 0 <= l < |L| && x in L[l] ==> x > 0
  }

  /** Every free block at level l is aligned to its own size, levelSize[l]. */
  predicate AlignedLists(L: FreeLists)
  {
    forall l, x :: 0 <= l < |L| && x in L[l] ==> Aligned(x, Shift(l))
  }

  predicate Distinct(s: seq<nat>)
  {
    forall i, j :: 0 <= i < j < |s| ==> s[i] != s[j]
  }

  predicate NoDuplicates(L: FreeLists)
  {
    forall l :: 0 <= l < |L| ==> Distinct(L[l])
  }

  /** The byte ranges [x, x + sx) and [y, y + sy) do not overlap. */
  predicate Apart(x: nat, sx: nat, y: nat, sy: nat)
  {
    x + sx <= y || y + sy <= x
  }

  /** Two different free blocks never share a byte, whatever their levels. */
  predicate Disjoint(L: FreeLists)
  {
    forall l, m, x, y ::
      0 <= l < |L| && 0 <= m < |L| && x in L[l] && y in L[m] && (l != m || x != y) ==>
        Apart(x, LevelSize(l), y, LevelSize(m))
  }

  /** The buddy of the block at x on level l, `x ^ levelSize[l]`. */
  function Buddy(x: nat, l: nat): nat
  {
    Xor(x, LevelSize(l))
  }

  /** Below the top level, no free block has its buddy free on the same level. */
  predicate Coalesced(L: FreeLists)
  {
    forall l, x :: 0 <= l < |L| - 1 && x in L[l] ==> Buddy(x, l) !in L[l]
  }

  /** The block of `size` bytes at x shares no byte with any free block. */
  predicate ApartFromFree(L: FreeLists, x: nat, size: nat)
  {
    forall l, y :: 0 <= l < |L| && y in L[l] ==> Apart(x, size, y, LevelSize(l))
  }

  /** The free-list invariant. */
  predicate Inv(L: FreeLists)
  {
    Shaped(L) && NoNull(L) && AlignedLists(L) && NoDuplicates(L) && Disjoint(L) && Coalesced(L)
  }

  /** What the model requires of `sbrk(maxSize)` when it succeeds: fresh, non-null, maxSize-aligned memory. */
  predicate SbrkOk(L: FreeLists, sbrk: Option<nat>)
  {
    sbrk.Some? ==>
      sbrk.value > 0 && Aligned(sbrk.value, Shift(MaxLevels - 1)) && ApartFromFree(L, sbrk.value, MaxSize)
  }

}
