/**
 * The allocator itself: the eight free lists `fList` as an array of address
 * sequences (head at index 0) that `allocate` and `deallocate` update in
 * place, and the `Allocation` handle whose fields `deallocate` clears. Each
 * method is proved against the value-level functions of HeapSpec.
 */
module Buddy {
  import opened Wrappers
  import opened Bits
  import opened SizeClasses
  import opened FreeListState
  import opened HeapSpec

  /** What `allocate` ends with: a new handle, or `bad_alloc`. */
  datatype Outcome = Allocated(handle: Allocation) | BadAlloc

  /**
   * The node the scan of a free list stops at: the first position holding x,
   * if any (the `for(prev ...)` loop of `deallocate`).
   */
  method Scan(s: seq<nat>, x: nat) returns (found: bool, i: nat)
    ensures found <==> x in s
    ensures found ==> i < |s| && i == FirstIndex(s, x)
  {
    i := 0;
    while i < |s|
      invariant i <= |s|
      invariant x !in s[..i]
    {
      if s[i] == x {
        FirstIndexUnique(s, x, i);
        return true, i;
      }
      assert s[..i + 1] == s[..i] + [s[i]];
      i := i + 1;
    }
    assert s[..i] == s;
    return false, i;
  }

  /** A position holding x with no x before it is the first one. */
  lemma FirstIndexUnique(s: seq<nat>, x: nat, i: nat)
    requires i < |s| && s[i] == x && x !in s[..i]
    ensures FirstIndex(s, x) == i
  {
  }

  /** The global free lists `fList` and the two operations of `Allocator`. */
  class Allocator {
    /** `fList[l]`, read from its head; the intrusive `next` words are not modelled. */
    const fList: array<seq<nat>>

    ghost predicate Valid()
      reads this, fList
    {
      fList.Length == MaxLevels && NoNull(fList[..])
    }

    /** The free lists as a value. */
    function Lists(): FreeLists
      reads this, fList
    {
      fList[..]
    }

    /** Every list starts empty (the zero-initialised global). */
    constructor()
      ensures Valid() && fresh(fList)
      ensures forall l :: 0 <= l < MaxLevels ==> Lists()[l] == []
      ensures Inv(Lists())
    {
      fList := new seq<nat>[MaxLevels](_ => []);
    }

    /** `FreeList::empty`: the list at level l holds no block. */
    function Empty(l: Level): (e: bool)
      requires Valid()
      reads this, fList
      ensures e <==> forall x :: x !in Lists()[l]
    {
      if fList[l] == [] then true else assert fList[l][0] in Lists()[l]; false
    }

    /** `FreeList::emplace`: push the block at v onto the head of list l. */
    method Emplace(l: Level, v: nat)
      requires Valid() && v > 0
      modifies fList
      ensures Valid()
      ensures Lists() == old(Lists())[l := [v] + old(Lists())[l]]
    {
      fList[l] := [v] + fList[l];
    }

    /**
     * `FreeList::extract` on the node at position i of list l (the list head
     * itself for i == 0): unlink the block after it and return it.
     */
    method Extract(l: Level, i: nat) returns (v: nat)
      requires Valid() && i < |fList[l]|
      modifies fList
      ensures Valid() && v == old(fList[l][i]) && v > 0
      ensures Lists() == old(Lists())[l := RemoveAt(old(Lists())[l], i)]
    {
      v := fList[l][i];
      assert v in Lists()[l];
      fList[l] := RemoveAt(fList[l], i);
    }

    /**
     * `Allocator::allocate(sz)`, where sbrk is what `sbrk(maxSize)` returns if
     * it is called (None for its failure value -1). The block is taken from
     * the lowest non-empty list at or above the request's level (from sbrk if
     * there is none) and split down to that level.
     */
    method Allocate(sz: nat, sbrk: Option<nat>) returns (r: Outcome)
      requires Valid() && (sbrk.Some? ==> sbrk.value > 0)
      modifies fList
      ensures Valid()
      ensures r.BadAlloc? <==> AllocateSpec(old(Lists()), sz, sbrk).None?
      ensures r.BadAlloc? ==> Lists() == old(Lists())
      ensures r.Allocated? ==> var g := AllocateSpec(old(Lists()), sz, sbrk).value;
        && fresh(r.handle) && r.handle.memory == g.memory && r.handle.size == g.size
        && Lists() == g.lists && IsBlockSize(r.handle.size)
      ensures r.Allocated? && old(Inv(Lists())) && SbrkOk(old(Lists()), sbrk) ==>
        && Inv(Lists()) && ApartFromFree(Lists(), r.handle.memory, r.handle.size)
        && Aligned(r.handle.memory, Shift(Classify(r.handle.size)))
    {
      ghost var L0 := Lists();
      var level := Classify(sz);
      var mem: nat := 0;
      var currLevel: nat := 0;
      var l := level;
      while l < MaxLevels
        invariant level <= l <= MaxLevels
        invariant Valid() && Lists() == L0
        invariant forall j :: level <= j < l ==> L0[j] == []
      {
        if !Empty(l) {
          mem := Extract(l, 0);
          assert RemoveAt(L0[l], 0) == L0[l][1..];
          currLevel := l;
          assert Search(L0, level) == Some(l) by {
            SearchFirst(L0, level, l);
          }
          break;
        }
        l := l + 1;
      }
      ghost var S0 := Lists();
      SearchLowest(L0, level);
      assert mem == 0 ==> Search(L0, level) == None && S0 == L0;
      assert mem != 0 ==>
        Search(L0, level) == Some(currLevel) && mem == L0[currLevel][0] && S0 == L0[currLevel := L0[currLevel][1..]];
      if mem == 0 {
        if sbrk.None? {
          return BadAlloc;
        }
        mem, currLevel := sbrk.value, MaxLevels - 1;
      }
      assert AllocateSpec(L0, sz, sbrk) == Some(Grant(mem, LevelSize(level), currLevel, Split(S0, mem, level, currLevel)));
      SplitDown(mem, level, currLevel);
      ClassifyLevelSize(level);
      var handle := new Allocation(mem, LevelSize(level));
      r := Allocated(handle);
      if Inv(L0) && SbrkOk(L0, sbrk) {
        AllocateKeepsInvariant(L0, sz, sbrk);
      }
    }

    /**
     * The split loop `while(currLevel --> level)` of `allocate`: going down
     * from currLevel, push the upper half of the block at mem onto each level
     * below it, down to `level`.
     */
    method SplitDown(mem: nat, level: Level, currLevel: Level)
      requires Valid() && mem > 0 && level <= currLevel
      modifies fList
      ensures Valid() && Lists() == Split(old(Lists()), mem, level, currLevel)
    {
      ghost var S0 := Lists();
      var c := currLevel;
      SplitNothing(S0, mem, c);
      while c > level
        invariant level <= c <= currLevel
        invariant Valid() && Lists() == Split(S0, mem, c, currLevel)
      {
        c := c - 1;
        SplitGrow(S0, mem, c, currLevel);
        Emplace(c, mem + LevelSize(c));
      }
    }

    /**
     * `Allocator::deallocate(alloc)`: a null handle is left alone; otherwise
     * the block is merged with its free buddy level by level until maxSize or
     * until the buddy is not free, pushed onto its list, and the handle is
     * cleared.
     */
    method Deallocate(alloc: Allocation)
      requires Valid() && (alloc.memory != 0 ==> IsBlockSize(alloc.size))
      modifies fList, alloc
      ensures Valid() && alloc.memory == 0
      ensures old(alloc.memory) == 0 ==> Lists() == old(Lists()) && alloc.size == old(alloc.size)
      ensures old(alloc.memory) != 0 ==>
        alloc.size == 0 && Lists() == DeallocateSpec(old(Lists()), old(alloc.memory), Classify(old(alloc.size)))
      ensures (old(alloc.memory) != 0 && old(Inv(Lists())) && Aligned(old(alloc.memory), Shift(Classify(old(alloc.size)))) &&
               ApartFromFree(old(Lists()), old(alloc.memory), old(alloc.size))) ==> Inv(Lists())
    {
      if alloc.memory == 0 {
        return;
      }
      ghost var L0, m0 := Lists(), alloc.memory;
      var lv := Classify(alloc.size);
      ghost var lv0 := lv;
      lv := Merge(alloc, lv);
      Emplace(lv, alloc.memory);
      alloc.memory, alloc.size := 0, 0;
      if Inv(L0) && Aligned(m0, Shift(lv0)) && ApartFromFree(L0, m0, LevelSize(lv0)) {
        DeallocateKeepsInvariant(L0, m0, lv0);
      }
    }

    /**
     * The coalescing loop of `deallocate`: while the handle's block is below
     * maxSize and its buddy is on the free list of its level, unlink the
     * buddy and make the handle the merged block one level up.
     */
    method Merge(alloc: Allocation, lv0: Level) returns (lv: Level)
      requires Valid() && alloc.memory > 0 && alloc.size == LevelSize(lv0)
      modifies fList, alloc
      ensures Valid() && alloc.memory > 0 && alloc.size == LevelSize(lv)
      ensures Walk(Lists(), alloc.memory, lv) == Coalesce(old(Lists()), old(alloc.memory), lv0)
    {
      ghost var L0, m0 := Lists(), alloc.memory;
      lv := lv0;
      while alloc.size != MaxSize
        invariant Valid() && lv0 <= lv < MaxLevels
        invariant alloc.size == LevelSize(lv) && alloc.memory > 0
        invariant Coalesce(Lists(), alloc.memory, lv) == Coalesce(L0, m0, lv0)
        decreases MaxLevels - lv
      {
        LevelSizeIsMax(lv);
        var buddy := Xor(alloc.memory, LevelSize(lv));
        var found, i := Scan(fList[lv], buddy);
        if !found {
          CoalesceStop(Lists(), alloc.memory, lv);
          break;
        }
        CoalesceStep(Lists(), alloc.memory, lv, i);
        MergedBase(alloc.memory, lv);
        alloc.memory := AndNot(alloc.memory, LevelSize(lv));
        lv := lv + 1;
        var unlinked := Extract(lv - 1, i);
        LevelSizeTable(lv - 1);
        alloc.size := alloc.size * 2;
      }
      LevelSizeIsMax(lv);
      if lv == MaxLevels - 1 {
        CoalesceStop(Lists(), alloc.memory, lv);
      }
    }
  }

  /**
   * The handle `allocate` returns: a block's address (0 for nullptr) and its
   * size. It owns the block until it is freed, destroyed or moved from.
   */
  class Allocation {
    var memory: nat
    var size: nat

    constructor(memory: nat, size: nat)
      ensures this.memory == memory && this.size == size
    {
      this.memory := memory;
      this.size := size;
    }

    /** `operator bool`: the handle owns a block. */
    predicate IsLive()
      reads this
    {
      memory != 0
    }

    /** `Allocation::free`: hand the block back through `deallocate`. */
    method Free(heap: Allocator)
      requires heap.Valid() && (memory != 0 ==> IsBlockSize(size))
      modifies this, heap.fList
      ensures heap.Valid() && !IsLive()
      ensures old(memory) == 0 ==> heap.Lists() == old(heap.Lists()) && size == old(size)
      ensures old(memory) != 0 ==>
        size == 0 && heap.Lists() == DeallocateSpec(old(heap.Lists()), old(memory), Classify(old(size)))
    {
      heap.Deallocate(this);
    }

    /** `~Allocation`: the destructor frees the block. */
    method Destroy(heap: Allocator)
      requires heap.Valid() && (memory != 0 ==> IsBlockSize(size))
      modifies this, heap.fList
      ensures heap.Valid() && !IsLive()
      ensures old(memory) == 0 ==> heap.Lists() == old(heap.Lists()) && size == old(size)
      ensures old(memory) != 0 ==>
        size == 0 && heap.Lists() == DeallocateSpec(old(heap.Lists()), old(memory), Classify(old(size)))
    {
      Free(heap);
    }

    /**
     * Move assignment `*this = std::move(other)`: free this handle's block,
     * then take other's pair and leave other null. Assigning a handle to
     * itself frees its block and leaves it null.
     */
    method MoveAssign(other: Allocation, heap: Allocator)
      requires heap.Valid() && (memory != 0 ==> IsBlockSize(size))
      modifies this, other, heap.fList
      ensures heap.Valid()
      ensures old(memory) == 0 ==> heap.Lists() == old(heap.Lists())
      ensures old(memory) != 0 ==>
        heap.Lists() == DeallocateSpec(old(heap.Lists()), old(memory), Classify(old(size)))
      ensures other != this ==> memory == old(other.memory) && size == old(other.size)
      ensures other.memory == 0 && (other != this ==> other.size == 0)
      ensures other == this ==> size == if old(memory) == 0 then old(size) else 0
    {
      Free(heap);
      var m := other.memory;
      other.memory := 0;
      memory := m;
      var s := other.size;
      other.size := 0;
      size := s;
    }
  }

  /**
   * `free()` and then the destructor, as a scope that frees a handle early
   * does: the block is released once, by the first call.
   */
  method FreeThenDestroy(a: Allocation, heap: Allocator)
    requires heap.Valid() && (a.memory != 0 ==> IsBlockSize(a.size))
    modifies a, heap.fList
    ensures heap.Valid() && !a.IsLive()
    ensures old(a.memory) == 0 ==> heap.Lists() == old(heap.Lists())
    ensures old(a.memory) != 0 ==>
      heap.Lists() == DeallocateSpec(old(heap.Lists()), old(a.memory), Classify(old(a.size)))
  {
    a.Free(heap);
    a.Destroy(heap);
  }
}
