/**
 * Free blocks and live allocations together: every block the allocator has
 * handed out and not yet taken back shares no byte with any free block or
 * with any other live block. This module states that separation for a
 * sequence of outstanding handles and proves that `allocate` and
 * `deallocate` keep it, given an `sbrk` that returns memory none of those
 * blocks uses.
 */
module LiveBlocks {
  import opened Wrappers
  import opened Bits
  import opened SizeClasses
  import opened FreeListState
  import opened HeapSpec

  /** An outstanding handle's pair: the block's address and its size. */
  datatype Block = Block(memory: nat, size: nat)

  /** A handle as `allocate` returns it: non-null, one of the block sizes, aligned to that size. */
  predicate LiveOk(b: Block)
  {
    b.memory > 0 && IsBlockSize(b.size) && Aligned(b.memory, Shift(Classify(b.size)))
  }

  /**
   * The free lists keep their invariant, every live block is well formed and
   * apart from every free block, and no two live blocks overlap.
   */
  predicate Separated(L: FreeLists, live: seq<Block>)
  {
    Inv(L) && AllApartFromFree(L, live) && PairwiseApart(live)
  }

  /** Every live block is well formed and apart from every free block. */
  predicate AllApartFromFree(L: FreeLists, live: seq<Block>)
  {
    forall i :: 0 <= i < |live| ==> LiveOk(live[i]) && ApartFromFree(L, live[i].memory, live[i].size)
  }

  /** No two live blocks overlap. */
  predicate PairwiseApart(live: seq<Block>)
  {
    forall i, j :: 0 <= i < j < |live| ==> Apart(live[i].memory, live[i].size, live[j].memory, live[j].size)
  }

  /**
   * What the model requires of a successful `sbrk(maxSize)` when some blocks
   * are live: besides SbrkOk, the fresh memory overlaps none of them (the
   * program break only grows past memory already handed out).
   */
  predicate SbrkFresh(L: FreeLists, live: seq<Block>, sbrk: Option<nat>)
  {
    && SbrkOk(L, sbrk)
    && (sbrk.Some? ==> forall i :: 0 <= i < |live| ==> Apart(live[i].memory, live[i].size, sbrk.value, MaxSize))
  }

  /** Two live blocks of a separated state are at different addresses. */
  lemma LiveBlocksDistinct(L: FreeLists, live: seq<Block>, i: nat, j: nat)
    requires Separated(L, live) && i < j < |live|
    ensures live[i].memory != live[j].memory
  {
    assert LiveOk(live[i]) && LiveOk(live[j]);
    assert LevelSize(Classify(live[i].size)) == live[i].size;
  }

  // ---------------------------------------------------------------------------
  // Apartness of a fixed block across one operation

  /** A range next to another of the same size, both apart from x, makes a double range apart from x. */
  lemma ApartJoin(x: nat, sx: nat, p: nat, s: nat)
    requires sx > 0 && Apart(x, sx, p, s) && Apart(x, sx, p + s, s)
    ensures Apart(x, sx, p, 2 * s)
  {
  }

  /** Dropping free blocks keeps x apart from the rest. */
  lemma ApartFromFewer(L: FreeLists, L2: FreeLists, x: nat, sx: nat)
    requires ApartFromFree(L, x, sx) && |L2| == |L|
    requires forall l, y :: 0 <= l < |L2| && y in L2[l] ==> y in L[l]
    ensures ApartFromFree(L2, x, sx)
  {
  }

  /**
   * Splitting a block that misses x from level c down to `level` keeps x
   * apart from every free block, and the part kept misses x too.
   */
  lemma {:induction false} SplitKeepsApart(L: FreeLists, mem: nat, level: nat, c: nat, x: nat, sx: nat)
    requires Shaped(L) && level <= c < MaxLevels
    requires ApartFromFree(L, x, sx) && Apart(x, sx, mem, LevelSize(c))
    ensures ApartFromFree(Split(L, mem, level, c), x, sx)
    ensures Apart(x, sx, mem, LevelSize(level))
    decreases c - level
  {
    if level < c {
      var S := Split(L, mem, level + 1, c);
      SplitKeepsApart(L, mem, level + 1, c, x, sx);
      LevelSizeTable(level);
      ApartPush(S, level, mem + LevelSize(level), x, sx);
      SplitGrow(L, mem, level, c);
    } else {
      SplitNothing(L, mem, c);
    }
  }

  /**
   * Every free block and the granted block of a successful allocation lie
   * inside the old free blocks or the sbrk block, so a block apart from all
   * of those stays apart from the new free lists and from the granted block.
   */
  lemma AllocateKeepsApart(L: FreeLists, sz: nat, sbrk: Option<nat>, x: nat, sx: nat)
    requires Shaped(L) && AllocateSpec(L, sz, sbrk).Some?
    requires ApartFromFree(L, x, sx) && (sbrk.Some? ==> Apart(x, sx, sbrk.value, MaxSize))
    ensures var g := AllocateSpec(L, sz, sbrk).value;
      ApartFromFree(g.lists, x, sx) && Apart(x, sx, g.memory, g.size)
  {
    var level := Classify(sz);
    var g := AllocateSpec(L, sz, sbrk).value;
    match Search(L, level)
    case Some(f) =>
      var mem := L[f][0];
      var L1 := L[f := L[f][1..]];
      assert g == Grant(mem, LevelSize(level), f, Split(L1, mem, level, f));
      assert mem in L[f];
      assert forall y :: y in L[f][1..] ==> y in L[f];
      ApartFromFewer(L, L1, x, sx);
      SplitKeepsApart(L1, mem, level, f, x, sx);
    case None =>
      var base := sbrk.value;
      assert g == Grant(base, LevelSize(level), MaxLevels - 1, Split(L, base, level, MaxLevels - 1));
      LevelSizeValues();
      SplitKeepsApart(L, base, level, MaxLevels - 1, x, sx);
  }

  /**
   * The coalescing walk only unlinks free blocks and merges the released
   * block with them, so a non-empty block apart from both stays apart from
   * the lists and from the merged block.
   */
  lemma {:induction false} CoalesceKeepsApart(L: FreeLists, m: nat, lv: Level, x: nat, sx: nat)
    requires Shaped(L) && sx > 0 && Aligned(m, Shift(lv))
    requires ApartFromFree(L, x, sx) && Apart(x, sx, m, LevelSize(lv))
    ensures var w := Coalesce(L, m, lv);
      ApartFromFree(w.lists, x, sx) && Apart(x, sx, w.memory, LevelSize(w.level))
    decreases MaxLevels - lv
  {
    if lv < MaxLevels - 1 {
      var b := Buddy(m, lv);
      if b in L[lv] {
        var L1 := L[lv := RemoveAt(L[lv], FirstIndex(L[lv], b))];
        var p := AndNot(m, LevelSize(lv));
        ApartFromFewer(L, L1, x, sx);
        BuddyPair(m, lv);
        LevelSizeTable(lv);
        ApartJoin(x, sx, p, LevelSize(lv));
        CoalesceKeepsApart(L1, p, lv + 1, x, sx);
      }
    }
  }

  /** Releasing a block that misses a non-empty block x keeps x apart from every free block. */
  lemma DeallocateKeepsApart(L: FreeLists, m: nat, lv: Level, x: nat, sx: nat)
    requires Shaped(L) && sx > 0 && Aligned(m, Shift(lv))
    requires ApartFromFree(L, x, sx) && Apart(x, sx, m, LevelSize(lv))
    ensures ApartFromFree(DeallocateSpec(L, m, lv), x, sx)
  {
    CoalesceKeepsApart(L, m, lv, x, sx);
    var w := Coalesce(L, m, lv);
    ApartPush(w.lists, w.level, w.memory, x, sx);
  }

  // ---------------------------------------------------------------------------
  // Separation is kept

  /** A live block's size is its level's block size, and so not zero. */
  lemma LiveSize(b: Block)
    requires LiveOk(b)
    ensures b.size == LevelSize(Classify(b.size)) && b.size > 0
  {
  }

  /**
   * A successful allocation keeps free and live blocks separated, with the
   * granted block added to the live ones.
   */
  lemma AllocateKeepsSeparated(L: FreeLists, live: seq<Block>, sz: nat, sbrk: Option<nat>)
    requires Separated(L, live) && SbrkFresh(L, live, sbrk) && AllocateSpec(L, sz, sbrk).Some?
    ensures var g := AllocateSpec(L, sz, sbrk).value;
      Separated(g.lists, live + [Block(g.memory, g.size)])
  {
    var g := AllocateSpec(L, sz, sbrk).value;
    var nb := Block(g.memory, g.size);
    var live2 := live + [nb];
    AllocateKeepsInvariant(L, sz, sbrk);
    ClassifyLevelSize(Classify(sz));
    assert LiveOk(nb);
    forall i | 0 <= i < |live|
      ensures ApartFromFree(g.lists, live[i].memory, live[i].size) && Apart(live[i].memory, live[i].size, g.memory, g.size)
    {
      AllocateKeepsApart(L, sz, sbrk, live[i].memory, live[i].size);
    }
    forall i | 0 <= i < |live2|
      ensures LiveOk(live2[i]) && ApartFromFree(g.lists, live2[i].memory, live2[i].size)
    {
      if i < |live| {
        assert live2[i] == live[i];
      }
    }
    forall i, j | 0 <= i < j < |live2|
      ensures Apart(live2[i].memory, live2[i].size, live2[j].memory, live2[j].size)
    {
      assert live2[i] == live[i];
      if j < |live| {
        assert live2[j] == live[j];
      }
    }
  }

  /**
   * Releasing live block i keeps free and live blocks separated, with that
   * block no longer live.
   */
  lemma DeallocateKeepsSeparated(L: FreeLists, live: seq<Block>, i: nat)
    requires Separated(L, live) && i < |live|
    ensures var b := live[i];
      Separated(DeallocateSpec(L, b.memory, Classify(b.size)), live[..i] + live[i + 1..])
  {
    var b := live[i];
    LiveSize(b);
    DeallocateKeepsInvariant(L, b.memory, Classify(b.size));
    OthersStayApart(L, live, i);
    PairwiseWithout(live, i);
  }

  /** After live block i is released, every other live block is still apart from the free blocks. */
  lemma OthersStayApart(L: FreeLists, live: seq<Block>, i: nat)
    requires Shaped(L) && AllApartFromFree(L, live) && PairwiseApart(live) && i < |live|
    ensures var b := live[i];
      AllApartFromFree(DeallocateSpec(L, b.memory, Classify(b.size)), live[..i] + live[i + 1..])
  {
    var b := live[i];
    var lv := Classify(b.size);
    var L2 := DeallocateSpec(L, b.memory, lv);
    var rest := live[..i] + live[i + 1..];
    LiveSize(b);
    forall k | 0 <= k < |rest|
      ensures LiveOk(rest[k]) && ApartFromFree(L2, rest[k].memory, rest[k].size)
    {
      var k0 := if k < i then k else k + 1;
      assert rest[k] == live[k0];
      LiveSize(live[k0]);
      if k0 < i {
        assert Apart(live[k0].memory, live[k0].size, b.memory, b.size);
      } else {
        assert Apart(b.memory, b.size, live[k0].memory, live[k0].size);
      }
      DeallocateKeepsApart(L, b.memory, lv, live[k0].memory, live[k0].size);
    }
  }

  /** Dropping one block keeps the others pairwise apart. */
  lemma PairwiseWithout(live: seq<Block>, i: nat)
    requires PairwiseApart(live) && i < |live|
    ensures PairwiseApart(live[..i] + live[i + 1..])
  {
    var rest := live[..i] + live[i + 1..];
    forall k1, k2 | 0 <= k1 < k2 < |rest|
      ensures Apart(rest[k1].memory, rest[k1].size, rest[k2].memory, rest[k2].size)
    {
      var j1 := if k1 < i then k1 else k1 + 1;
      var j2 := if k2 < i then k2 else k2 + 1;
      assert rest[k1] == live[j1] && rest[k2] == live[j2] && j1 < j2;
    }
  }
}
