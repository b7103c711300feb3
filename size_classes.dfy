/**
 * The size-class tables of the allocator: eight levels whose blocks are
 * 32, 64, ..., 4096 bytes (`levelSize`, `maxSize`), and the table
 * `reverseLookup` that maps a byte count to the smallest level whose block
 * holds it.
 */
module SizeClasses {
  import opened Wrappers
  import opened Bits

  /** Number of levels (`maxLevels`). */
  const MaxLevels: nat := 8
  /** Block size of level 0 (`minSize`), 2^MinShift. */
  const MinSize: nat := 32
  const MinShift: nat := 5
  /** Block size of the top level (`maxSize`). */
  const MaxSize: nat := 4096
  /** Number of entries of `reverseLookup`: maxSize / 2 + 1. */
  const ReverseLookupSize: nat := MaxSize / 2 + 1

  type Level = l: nat | l < MaxLevels

  /** Block size of level l (`levelSize[l]`), as an exponent of two. */
  function Shift(l: nat): nat
  {
    MinShift + l
  }

  /** Block size of level l (`levelSize[l]`). */
  function LevelSize(l: nat): nat
  {
    Pow2(Shift(l))
  }

  /** Each level's block is twice the one below, starting from minSize. */
  lemma {:induction false} LevelSizeTable(l: nat)
    ensures LevelSize(l) == MinSize * Pow2(l)
    ensures LevelSize(l + 1) == 2 * LevelSize(l)
    decreases l
  {
    if l == 0 {
      assert Pow2(5) == 32;
    } else {
      LevelSizeTable(l - 1);
    }
  }

  /** The eight block sizes; the top one is maxSize. */
  lemma LevelSizeValues()
    ensures LevelSize(0) == 32 && LevelSize(1) == 64 && LevelSize(2) == 128 && LevelSize(3) == 256
    ensures LevelSize(4) == 512 && LevelSize(5) == 1024 && LevelSize(6) == 2048 && LevelSize(7) == 4096
    ensures LevelSize(MaxLevels - 1) == MaxSize
  {
    LevelSizeTable(0);
    LevelSizeTable(1);
    LevelSizeTable(2);
    LevelSizeTable(3);
    LevelSizeTable(4);
    LevelSizeTable(5);
    LevelSizeTable(6);
  }

  /** Block sizes are strictly increasing, and a level's block is at least twice any lower one. */
  lemma LevelSizeIncreasing(i: nat, j: nat)
    requires i < j
    ensures LevelSize(i) < LevelSize(j)
    ensures 2 * LevelSize(i) <= LevelSize(j)
  {
    Pow2Monotone(Shift(i), Shift(j));
  }

  /** Builds `levelSize` as its initialiser does, doubling the size level by level. */
  method BuildLevelSize() returns (levelSize: seq<nat>)
    ensures |levelSize| == MaxLevels
    ensures forall i :: 0 <= i < MaxLevels ==> levelSize[i] == MinSize * Pow2(i)
  {
    var a := new nat[MaxLevels];
    var i, sz := 0, MinSize;
    LevelSizeTable(0);
    while i < MaxLevels
      invariant 0 <= i <= MaxLevels
      invariant sz == MinSize * Pow2(i)
      invariant forall j :: 0 <= j < i ==> a[j] == MinSize * Pow2(j)
    {
      a[i] := sz;
      i, sz := i + 1, sz * 2;
    }
    levelSize := a[..];
  }

  /**
   * The smallest level at or above `from` whose block holds n bytes, or the
   * top level when none does.
   */
  function LeastFitFrom(n: nat, from: Level): (l: Level)
    ensures from <= l
    ensures n <= LevelSize(l) || l == MaxLevels - 1
    ensures forall j :: from <= j < l ==> LevelSize(j) < n
    decreases MaxLevels - from
  {
    if n <= LevelSize(from) || from == MaxLevels - 1 then from else LeastFitFrom(n, from + 1)
  }

  /** A level that holds n bytes while no lower level does is the least fit. */
  lemma LeastFitUnique(n: nat, l: Level)
    requires n <= LevelSize(l)
    requires forall j :: 0 <= j < l ==> LevelSize(j) < n
    ensures LeastFitFrom(n, 0) == l
  {
  }

  /** One step of the initialiser of `reverseLookup`: the level moves up at most once per byte. */
  lemma LeastFitStep(n: nat)
    requires n + 1 < ReverseLookupSize
    ensures var p := LeastFitFrom(n, 0);
      LeastFitFrom(n + 1, 0) == if LevelSize(p) < n + 1 then p + 1 else p
    ensures var p := LeastFitFrom(n, 0);
      LevelSize(p) < n + 1 ==> p + 1 < MaxLevels && LevelSize(p + 1) == 2 * LevelSize(p)
  {
    LevelSizeValues();
    var p := LeastFitFrom(n, 0);
    if LevelSize(p) < n + 1 {
      assert p < MaxLevels - 1;
      LevelSizeTable(p);
      LeastFitUnique(n + 1, p + 1);
    } else {
      LeastFitUnique(n + 1, p);
    }
  }

  /** The contents of `reverseLookup`: entry n is the least level whose block holds n bytes. */
  function ReverseLookup(): seq<Level>
  {
    seq(ReverseLookupSize, n requires 0 <= n < ReverseLookupSize => LeastFitFrom(n, 0))
  }

  /** Entry n of `reverseLookup` is the smallest level whose block holds n bytes. */
  lemma ReverseLookupLeast(n: nat)
    requires n < |ReverseLookup()|
    ensures n <= LevelSize(ReverseLookup()[n])
    ensures forall j :: 0 <= j < ReverseLookup()[n] ==> LevelSize(j) < n
  {
    LevelSizeValues();
  }

  /**
   * The state of the initialiser of `reverseLookup` before entry i: l is the
   * level of the previous entry and currSz its block size.
   */
  predicate LookupCursor(i: nat, l: nat, currSz: nat)
  {
    l < MaxLevels && currSz == LevelSize(l) && l == LeastFitFrom(if i == 0 then 0 else i - 1, 0)
  }

  /** One step of the initialiser: after moving up at most one level, l is entry i. */
  lemma LookupCursorStep(i: nat, l: nat, currSz: nat)
    requires i < ReverseLookupSize && LookupCursor(i, l, currSz)
    ensures currSz < i ==> LookupCursor(i + 1, l + 1, currSz * 2) && l + 1 == LeastFitFrom(i, 0)
    ensures currSz >= i ==> LookupCursor(i + 1, l, currSz) && l == LeastFitFrom(i, 0)
  {
    if i > 0 {
      LeastFitStep(i - 1);
    } else {
      LevelSizeValues();
    }
  }

  /** Builds `reverseLookup` as its initialiser does, moving up one level whenever the byte count passes the current block size. */
  method BuildReverseLookup() returns (rev: seq<Level>)
    ensures rev == ReverseLookup()
  {
    var a := new Level[ReverseLookupSize];
    var currSz: nat, i: nat, l: nat := MinSize, 0, 0;
    while i < ReverseLookupSize
      invariant 0 <= i <= ReverseLookupSize
      invariant LookupCursor(i, l, currSz)
      invariant forall n :: 0 <= n < i ==> a[n] == LeastFitFrom(n, 0)
    {
      LookupCursorStep(i, l, currSz);
      if currSz < i {
        currSz, l := currSz * 2, l + 1;
      }
      a[i] := l;
      i := i + 1;
    }
    rev := a[..];
  }

  /**
   * The level of a request as BuddyAllocator.hpp:97 and :124 compute it: any
   * count above the table's size takes the top level, any other reads the
   * table at that index. At exactly the table's size the read falls one past
   * its end; None stands for that read.
   */
  function LookupAsWritten(sz: nat): (r: Option<Level>)
    ensures r.None? <==> sz == ReverseLookupSize
    ensures sz < ReverseLookupSize ==> r == Some(LeastFitFrom(sz, 0))
  {
    if sz > |ReverseLookup()| then Some(MaxLevels - 1)
    else if sz < |ReverseLookup()| then Some(ReverseLookup()[sz])
    else None
  }

  /**
   * The level of a request with the bound read as intended: every count
   * beyond the table, including the one at its size, takes the top level.
   */
  function Classify(sz: nat): (l: Level)
    ensures sz <= MaxSize ==> sz <= LevelSize(l)
    ensures sz <= MaxSize ==> forall j :: 0 <= j < l ==> LevelSize(j) < sz
    ensures sz > MaxSize / 2 ==> l == MaxLevels - 1
    ensures sz != ReverseLookupSize ==> LookupAsWritten(sz) == Some(l)
  {
    LevelSizeValues();
    if sz >= ReverseLookupSize then MaxLevels - 1 else LeastFitFrom(sz, 0)
  }

  /** The request one past the table's covered range reads outside it as written. */
  lemma LookupOutOfBounds()
    ensures LookupAsWritten(ReverseLookupSize) == None
    ensures Classify(ReverseLookupSize) == MaxLevels - 1
    ensures LevelSize(Classify(ReverseLookupSize)) >= ReverseLookupSize
  {
    LevelSizeValues();
  }

  /** Only the top level's block is maxSize bytes: the coalescing loop of `deallocate` stops exactly there. */
  lemma LevelSizeIsMax(l: Level)
    ensures LevelSize(l) == MaxSize <==> l == MaxLevels - 1
  {
    LevelSizeValues();
    if l < MaxLevels - 1 {
      LevelSizeIncreasing(l, MaxLevels - 1);
    }
  }

  /** A byte count that is the block size of some level: the sizes `allocate` hands out. */
  predicate IsBlockSize(size: nat)
  {
    LevelSize(Classify(size)) == size
  }

  /** A block's size gives back its level (BuddyAllocator.hpp:124). */
  lemma ClassifyLevelSize(l: Level)
    ensures Classify(LevelSize(l)) == l
    ensures IsBlockSize(LevelSize(l))
  {
    LevelSizeValues();
    var r := Classify(LevelSize(l));
    if r < l {
      LevelSizeIncreasing(r, l);
    } else if r > l {
      LevelSizeIncreasing(l, r);
    }
  }
}
