/**
 * Bit arithmetic on addresses. An address (a `std::uintptr_t` in the allocator)
 * is a natural number here; the bitwise operators the allocator applies to
 * addresses are defined bit by bit, and the lemmas say what they do to a
 * single power of two.
 */
module Bits {

  /** 2^k */
  function Pow2(k: nat): (r: nat)
    ensures r >= 1
  {
    if k == 0 then 1 else 2 * Pow2(k - 1)
  }

  /** Bit k of a is set. */
  predicate Bit(a: nat, k: nat)
  {
    if k == 0 then a % 2 == 1 else Bit(a / 2, k - 1)
  }

  /** The k lowest bits of a are clear: a is a multiple of 2^k (see AlignedMod). */
  predicate Aligned(a: nat, k: nat)
  {
    k == 0 || (a % 2 == 0 && Aligned(a / 2, k - 1))
  }

  /** a ^ b, bitwise exclusive or. */
  function Xor(a: nat, b: nat): nat
    decreases a + b
  {
    if a == 0 && b == 0 then 0 else 2 * Xor(a / 2, b / 2) + (a + b) % 2
  }

  /** a & ~b: the bits of a with every bit of b cleared. */
  function AndNot(a: nat, b: nat): nat
    decreases a
  {
    if a == 0 then 0 else 2 * AndNot(a / 2, b / 2) + (if a % 2 == 1 && b % 2 == 0 then 1 else 0)
  }

  lemma {:induction false} Pow2Monotone(j: nat, k: nat)
    requires j <= k
    ensures Pow2(j) <= Pow2(k)
    ensures j < k ==> 2 * Pow2(j) <= Pow2(k)
    decreases k
  {
    if j < k {
      Pow2Monotone(j, k - 1);
    }
  }

  lemma {:induction false} XorZero(a: nat)
    ensures Xor(a, 0) == a
    decreases a
  {
    if a != 0 {
      XorZero(a / 2);
    }
  }

  lemma {:induction false} AndNotZero(a: nat)
    ensures AndNot(a, 0) == a
    decreases a
  {
    if a != 0 {
      AndNotZero(a / 2);
    }
  }

  lemma {:induction false} BitOfZero(k: nat)
    ensures !Bit(0, k)
  {
    if k > 0 {
      BitOfZero(k - 1);
    }
  }

  /** Halving undoes doubling plus a bit. */
  lemma Halves(x: nat, r: nat)
    requires r < 2
    ensures (2 * x + r) / 2 == x && (2 * x + r) % 2 == r
  {
  }

  /** One step of XOR against an even number: the low bit of a passes through. */
  lemma XorEven(a: nat, q: nat)
    ensures Xor(a, 2 * q) == 2 * Xor(a / 2, q) + a % 2
  {
    Halves(q, 0);
    EvenShift(a, q);
  }

  lemma EvenShift(a: nat, q: nat)
    ensures (a + 2 * q) % 2 == a % 2
  {
  }

  /** XOR with 1 toggles the low bit. */
  lemma XorOne(a: nat)
    ensures Xor(a, 1) == if a % 2 == 1 then a - 1 else a + 1
  {
    XorZero(a / 2);
    assert Xor(a, 1) == 2 * (a / 2) + (a + 1) % 2;
  }

  /** XOR with 2^k toggles bit k: it adds 2^k when the bit is clear and subtracts it when set. */
  lemma {:induction false} XorPow2(a: nat, k: nat)
    ensures Bit(a, k) ==> a >= Pow2(k)
    ensures Xor(a, Pow2(k)) == if Bit(a, k) then a - Pow2(k) else a + Pow2(k)
    decreases k
  {
    if k == 0 {
      XorOne(a);
    } else {
      var q := Pow2(k - 1);
      XorEven(a, q);
      XorPow2(a / 2, k - 1);
      assert Pow2(k) == 2 * q && Bit(a, k) == Bit(a / 2, k - 1);
      assert a == 2 * (a / 2) + a % 2;
    }
  }

  /** AND-NOT with 1 clears the low bit. */
  lemma AndNotOne(a: nat)
    ensures AndNot(a, 1) == a - a % 2
  {
    AndNotZero(a / 2);
  }

  /** One step of AND-NOT against an even number: the low bit of a passes through. */
  lemma AndNotEven(a: nat, q: nat)
    ensures AndNot(a, 2 * q) == 2 * AndNot(a / 2, q) + a % 2
  {
    Halves(q, 0);
  }

  /** AND with the complement of 2^k clears bit k: it subtracts 2^k when the bit is set. */
  lemma {:induction false} AndNotPow2(a: nat, k: nat)
    ensures AndNot(a, Pow2(k)) == if Bit(a, k) then a - Pow2(k) else a
    decreases k
  {
    if k == 0 {
      AndNotOne(a);
    } else {
      var q := Pow2(k - 1);
      AndNotEven(a, q);
      AndNotPow2(a / 2, k - 1);
      XorPow2(a / 2, k - 1);
      assert Pow2(k) == 2 * q && Bit(a, k) == Bit(a / 2, k - 1);
      assert a == 2 * (a / 2) + a % 2;
    }
  }

  /** The high bits of a ^ b are the XOR of the high bits; the low bit is the parity of the low bits. */
  lemma XorHalves(a: nat, b: nat)
    ensures Xor(a, b) / 2 == Xor(a / 2, b / 2) && Xor(a, b) % 2 == (a + b) % 2
  {
    var x := Xor(a / 2, b / 2);
    if a != 0 || b != 0 {
      assert Xor(a, b) == 2 * x + (a + b) % 2;
      Halves(x, (a + b) % 2);
    }
  }

  /** XOR with the same value twice gives back the original: the buddy of a buddy is the block itself. */
  lemma {:induction false} XorInvolutive(a: nat, b: nat)
    ensures Xor(Xor(a, b), b) == a
    decreases a + b
  {
    if a != 0 || b != 0 {
      var c := Xor(a, b);
      XorHalves(a, b);
      XorHalves(c, b);
      XorInvolutive(a / 2, b / 2);
      ParityCancel(a, b, c);
      SameHalves(Xor(c, b), a);
    }
  }

  lemma ParityCancel(a: nat, b: nat, c: nat)
    requires c % 2 == (a + b) % 2
    ensures (c + b) % 2 == a % 2
  {
  }

  lemma SameHalves(x: nat, y: nat)
    requires x / 2 == y / 2 && x % 2 == y % 2
    ensures x == y
  {
  }

  lemma {:induction false} AlignedWeaken(a: nat, j: nat, k: nat)
    requires j <= k && Aligned(a, k)
    ensures Aligned(a, j)
    decreases j
  {
    if j > 0 {
      AlignedWeaken(a / 2, j - 1, k - 1);
    }
  }

  lemma {:induction false} AlignedBitClear(a: nat, k: nat)
    requires Aligned(a, k + 1)
    ensures !Bit(a, k)
    decreases k
  {
    if k > 0 {
      AlignedBitClear(a / 2, k - 1);
    }
  }

  lemma {:induction false} AlignedAddPow2(a: nat, k: nat)
    requires Aligned(a, k)
    ensures Aligned(a + Pow2(k), k)
    ensures Bit(a + Pow2(k), k) == !Bit(a, k)
    decreases k
  {
    if k > 0 {
      AlignedAddPow2(a / 2, k - 1);
      assert (a + Pow2(k)) / 2 == a / 2 + Pow2(k - 1);
    }
  }

  lemma {:induction false} AlignedJoin(a: nat, k: nat)
    requires Aligned(a, k) && !Bit(a, k)
    ensures Aligned(a, k + 1)
    decreases k
  {
    if k > 0 {
      AlignedJoin(a / 2, k - 1);
    }
  }

  lemma {:induction false} AlignedSubPow2(a: nat, k: nat)
    requires Aligned(a, k) && Bit(a, k)
    ensures a >= Pow2(k) && Aligned(a - Pow2(k), k + 1)
    decreases k
  {
    if k > 0 {
      AlignedSubPow2(a / 2, k - 1);
      assert (a - Pow2(k)) / 2 == a / 2 - Pow2(k - 1);
    }
  }

  lemma DivMod2(a: nat, m: nat)
    requires m > 0
    ensures a % (2 * m) == 2 * ((a / 2) % m) + a % 2
  {
    var h, r := a / 2, a % 2;
    var q, s := h / m, h % m;
    assert a == 2 * h + r;
    assert h == q * m + s;
    assert a == q * (2 * m) + (2 * s + r);
    assert 0 <= 2 * s + r < 2 * m;
    ModUnique(a, 2 * m, q, 2 * s + r);
  }

  lemma ModUnique(a: int, m: int, q: int, r: int)
    requires m > 0 && 0 <= r < m && a == q * m + r
    ensures a % m == r
  {
    var q', r' := a / m, a % m;
    assert a == q' * m + r';
    assert (q - q') * m == r' - r;
    if q > q' {
      MulAtLeast(q - q', m);
    } else if q < q' {
      MulAtLeast(q' - q, m);
    }
  }

  lemma {:induction false} MulAtLeast(d: nat, m: nat)
    requires d >= 1
    ensures d * m >= m
  {
    if d > 1 {
      MulAtLeast(d - 1, m);
      assert d * m == (d - 1) * m + m;
    }
  }

  /** The bit-wise notion of alignment agrees with the arithmetic one. */
  lemma {:induction false} AlignedMod(a: nat, k: nat)
    ensures Aligned(a, k) <==> a % Pow2(k) == 0
    decreases k
  {
    if k > 0 {
      AlignedMod(a / 2, k - 1);
      DivMod2(a, Pow2(k - 1));
    }
  }
}
