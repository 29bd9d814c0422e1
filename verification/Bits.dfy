// Fixed-width unsigned arithmetic, digit by digit.  A C `unsigned int` is modelled
// by its value; the bitwise operators are defined on binary digits, so every fact
// about a bitmap is a fact about one digit.
module Bits {
  function Pow2(k: nat): (p: nat)
    ensures p > 0
  {
    if k == 0 then 1 else 2 * Pow2(k - 1)
  }

  // Digit i of m: the C test `m & (1U << i)`.
  predicate Bit(m: nat, i: nat) {
    if i == 0 then m % 2 == 1 else Bit(m / 2, i - 1)
  }

  // The C operators `x & y`, `x | y` and `x & ~y`.
  function And(x: nat, y: nat): nat {
    if x == 0 || y == 0 then 0
    else (if x % 2 == 1 && y % 2 == 1 then 1 else 0) + 2 * And(x / 2, y / 2)
  }

  function Or(x: nat, y: nat): nat {
    if x == 0 && y == 0 then 0
    else (if x % 2 == 1 || y % 2 == 1 then 1 else 0) + 2 * Or(x / 2, y / 2)
  }

  function AndNot(x: nat, y: nat): nat {
    if x == 0 then 0
    else (if x % 2 == 1 && y % 2 == 0 then 1 else 0) + 2 * AndNot(x / 2, y / 2)
  }

  // The 32-bit constant `~0U << k`.
  function OnesFrom(k: nat): nat
    requires k <= 32
  {
    Pow2Mono(k, 32);
    Pow2(32) - Pow2(k)
  }

  // The C operator `x >> k`.
  function Shr(x: nat, k: nat): nat {
    if k == 0 then x else Shr(x / 2, k - 1)
  }

  // tlsf_ffs: index of the lowest set bit, -1 for zero.
  function Ffs(m: nat): (r: int)
    ensures r >= -1
    ensures m == 0 <==> r == -1
  {
    if m == 0 then -1 else if m % 2 == 1 then 0 else 1 + Ffs(m / 2)
  }

  // tlsf_fls: index of the highest set bit, -1 for zero.
  function Fls(x: nat): (r: int)
    ensures r >= -1
    ensures x == 0 <==> r == -1
  {
    if x == 0 then -1 else 1 + Fls(x / 2)
  }

  // tlsf_fls_sizet: the 64-bit version splits the word in two halves and computes
  // the same logarithm.
  function FlsSizeT(x: nat): (r: int)
    ensures r == Fls(x)
  {
    FlsHalves(x);
    var high := x / 0x1_0000_0000;
    if high != 0 then 32 + Fls(high) else Fls(x % 0x1_0000_0000)
  }

  lemma {:induction false} Pow2Mono(i: nat, k: nat)
    requires i <= k
    ensures Pow2(i) <= Pow2(k)
  {
    if i < k {
      Pow2Mono(i, k - 1);
    }
  }

  lemma {:induction false} Pow2Add(i: nat, k: nat)
    ensures Pow2(i + k) == Pow2(i) * Pow2(k)
  {
    if i > 0 {
      Pow2Add(i - 1, k);
      assert Pow2(i + k) == 2 * Pow2(i - 1 + k) == 2 * (Pow2(i - 1) * Pow2(k));
      assert Pow2(i) * Pow2(k) == 2 * Pow2(i - 1) * Pow2(k);
    }
  }

  lemma Pow2Double(k: nat)
    ensures Pow2(k + 1) == 2 * Pow2(k)
  {
  }

  // A shift divides by a power of two, rounding down.
  lemma {:induction false} ShrQuotient(x: nat, k: nat)
    ensures Shr(x, k) * Pow2(k) <= x < Shr(x, k) * Pow2(k) + Pow2(k)
  {
    if k > 0 {
      ShrQuotient(x / 2, k - 1);
      DoubleRange(x, Shr(x / 2, k - 1), Pow2(k - 1));
    }
  }

  lemma DoubleRange(x: nat, q: nat, p: nat)
    requires q * p <= x / 2 < q * p + p
    ensures q * (2 * p) <= x < q * (2 * p) + 2 * p
  {
    var m := q * p;
    assert q * (2 * p) == 2 * m;
  }

  lemma {:induction false} BitZero(i: nat)
    ensures !Bit(0, i)
  {
    if i > 0 {
      BitZero(i - 1);
    }
  }

  lemma {:induction false} BitAnd(x: nat, y: nat, i: nat)
    ensures Bit(And(x, y), i) <==> Bit(x, i) && Bit(y, i)
  {
    if x == 0 || y == 0 {
      BitZero(i);
    } else if i > 0 {
      BitAnd(x / 2, y / 2, i - 1);
    }
  }

  lemma {:induction false} BitOr(x: nat, y: nat, i: nat)
    ensures Bit(Or(x, y), i) <==> Bit(x, i) || Bit(y, i)
  {
    if x == 0 && y == 0 {
      BitZero(i);
    } else if i > 0 {
      BitOr(x / 2, y / 2, i - 1);
    }
  }

  lemma {:induction false} BitAndNot(x: nat, y: nat, i: nat)
    ensures Bit(AndNot(x, y), i) <==> Bit(x, i) && !Bit(y, i)
  {
    if x == 0 {
      BitZero(i);
    } else if i > 0 {
      BitAndNot(x / 2, y / 2, i - 1);
    }
  }

  // `1U << k` has exactly the digit k.
  lemma {:induction false} BitPow2(k: nat, i: nat)
    ensures Bit(Pow2(k), i) <==> i == k
  {
    if k == 0 && i > 0 {
      BitZero(i - 1);
    } else if k > 0 && i > 0 {
      BitPow2(k - 1, i - 1);
    }
  }

  lemma {:induction false} BitOnes(n: nat, i: nat)
    requires i < n
    ensures Bit(Pow2(n) - 1, i)
  {
    if i > 0 {
      BitOnes(n - 1, i - 1);
      assert (Pow2(n) - 1) / 2 == Pow2(n - 1) - 1;
    }
  }

  lemma {:induction false} BitRange(n: nat, k: nat, i: nat)
    requires k <= n && i < n
    ensures Pow2(k) <= Pow2(n)
    ensures Bit(Pow2(n) - Pow2(k), i) <==> i >= k
  {
    Pow2Mono(k, n);
    if k == 0 {
      BitOnes(n, i);
    } else if i > 0 {
      BitRange(n - 1, k - 1, i - 1);
      assert (Pow2(n) - Pow2(k)) / 2 == Pow2(n - 1) - Pow2(k - 1);
    }
  }

  // The mask `m & (~0U << k)` keeps the digits from k up.
  lemma MaskFrom(m: nat, k: nat, i: nat)
    requires k <= 32 && i < 32
    ensures Bit(And(m, OnesFrom(k)), i) <==> Bit(m, i) && i >= k
  {
    BitAnd(m, OnesFrom(k), i);
    BitRange(32, k, i);
  }

  lemma SetBit(m: nat, k: nat, i: nat)
    ensures Bit(Or(m, Pow2(k)), i) <==> Bit(m, i) || i == k
  {
    BitOr(m, Pow2(k), i);
    BitPow2(k, i);
  }

  lemma ClearBit(m: nat, k: nat, i: nat)
    ensures Bit(AndNot(m, Pow2(k)), i) <==> Bit(m, i) && i != k
  {
    BitAndNot(m, Pow2(k), i);
    BitPow2(k, i);
  }

  // Ffs finds the least set digit.
  lemma {:induction false} FfsLeast(m: nat, i: nat)
    requires m != 0
    ensures Bit(m, Ffs(m))
    ensures i < Ffs(m) ==> !Bit(m, i)
  {
    if m % 2 == 0 {
      FfsLeast(m / 2, if i == 0 then 0 else i - 1);
    }
  }

  // Fls is the floor of the binary logarithm.
  lemma {:induction false} FlsLog(x: nat)
    requires x > 0
    ensures Fls(x) >= 0
    ensures Pow2(Fls(x)) <= x < 2 * Pow2(Fls(x))
  {
    if x > 1 {
      FlsLog(x / 2);
    }
  }

  lemma {:induction false} FlsUnique(x: nat, k: nat)
    requires Pow2(k) <= x < 2 * Pow2(k)
    ensures Fls(x) == k
  {
    FlsLog(x);
    if Fls(x) < k {
      Pow2Mono(Fls(x) + 1, k);
    } else if Fls(x) > k {
      Pow2Mono(k + 1, Fls(x));
    }
  }

  lemma {:induction false} FlsHalves(x: nat)
    ensures var high := x / 0x1_0000_0000;
      Fls(x) == if high != 0 then 32 + Fls(high) else Fls(x % 0x1_0000_0000)
  {
    var high := x / 0x1_0000_0000;
    if high != 0 {
      FlsLog(high);
      Pow2Add(32, Fls(high));
      PowersOfTwo();
      hide Pow2, Fls;
      HalvesRange(x, high, Pow2(Fls(high)));
      Pow2Double(32 + Fls(high));
      FlsUnique(x, 32 + Fls(high));
    }
  }

  lemma HalvesRange(x: nat, high: nat, p: nat)
    requires high == x / 0x1_0000_0000 && p <= high < 2 * p
    ensures 0x1_0000_0000 * p <= x < 2 * (0x1_0000_0000 * p)
  {
    assert 0x1_0000_0000 * high <= x < 0x1_0000_0000 * high + 0x1_0000_0000;
  }

  // The powers that occur as literals.
  lemma PowersOfTwo()
    ensures Pow2(3) == 8 && Pow2(5) == 32 && Pow2(8) == 256
    ensures Pow2(32) == 0x1_0000_0000
  {
    assert Pow2(4) == 16;
    assert Pow2(8) == 0x100;
    assert Pow2(12) == 0x1000;
    assert Pow2(16) == 0x1_0000;
    assert Pow2(20) == 0x10_0000;
    assert Pow2(24) == 0x100_0000;
    assert Pow2(28) == 0x1000_0000;
  }
}
