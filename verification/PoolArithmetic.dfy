// The size_t arithmetic of memory pools: how much raw memory a request asks for, where its buffer
// goes, and when the 64-bit sums wrap around.
module PoolArithmetic {
  import Alignment
  import Bits
  import SizeClass

  const SIZE_T: nat := 0x1_0000_0000_0000_0000
  const UINT16: nat := 0x1_0000
  const DESC_SIZE: nat := 80
  const HEAD_SIZE: nat := 8
  const OVERHEAD: nat := DESC_SIZE + HEAD_SIZE

  // ---- plain requests ----

  // What mem_allocate and mem_reallocate ask the platform for.
  function PlainSize(size: nat): nat {
    (size + OVERHEAD) % SIZE_T
  }

  // Where the footer of a buffer goes.
  function FootAt(buff: nat, size: nat): nat {
    (buff + size) % SIZE_T
  }

  // Descriptor, buffer and footer fit what is asked for, or nothing is asked for and the request is
  // refused, exactly for sizes up to 2^64 - 88.
  lemma PlainFits(size: nat)
    requires 0 < size < SIZE_T
    ensures PlainSize(size) == 0 || DESC_SIZE + size + HEAD_SIZE <= PlainSize(size) <==> size <= SIZE_T - OVERHEAD
    ensures size > SIZE_T - OVERHEAD ==> 0 < PlainSize(size) < OVERHEAD
  {
  }

  // For the largest size the footer lies over the last byte of the descriptor and the next seven.
  lemma LargestRequest(data: nat)
    requires data + 87 <= SIZE_T
    ensures PlainSize(SIZE_T - 1) == 87 && FootAt(data + DESC_SIZE, SIZE_T - 1) == data + DESC_SIZE - 1
  {
  }

  // ---- rounding ----

  // round_up: (value + align - 1) & ~(align - 1), in size_t
  function RoundUp(x: nat, align: nat): nat
    requires align > 0
  {
    Bits.AndNot((x + align - 1) % SIZE_T, align - 1)
  }

  lemma {:induction false} AndNotBounds(x: nat, m: nat)
    ensures Bits.AndNot(x, m) <= x <= Bits.AndNot(x, m) + m
  {
    if x > 0 {
      AndNotBounds(x / 2, m / 2);
    }
  }

  lemma {:induction false} AndNotLow(x: nat, k: nat)
    ensures Bits.AndNot(x, Bits.Pow2(k) - 1) % Bits.Pow2(k) == 0
  {
    if k == 0 {
      assert Bits.Pow2(0) == 1;
    } else if x == 0 {
      assert Bits.AndNot(0, Bits.Pow2(k) - 1) == 0;
    } else {
      hide Bits.AndNot, Bits.Pow2;
      AndNotLow(x / 2, k - 1);
      Bits.Pow2Double(k - 1);
      OddMask(x, Bits.Pow2(k - 1));
      DoubleMultiple(Bits.AndNot(x / 2, Bits.Pow2(k - 1) - 1), Bits.Pow2(k - 1));
    }
  }

  lemma OddMask(x: nat, p: nat)
    requires p > 0 && x > 0
    ensures Bits.AndNot(x, 2 * p - 1) == 2 * Bits.AndNot(x / 2, p - 1)
  {
    assert (2 * p - 1) / 2 == p - 1 && (2 * p - 1) % 2 == 1;
  }

  lemma DoubleMultiple(y: nat, p: nat)
    requires p > 0 && y % p == 0
    ensures (2 * y) % (2 * p) == 0
  {
    var q := y / p;
    assert y == q * p && 2 * y == q * (2 * p);
    Alignment.ModAdd(q, 2 * p, 0);
  }

  // Unless the sum wraps, the result is at most align - 1 above the value, for every alignment; it is
  // a multiple of the alignment when that is a power of two. If the sum wraps, it is below the value.
  lemma RoundUpBounds(x: nat, align: nat)
    requires 0 < align < SIZE_T && x < SIZE_T
    ensures x + align - 1 < SIZE_T ==> x <= RoundUp(x, align) < x + align
    ensures x + align - 1 >= SIZE_T ==> RoundUp(x, align) < x
    ensures RoundUp(x, align) < SIZE_T
  {
    AndNotBounds((x + align - 1) % SIZE_T, align - 1);
    hide Bits.AndNot;
    if x + align - 1 >= SIZE_T {
      assert (x + align - 1) % SIZE_T == x + align - 1 - SIZE_T;
    } else {
      assert (x + align - 1) % SIZE_T == x + align - 1;
    }
  }

  lemma Small(x: nat)
    requires x < SIZE_T
    ensures x % SIZE_T == x
  {
  }

  lemma RoundUpMultiple(x: nat, k: nat)
    ensures RoundUp(x, Bits.Pow2(k)) % Bits.Pow2(k) == 0
  {
    AndNotLow((x + Bits.Pow2(k) - 1) % SIZE_T, k);
  }

  // ---- aligned requests ----

  // The distance from one address up to another, around the end of the address space if need be.
  function Ahead(from: nat, to: nat): (r: nat)
    ensures r < SIZE_T
  {
    (to - from) % SIZE_T
  }

  // A bound on the steps of the search below: small alignments climb, huge ones wrap and descend.
  function StepsLeft(gap: nat, align: nat): nat {
    if gap >= DESC_SIZE then 0 else if align < DESC_SIZE then DESC_SIZE - gap else gap + 1
  }

  // The search for a buffer with room for the descriptor before it; `gap` is its distance from the
  // start of the raw memory.
  function SkipDesc(gap: nat, align: nat): (r: nat)
    requires 0 < align < SIZE_T && gap < SIZE_T
    ensures DESC_SIZE <= r < SIZE_T && (gap >= DESC_SIZE ==> r == gap)
    ensures gap + align + DESC_SIZE <= SIZE_T ==> gap <= r && (r == gap || r < DESC_SIZE + align)
    decreases StepsLeft(gap, align)
  {
    if gap < DESC_SIZE then SkipDesc((gap + align) % SIZE_T, align) else gap
  }

  lemma SkipStep(gap: nat, align: nat)
    requires 0 < align < SIZE_T && gap < SIZE_T
    ensures gap >= DESC_SIZE ==> SkipDesc(gap, align) == gap
    ensures gap < DESC_SIZE ==> SkipDesc(gap, align) == SkipDesc((gap + align) % SIZE_T, align)
    ensures gap < DESC_SIZE ==> StepsLeft((gap + align) % SIZE_T, align) < StepsLeft(gap, align)
  {
    AroundOnce(gap, align);
  }

  lemma AroundOnce(gap: nat, align: nat)
    requires gap < SIZE_T && align < SIZE_T
    ensures (gap + align) % SIZE_T == if gap + align < SIZE_T then gap + align else gap + align - SIZE_T
  {
  }

  lemma StepAround(from: nat, to: nat, step: nat)
    requires from < SIZE_T && to < SIZE_T && step < SIZE_T
    ensures Ahead(from, (to + step) % SIZE_T) == (Ahead(from, to) + step) % SIZE_T
  {
    AroundOnce(to, step);
    AheadIs(from, (to + step) % SIZE_T);
    AheadIs(from, to);
    AroundOnce(Ahead(from, to), step);
    hide Ahead;
  }

  lemma BackAround(from: nat, to: nat)
    requires from < SIZE_T && to < SIZE_T
    ensures to == (from + Ahead(from, to)) % SIZE_T
  {
    AheadIs(from, to);
  }

  lemma AheadIs(from: nat, to: nat)
    requires from < SIZE_T && to < SIZE_T
    ensures Ahead(from, to) == if to >= from then to - from else to - from + SIZE_T
  {
  }

  // How far above the raw memory an aligned buffer starts.
  function AlignedOffset(data: nat, align: nat): (r: nat)
    requires 0 < align < SIZE_T
    ensures DESC_SIZE <= r < SIZE_T
  {
    SkipDesc(Ahead(data, RoundUp(data, align)), align)
  }

  // What mem_aligned_allocate asks the platform for.
  function RawSize(align: nat, size: nat): nat
    requires align > 0
  {
    RoundUp((RoundUp(size, align) + (align * 2 + OVERHEAD) % SIZE_T) % SIZE_T, align)
  }

  // Descriptor, aligned buffer and footer lie inside the raw memory.
  predicate FitsAt(data: nat, align: nat, size: nat)
    requires 0 < align < SIZE_T
  {
    AlignedOffset(data, align) + RoundUp(size, align) + HEAD_SIZE <= RawSize(align, size)
  }

  // No sum of an aligned request wraps around.
  predicate NoWrap(align: nat, size: nat)
    requires align > 0
  {
    size + align - 1 < SIZE_T && RoundUp(size, align) + 3 * align + OVERHEAD - 1 < SIZE_T
  }

  // A place the platform can hand out for an aligned request.
  predicate Grantable(data: nat, align: nat, size: nat)
    requires align > 0
  {
    0 < data && data + RawSize(align, size) <= SIZE_T
  }

  lemma OffsetBounds(data: nat, align: nat)
    requires 0 < align && data + align - 1 < SIZE_T && 2 * align + DESC_SIZE <= SIZE_T
    ensures DESC_SIZE <= AlignedOffset(data, align) < DESC_SIZE + align
  {
    RoundUpBounds(data, align);
    var gap := RoundUp(data, align) - data;
    hide RoundUp;
    assert gap % SIZE_T == gap;
  }

  // Without a wrap everything fits, wherever the raw memory lies, for every alignment.
  lemma AlignedFits(data: nat, align: nat, size: nat)
    requires 0 < align < SIZE_T && NoWrap(align, size) && Grantable(data, align, size)
    ensures size <= RoundUp(size, align) < size + align && FitsAt(data, align, size)
    ensures AlignedOffset(data, align) < DESC_SIZE + align
    ensures RoundUp(size, align) + 2 * align + 88 <= RawSize(align, size) < RoundUp(size, align) + 3 * align + 88
  {
    RoundUpBounds(size, align);
    var rs := RoundUp(size, align);
    var x := rs + align * 2 + OVERHEAD;
    Small(align * 2 + OVERHEAD);
    Small(x);
    RoundUpBounds(x, align);
    assert RawSize(align, size) == RoundUp(x, align);
    hide RoundUp, RawSize, AlignedOffset;
    OffsetBounds(data, align);
  }

  // With a wrap the buffer is smaller than the request, or nothing of the room is left for it.
  lemma WrappedMisses(data: nat, align: nat, size: nat)
    requires 8 <= align && 3 * align <= SIZE_T && 0 < size < SIZE_T && !NoWrap(align, size)
    ensures RoundUp(size, align) < size || !FitsAt(data, align, size)
  {
    RoundUpBounds(size, align);
    var rs := RoundUp(size, align);
    if size + align - 1 < SIZE_T {
      var x := rs + align * 2 + OVERHEAD;
      ModTwice(rs, align * 2 + OVERHEAD, align - 1);
      var y := (x + align - 1) % SIZE_T;
      AndNotBounds(y, align - 1);
      WrapsDown(x + align - 1);
      assert RawSize(align, size) == Bits.AndNot(y, align - 1) <= y;
      hide RoundUp, RawSize, AlignedOffset, Bits.AndNot;
    }
  }

  lemma WrapsDown(y: nat)
    requires SIZE_T <= y < 3 * SIZE_T
    ensures y % SIZE_T == (if y < 2 * SIZE_T then y - SIZE_T else y - 2 * SIZE_T)
  {
  }

  lemma ModTwice(a: nat, b: nat, c: nat)
    ensures ((a + b % SIZE_T) % SIZE_T + c) % SIZE_T == (a + b + c) % SIZE_T
  {
  }

  // For 2^63 the rounded sum is 2^64 and nothing is asked for, unless rounding the size wrapped.
  lemma TopAlignment(size: nat)
    requires 0 < size <= 0x8000_0000_0000_0000
    ensures RawSize(0x8000_0000_0000_0000, size) == 0
  {
    var a := 0x8000_0000_0000_0000;
    TopRounded(size);
    TopRest();
    hide RoundUp;
    assert (a * 2 + OVERHEAD) % SIZE_T == OVERHEAD;
    Small(a + OVERHEAD);
  }

  lemma TopRounded(size: nat)
    requires 0 < size <= 0x8000_0000_0000_0000
    ensures RoundUp(size, 0x8000_0000_0000_0000) == 0x8000_0000_0000_0000
  {
    var a := 0x8000_0000_0000_0000;
    TopPower();
    RoundUpBounds(size, a);
    RoundUpMultiple(size, 63);
    hide RoundUp, Bits.Pow2;
    OnlyMultiple(RoundUp(size, a), a);
  }

  lemma TopRest()
    ensures RoundUp(0x8000_0000_0000_0000 + OVERHEAD, 0x8000_0000_0000_0000) == 0
  {
    var a := 0x8000_0000_0000_0000;
    var y := (a + OVERHEAD + a - 1) % SIZE_T;
    assert y == OVERHEAD - 1;
    TopPower();
    AndNotBounds(y, a - 1);
    AndNotLow(y, 63);
    hide Bits.AndNot, Bits.Pow2;
    var z := Bits.AndNot(y, a - 1);
    assert z % a == 0 && z < a;
  }

  lemma TopPower()
    ensures Bits.Pow2(63) == 0x8000_0000_0000_0000
  {
    Bits.PowersOfTwo();
    Bits.Pow2Add(32, 31);
    assert Bits.Pow2(32) == 2 * Bits.Pow2(31);
  }

  // An aligned request that asks for anything is served soundly, wherever the platform puts it,
  // exactly when no sum wraps: for all powers of two, and all other alignments up to a third of 2^64.
  lemma AlignedExact(align: nat, size: nat)
    requires 0 < size < SIZE_T && 8 <= align
    requires 3 * align <= SIZE_T || align == 0x8000_0000_0000_0000
    requires RawSize(align, size) != 0
    ensures (size <= RoundUp(size, align) && forall data :: Grantable(data, align, size) ==> FitsAt(data, align, size))
      <==> NoWrap(align, size)
  {
    RoundUpBounds(size, align);
    if NoWrap(align, size) {
      forall data | Grantable(data, align, size)
        ensures FitsAt(data, align, size)
      {
        AlignedFits(data, align, size);
      }
    } else if 3 * align <= SIZE_T {
      WrappedMisses(1, align, size);
      RawBounded(align, size);
      assert Grantable(1, align, size);
    } else if size <= align {
      TopAlignment(size);
      assert false;
    }
  }

  lemma RawBounded(align: nat, size: nat)
    requires 0 < align < SIZE_T
    ensures RawSize(align, size) < SIZE_T
  {
    RoundUpBounds((RoundUp(size, align) + (align * 2 + OVERHEAD) % SIZE_T) % SIZE_T, align);
  }

  // ---- aligned buffers ----

  lemma {:induction false} SkipAligned(base: nat, gap: nat, align: nat)
    requires 0 < align < SIZE_T && gap < SIZE_T && (base + gap) % align == 0
    requires gap + align + DESC_SIZE <= SIZE_T
    ensures (base + SkipDesc(gap, align)) % align == 0
    decreases DESC_SIZE - gap
  {
    SkipStep(gap, align);
    if gap < DESC_SIZE {
      Small(gap + align);
      Alignment.AddModulus(base + gap, align);
      SkipStep(gap + align, align);
      hide SkipDesc;
      assert base + (gap + align) == (base + gap) + align;
      if gap + align < DESC_SIZE {
        SkipAligned(base, gap + align, align);
      }
    }
  }

  // An aligned buffer is aligned when the alignment is a power of two.
  lemma BufferAligned(data: nat, k: nat, align: nat)
    requires k <= 62 && align == Bits.Pow2(k) < SIZE_T && data + align - 1 < SIZE_T
    ensures (data + AlignedOffset(data, align)) % align == 0
  {
    PowerBelow(k);
    RoundUpBounds(data, align);
    RoundUpMultiple(data, k);
    hide RoundUp, SkipDesc, Bits.Pow2;
    var up := RoundUp(data, align);
    AheadIs(data, up);
    hide Ahead;
    assert data + Ahead(data, up) == up;
    SkipAligned(data, Ahead(data, up), align);
  }

  lemma PowerBelow(k: nat)
    requires k <= 63
    ensures Bits.Pow2(k) <= 0x8000_0000_0000_0000
    ensures k <= 62 ==> Bits.Pow2(k) <= 0x4000_0000_0000_0000
  {
    TopPower();
    Bits.Pow2Double(62);
    Bits.Pow2Mono(k, 63);
    if k <= 62 {
      Bits.Pow2Mono(k, 62);
    }
  }

  // ---- the 16-bit fields ----

  // A power of two stored in 16 bits is kept, with every offset it can lead to, exactly below 2^16;
  // from there on the stored alignment is 0, whatever the offset.
  lemma AlignmentStored(k: nat, align: nat)
    requires 3 <= k <= 63 && align == Bits.Pow2(k) < SIZE_T
    ensures align % UINT16 != 0 <==> align + DESC_SIZE <= UINT16
    ensures (forall data :: 0 < data && data + align - 1 < SIZE_T ==> AlignedOffset(data, align) < UINT16)
      <==> align + DESC_SIZE <= UINT16
  {
    SixteenBits(k);
    PowerBelow(k);
    hide Bits.Pow2, AlignedOffset;
    if align + DESC_SIZE <= UINT16 {
      forall data | 0 < data && data + align - 1 < SIZE_T
        ensures AlignedOffset(data, align) < UINT16
      {
        OffsetBounds(data, align);
      }
    } else {
      FarOffset(k, align);
      assert !(AlignedOffset(align - 72, align) < UINT16);
    }
  }

  // A buffer that lies above its raw memory was found without a wrap.
  lemma BelowTop(data: nat, align: nat)
    requires 0 < align <= UINT16 && data + AlignedOffset(data, align) < SIZE_T
    ensures data + align - 1 < SIZE_T
  {
    RoundUpBounds(data, align);
    AheadIs(data, RoundUp(data, align));
    hide RoundUp, SkipDesc, Ahead;
  }

  lemma {:induction false} SixteenBits(k: nat)
    requires 3 <= k
    ensures k < 16 ==> Bits.Pow2(k) <= 0x8000
    ensures k >= 16 ==> Bits.Pow2(k) >= UINT16 && Bits.Pow2(k) % UINT16 == 0
    ensures Bits.Pow2(k) >= 8
  {
    Bits.PowersOfTwo();
    Bits.Pow2Add(8, 8);
    Bits.Pow2Mono(3, k);
    if k < 16 {
      Bits.Pow2Mono(k, 15);
      Bits.Pow2Double(15);
    } else {
      Bits.Pow2Mono(16, k);
      Bits.Pow2Add(k - 16, 16);
      Alignment.ModAdd(Bits.Pow2(k - 16), UINT16, 0);
    }
  }

  // Raw memory a little below a multiple of the alignment: 72 bytes leave no room for the descriptor,
  // 80 just enough.
  lemma FarOffset(k: nat, align: nat)
    requires 7 <= k <= 63 && align == Bits.Pow2(k) < SIZE_T
    ensures align > DESC_SIZE
    ensures AlignedOffset(align - 72, align) == align + 72
    ensures AlignedOffset(align - DESC_SIZE, align) == DESC_SIZE
  {
    Bits.PowersOfTwo();
    Bits.Pow2Mono(7, k);
    Bits.Pow2Double(7);
    PowerBelow(k);
    JustBelow(k, align, 72);
    JustBelow(k, align, DESC_SIZE);
    hide RoundUp, Bits.Pow2, SkipDesc;
    AheadIs(align - 72, align);
    AheadIs(align - DESC_SIZE, align);
    hide Ahead;
    OneSkip(72, align);
    SkipStep(DESC_SIZE, align);
  }

  lemma OneSkip(gap: nat, align: nat)
    requires gap < DESC_SIZE < align && gap + align < SIZE_T
    ensures SkipDesc(gap, align) == gap + align
  {
    hide SkipDesc;
    SkipStep(gap, align);
    AroundOnce(gap, align);
    SkipStep(gap + align, align);
  }

  lemma JustBelow(k: nat, align: nat, gap: nat)
    requires align == Bits.Pow2(k) <= 0x8000_0000_0000_0000 && gap < align
    ensures RoundUp(align - gap, align) == align
  {
    RoundUpBounds(align - gap, align);
    RoundUpMultiple(align - gap, k);
    OnlyMultiple(RoundUp(align - gap, align), align);
  }

  lemma OnlyMultiple(x: nat, align: nat)
    requires 0 < align && x % align == 0 && 0 < x < 2 * align
    ensures x == align
  {
    var q := x / align;
    assert x == q * align;
    if q >= 2 {
      SizeClass.MulMono(2, q, align);
    }
  }

  // Alignment 2^16: over raw memory at 65456 the offset is 80 but the stored alignment is 0; over raw
  // memory at 65464 the offset itself is cut off.
  lemma LostAlignment()
    ensures AlignedOffset(65456, UINT16) == DESC_SIZE && UINT16 % UINT16 == 0
    ensures AlignedOffset(65464, UINT16) == UINT16 + 72 && (UINT16 + 72) % UINT16 == 72
  {
    Bits.PowersOfTwo();
    Bits.Pow2Add(8, 8);
    hide Bits.Pow2, AlignedOffset;
    FarOffset(16, UINT16);
  }
}
