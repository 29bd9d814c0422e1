// The arithmetic of request adjustment and of the alignment gap of tlsf_memalign.
module Alignment {
  import opened Bits
  import opened SizeClass

  // The alignments for which memalign's size computation cannot wrap around.
  ghost predicate UsableAlign(align: nat) {
    exists k: nat :: k <= 62 && align == Pow2(k)
  }

  predicate Multiple(x: nat, align: nat)
    requires align > 0
  {
    x % align == 0
  }

  // The one power of two beyond.
  const TOP_ALIGN := 0x8000_0000_0000_0000

  lemma TopPower()
    ensures Pow2(63) == TOP_ALIGN
  {
    PowersOfTwo();
    Pow2Add(32, 31);
    assert Pow2(32) == 2 * Pow2(31);
  }

  lemma TopAlignUp(x: nat)
    requires x < SIZE_T
    ensures AlignUp(x, TOP_ALIGN) == if 0 < x <= TOP_ALIGN then TOP_ALIGN else 0
  {
    var y := x + (TOP_ALIGN - 1);
    if x <= TOP_ALIGN {
      assert y % SIZE_T == y;
    } else {
      assert y % SIZE_T == y - SIZE_T;
    }
  }

  lemma {:induction false} ModAdd(q: nat, align: nat, r: nat)
    requires r < align
    ensures (q * align + r) % align == r
  {
    if q > 0 {
      ModAdd(q - 1, align, r);
      var x := (q - 1) * align + r;
      assert q * align + r == x + align;
      AddModulus(x, align);
    }
  }

  lemma AddModulus(x: nat, align: nat)
    requires align > 0
    ensures (x + align) % align == x % align
  {
    var q, r := x / align, x % align;
    assert x == q * align + r;
    assert x + align == (q + 1) * align + r;
    QuotientUnique(x + align, align, q + 1, r);
  }

  lemma QuotientUnique(x: nat, d: nat, q: nat, r: nat)
    requires d > 0 && r < d && x == q * d + r
    ensures x / d == q && x % d == r
  {
    var p, s := x / d, x % d;
    assert x == p * d + s && s < d;
    SameQuotient(p, s, q, r, d);
  }

  lemma SameQuotient(p: nat, s: nat, q: nat, r: nat, d: nat)
    requires r < d && s < d && p * d + s == q * d + r
    ensures p == q && s == r
  {
    if p < q {
      MulMono(p + 1, q, d);
    } else if p > q {
      MulMono(q + 1, p, d);
    }
  }

  // AlignUp is the least multiple of align at or above x, unless the sum wraps.
  lemma AlignUpBounds(x: nat, align: nat)
    requires align > 0 && x + align - 1 < SIZE_T
    ensures x <= AlignUp(x, align) < x + align
    ensures AlignUp(x, align) % align == 0
  {
    var y := x + (align - 1);
    assert y % SIZE_T == y;
    var q := y / align;
    assert y - y % align == q * align;
    ModAdd(q, align, 0);
  }

  lemma {:induction false} PowerMultipleOf8(k: nat)
    requires k >= 3
    ensures Pow2(k) % 8 == 0
  {
    if k > 3 {
      PowerMultipleOf8(k - 1);
    } else {
      PowersOfTwo();
    }
  }

  lemma MultipleOfMultiple(x: nat, align: nat)
    requires align > 0 && align % 8 == 0 && x % align == 0
    ensures x % 8 == 0
  {
    var q, c := x / align, align / 8;
    assert x == q * align == q * (8 * c) == 8 * (q * c);
  }

  // adjust_request_size for the base alignment: a multiple of 8 in range, or 0.
  // It covers the request unless rounding up wrapped around, and then it does not.
  lemma AdjustBounds(size: nat)
    requires size < SIZE_T
    ensures var a := AdjustRequestSize(size, ALIGN_SIZE);
      && a % ALIGN_SIZE == 0
      && (a == 0 || BLOCK_SIZE_MIN <= a < BLOCK_SIZE_MAX)
      && (a == 0 <==> size == 0 || BLOCK_SIZE_MAX - 8 < size <= SIZE_T - 8)
      && (a != 0 ==> (size <= a <==> size <= SIZE_T - 8))
      && (a > BLOCK_SIZE_MIN ==> a < size + 8)
  {
  }

  // The distance tlsf_memalign leaves in front of the aligned pointer.
  function Gap(ptr: nat, align: nat): nat
    requires align > 0
  {
    var aligned := AlignUp(ptr, align);
    var gap := (aligned - ptr) % SIZE_T;
    if gap != 0 && gap < HEADER_SIZE then
      var gapRemain := HEADER_SIZE - gap;
      var offset := if gapRemain > align then gapRemain else align;
      (AlignUp((aligned + offset) % SIZE_T, align) - ptr) % SIZE_T
    else
      gap
  }

  lemma SmallMod(x: nat)
    requires x < SIZE_T
    ensures x % SIZE_T == x
  {
  }

  // Alignments up to the base alignment leave no gap.
  lemma GapSmall(ptr: nat, align: nat)
    requires align > 0 && align <= ALIGN_SIZE && IsPow2(align)
    requires ptr % ALIGN_SIZE == 0 && ptr + ALIGN_SIZE <= SIZE_T
    ensures Gap(ptr, align) == 0 && ptr % align == 0
  {
    hide AlignUp, Pow2;
    var k: nat :| align == Pow2(k);
    SmallPowers(k);
    AlignUpBounds(ptr, align);
    SmallDivides(ptr, AlignUp(ptr, align), align);
  }

  lemma SmallPowers(k: nat)
    requires Pow2(k) <= 8
    ensures Pow2(k) == 1 || Pow2(k) == 2 || Pow2(k) == 4 || Pow2(k) == 8
  {
    PowersOfTwo();
    if k > 3 {
      Pow2Mono(4, k);
    }
  }

  lemma SmallDivides(ptr: nat, aligned: nat, align: nat)
    requires align == 1 || align == 2 || align == 4 || align == 8
    requires ptr % 8 == 0 && ptr <= aligned < ptr + align && aligned % align == 0
    ensures aligned == ptr && ptr % align == 0
  {
    var q, k := ptr / 8, aligned / align;
    assert ptr == 8 * q;
    if align == 1 {
    } else if align == 2 {
      assert aligned == 2 * k;
      assert k == 4 * q;
    } else if align == 4 {
      assert aligned == 4 * k;
      assert k == 2 * q;
    } else {
      assert aligned == 8 * k;
      assert k == q;
    }
  }

  // The next multiple after a multiple, at least `offset` further.
  lemma AlignAgain(aligned: nat, align: nat, offset: nat)
    requires align > 0 && aligned % align == 0 && align <= offset
    requires aligned + offset + align - 1 < SIZE_T
    ensures var next := AlignUp(aligned + offset, align);
      && next % align == 0 && aligned + offset <= next
      && (offset == align ==> next == aligned + align)
      && next < aligned + offset + align
  {
    AlignUpBounds(aligned + offset, align);
    if offset == align {
      AddModulus(aligned, align);
      var q := aligned / align;
      assert aligned == q * align;
      assert aligned + align + (align - 1) == (q + 1) * align + (align - 1);
      ModAdd(q + 1, align, align - 1);
    }
  }

  // The address space is a multiple of every usable alignment, so one more multiple
  // always fits below its end.
  lemma BelowWordEnd(x: nat, align: nat)
    requires UsableAlign(align) && x % align == 0 && x < SIZE_T
    ensures x + align <= SIZE_T
  {
    hide Pow2;
    var k: nat :| k <= 62 && align == Pow2(k);
    PowersOfTwo();
    Pow2Add(32, 32);
    Pow2Add(k, 64 - k);
    var q, c := x / align, Pow2(64 - k);
    assert SIZE_T == align * c;
    if c <= q {
      MulMono(c, q, align);
    }
    MulMono(q + 1, c, align);
  }

  // The gap, once no sum wraps around.
  lemma GapValue(ptr: nat, align: nat)
    requires UsableAlign(align) && align > ALIGN_SIZE
    requires ptr % 8 == 0 && ptr + align + 56 <= SIZE_T
    ensures var aligned := AlignUp(ptr, align);
      && ptr <= aligned < ptr + align && aligned % align == 0
      && var gap := aligned - ptr;
      if gap != 0 && gap < HEADER_SIZE then
        var offset := if HEADER_SIZE - gap > align then HEADER_SIZE - gap else align;
        var next := AlignUp(aligned + offset, align);
        && Gap(ptr, align) == next - ptr && next % align == 0
        && aligned + offset <= next < aligned + offset + align
        && (offset == align ==> next == aligned + align)
      else
        Gap(ptr, align) == gap
  {
    hide AlignUp, Pow2, UsableAlign, Gap;
    AlignBig(align);
    AlignUpBounds(ptr, align);
    var aligned := AlignUp(ptr, align);
    var gap := aligned - ptr;
    if gap != 0 && gap < HEADER_SIZE {
      var offset := if HEADER_SIZE - gap > align then HEADER_SIZE - gap else align;
      if offset == align {
        AddModulus(aligned, align);
        BelowWordEnd(aligned + align, align);
      }
      AlignAgain(aligned, align, offset);
    }
    GapUnfold(ptr, align);
  }

  // Without a wrap, the gap is the distance of the second aligned address where the first is too near.
  lemma GapUnfold(ptr: nat, align: nat)
    requires align > 0 && ptr <= AlignUp(ptr, align) < SIZE_T
    requires var gap := AlignUp(ptr, align) - ptr;
      gap != 0 && gap < HEADER_SIZE ==>
        var to := AlignUp(ptr, align) + if HEADER_SIZE - gap > align then HEADER_SIZE - gap else align;
        to < SIZE_T && ptr <= AlignUp(to, align) < SIZE_T
    ensures var gap := AlignUp(ptr, align) - ptr;
      Gap(ptr, align) ==
        if gap != 0 && gap < HEADER_SIZE then
          AlignUp(AlignUp(ptr, align) + (if HEADER_SIZE - gap > align then HEADER_SIZE - gap else align), align) - ptr
        else gap
  {
    hide AlignUp;
    var gap := AlignUp(ptr, align) - ptr;
    SmallMod(gap);
    if gap != 0 && gap < HEADER_SIZE {
      var to := AlignUp(ptr, align) + if HEADER_SIZE - gap > align then HEADER_SIZE - gap else align;
      SmallMod(to);
      SmallMod(AlignUp(to, align) - ptr);
    }
  }

  lemma OneMultiple(x: nat, y: nat, align: nat)
    requires align > 0 && x % align == 0 && y % align == 0 && x <= y < x + align
    ensures x == y
  {
    var p := x / align;
    assert x == p * align;
    QuotientUnique(y, align, p, y - x);
  }

  // A gap is nothing, when the address is aligned, or at least a block and at most a block longer than align.
  lemma GapShape(ptr: nat, align: nat)
    requires UsableAlign(align) && align > ALIGN_SIZE
    requires ptr % 8 == 0 && ptr + align + 56 <= SIZE_T
    ensures var g := Gap(ptr, align);
      (ptr + g) % align == 0 && (if ptr % align == 0 then g == 0 else 32 <= g <= align + 24)
  {
    hide AlignUp, Gap, Pow2;
    AlignBig(align);
    GapValue(ptr, align);
    var aligned := AlignUp(ptr, align);
    if ptr % align == 0 {
      OneMultiple(ptr, aligned, align);
      return;
    }
    MultipleOfMultiple(aligned, align);
    var gap := aligned - ptr;
    if gap != 0 && gap < HEADER_SIZE && HEADER_SIZE - gap > align {
      SmallStep(ptr, aligned, AlignUp(aligned + (HEADER_SIZE - gap), align));
    } else if gap != 0 {
      SmallGap(ptr, aligned);
    }
  }

  // What is 8-aligned behind an 8-aligned address is a multiple of 8.
  lemma GapOf8(ptr: nat, g: nat)
    requires ptr % 8 == 0 && (ptr + g) % 8 == 0
    ensures g % 8 == 0
  {
  }

  // The analysis behind memalign's over-allocation: whatever the pointer, the gap is
  // either nothing or a whole block, and behind it the request still fits.
  lemma GapFits(ptr: nat, align: nat, adjust: nat, size: nat)
    requires UsableAlign(align) && align > ALIGN_SIZE
    requires ptr % 8 == 0 && adjust % 8 == 0 && BLOCK_SIZE_MIN <= adjust < BLOCK_SIZE_MAX
    requires var room := AdjustRequestSize(adjust + align + HEADER_SIZE, align);
      room != 0 && size >= room && ptr + size <= SIZE_T
    ensures var g := Gap(ptr, align);
      && g % 8 == 0 && (ptr + g) % align == 0
      && (g == 0 || (g >= HEADER_SIZE && g + HEADER_SIZE <= size))
      && g + adjust <= size
  {
    hide AlignUp, AdjustRequestSize, Pow2, Gap, UsableAlign;
    RoomIsEnough(align, adjust);
    GapShape(ptr, align);
    AlignedGap(ptr, Gap(ptr, align), align);
  }

  lemma AlignedGap(ptr: nat, g: nat, align: nat)
    requires UsableAlign(align) && align > ALIGN_SIZE && ptr % 8 == 0 && (ptr + g) % align == 0
    ensures g % 8 == 0
  {
    hide Pow2, UsableAlign;
    AlignBig(align);
    MultipleOfMultiple(ptr + g, align);
    GapOf8(ptr, g);
  }

  lemma SmallGap(ptr: nat, aligned: nat)
    requires ptr % 8 == 0 && aligned % 8 == 0 && ptr < aligned
    ensures aligned - ptr >= 8 && (aligned - ptr < 32 ==> aligned - ptr <= 24)
  {
  }

  lemma SmallStep(ptr: nat, aligned: nat, next: nat)
    requires ptr % 8 == 0 && aligned % 16 == 0 && ptr < aligned < ptr + 16
    requires next % 16 == 0 && aligned + (32 - (aligned - ptr)) <= next < aligned + (32 - (aligned - ptr)) + 16
    ensures next == ptr + 40
  {
    var q, a, b := ptr / 8, aligned / 16, next / 16;
    assert ptr == 8 * q && aligned == 16 * a && next == 16 * b;
    assert q + 1 == 2 * a;
    assert b == a + 2;
  }

  lemma AlignBig(align: nat)
    requires UsableAlign(align) && align > ALIGN_SIZE
    ensures align % 8 == 0 && 16 <= align && (align < 32 ==> align == 16)
    ensures align <= 0x4000_0000_0000_0000
  {
    var k: nat :| k <= 62 && align == Pow2(k);
    PowersOfTwo();
    if k <= 3 {
      Pow2Mono(k, 3);
    }
    PowerMultipleOf8(k);
    if k >= 5 {
      Pow2Mono(5, k);
    }
    Pow2Mono(k, 62);
    Pow2Add(32, 30);
    assert Pow2(32) == 4 * Pow2(30);
  }

  lemma RoomIsEnough(align: nat, adjust: nat)
    requires UsableAlign(align) && align > ALIGN_SIZE && BLOCK_SIZE_MIN <= adjust < BLOCK_SIZE_MAX
    requires AdjustRequestSize(adjust + align + HEADER_SIZE, align) != 0
    ensures AdjustRequestSize(adjust + align + HEADER_SIZE, align) >= adjust + align + HEADER_SIZE
  {
    hide AlignUp, Pow2;
    AlignBig(align);
    AlignUpBounds(adjust + align + HEADER_SIZE, align);
  }

  // The size tlsf_memalign looks for.
  function MemalignNeed(align: nat, size: nat): nat
    requires align > 0
  {
    var adjust := AdjustRequestSize(size, ALIGN_SIZE);
    var sizeWithGap := AdjustRequestSize((adjust + align + HEADER_SIZE) % SIZE_T, align);
    if adjust != 0 && align > ALIGN_SIZE then sizeWithGap else adjust
  }

  // What is asked for is 0, or at least a block, for 2^63 too.
  lemma NeedSizes(align: nat, size: nat)
    requires (UsableAlign(align) || align == TOP_ALIGN) && align > 0 && size < SIZE_T
    ensures MemalignNeed(align, size) % ALIGN_SIZE == 0
    ensures AdjustRequestSize(size, ALIGN_SIZE) == 0 ==> MemalignNeed(align, size) == 0
  {
    hide AlignUp, Pow2, UsableAlign;
    if align == TOP_ALIGN {
      TopNeed(size);
    } else {
      NeedBounds(align, size);
    }
  }

  lemma NeedBounds(align: nat, size: nat)
    requires UsableAlign(align) && align > 0 && size < SIZE_T
    ensures MemalignNeed(align, size) % ALIGN_SIZE == 0
    ensures AdjustRequestSize(size, ALIGN_SIZE) == 0 ==> MemalignNeed(align, size) == 0
    ensures AdjustRequestSize(size, ALIGN_SIZE) % ALIGN_SIZE == 0
    ensures AdjustRequestSize(size, ALIGN_SIZE) != 0 ==>
      BLOCK_SIZE_MIN <= AdjustRequestSize(size, ALIGN_SIZE) < BLOCK_SIZE_MAX
  {
    hide AlignUp, Pow2, UsableAlign;
    AdjustBounds(size);
    var adjust := AdjustRequestSize(size, ALIGN_SIZE);
    if adjust != 0 && align > ALIGN_SIZE {
      AlignBig(align);
      SmallMod(adjust + align + HEADER_SIZE);
      AlignUpBounds(adjust + align + HEADER_SIZE, align);
      MultipleOfMultiple(AlignUp(adjust + align + HEADER_SIZE, align), align);
    }
  }

  // It is the rounded request up to the base alignment, and not much more than request and alignment together
  // for larger ones; it is 0 only for nothing and for more than the allocator hands out.
  lemma NeedFromAbove(align: nat, size: nat)
    requires (UsableAlign(align) || align == TOP_ALIGN) && align > 0 && size < SIZE_T
    ensures var adjust, need := AdjustRequestSize(size, ALIGN_SIZE), MemalignNeed(align, size);
      && (align <= 8 ==> need == adjust)
      && (align > 8 && adjust != 0 ==> need < adjust + 2 * align + 32)
      && (need == 0 ==> adjust == 0 || adjust + 2 * align + 32 > 0x1_0000_0000)
  {
    hide AlignUp, Pow2, UsableAlign;
    var adjust := AdjustRequestSize(size, ALIGN_SIZE);
    AdjustBounds(size);
    if align == TOP_ALIGN {
      TopNeed(size);
    } else if adjust != 0 && align > ALIGN_SIZE {
      AlignBig(align);
      SmallMod(adjust + align + HEADER_SIZE);
      AlignUpBounds(adjust + align + HEADER_SIZE, align);
    }
  }

  // Known requests and what they are rounded to: at least 24, a multiple of 8, below 2^32 or refused.
  lemma AdjustKnown()
    ensures AdjustRequestSize(0, 8) == 0 && AdjustRequestSize(1, 8) == 24 && AdjustRequestSize(24, 8) == 24
    ensures AdjustRequestSize(25, 8) == 32 && AdjustRequestSize(0xFFFF_FFF8, 8) == 0xFFFF_FFF8
    ensures AdjustRequestSize(0xFFFF_FFF9, 8) == 0
  {
    assert AlignUp(1, 8) == 8 && AlignUp(24, 8) == 24 && AlignUp(25, 8) == 32;
    assert AlignUp(0xFFFF_FFF8, 8) == 0xFFFF_FFF8 && AlignUp(0xFFFF_FFF9, 8) == 0x1_0000_0000;
  }

  // For 2^63 the sum wraps around, so that the smallest block is looked for ...
  lemma TopNeed(size: nat)
    requires size < SIZE_T
    ensures var adjust := AdjustRequestSize(size, ALIGN_SIZE);
      MemalignNeed(TOP_ALIGN, size) == if adjust == 0 then 0 else BLOCK_SIZE_MIN
  {
    hide AlignUp;
    AdjustBounds(size);
    var adjust := AdjustRequestSize(size, ALIGN_SIZE);
    SmallMod(adjust + TOP_ALIGN + HEADER_SIZE);
    TopAlignUp(adjust + TOP_ALIGN + HEADER_SIZE);
  }

  // ... and the gap leads to an aligned address, but seldom inside the block.
  lemma TopGap(ptr: nat, block: nat)
    requires 16 <= ptr && ptr % 8 == 0 && BLOCK_SIZE_MIN <= block && ptr + block <= SIZE_T
    ensures var g := Gap(ptr, TOP_ALIGN);
      g % 8 == 0 && (g == 0 || g >= HEADER_SIZE) && (ptr + g) % TOP_ALIGN == 0 && (g == 0 <==> ptr == TOP_ALIGN)
  {
    hide AlignUp;
    TopAlignUp(ptr);
    TopAlignUp(0);
    TopAlignUp(TOP_ALIGN);
    if ptr <= TOP_ALIGN {
      assert (TOP_ALIGN - ptr) % SIZE_T == TOP_ALIGN - ptr;
    } else {
      assert (0 - ptr) % SIZE_T == SIZE_T - ptr;
    }
    assert (TOP_ALIGN + TOP_ALIGN) % SIZE_T == 0;
  }

  // What memalign leaves in front of the pointer in a block of this size: the gap, if it can be split off.
  function Lead(ptr: nat, align: nat, block: nat): nat
    requires align > 0
  {
    var gap := Gap(ptr, align);
    if gap + HEADER_SIZE <= block then gap else 0
  }

  // In any block of the size looked for: the gap is nothing or a whole block; for alignments up to 2^62 it
  // fits with the request behind it.
  lemma LeadBounds(ptr: nat, align: nat, size: nat, block: nat)
    requires UsableAlign(align) || align == TOP_ALIGN
    requires align > 0 && size < SIZE_T && 16 <= ptr && ptr % 8 == 0 && ptr + block <= SIZE_T
    requires MemalignNeed(align, size) != 0 && block >= MemalignNeed(align, size)
    ensures var g, lead, adjust := Gap(ptr, align), Lead(ptr, align, block), AdjustRequestSize(size, ALIGN_SIZE);
      && g % 8 == 0 && (g == 0 || g >= HEADER_SIZE) && (lead == 0 || lead + HEADER_SIZE <= block)
      && (UsableAlign(align) ==> (ptr + lead) % align == 0 && lead + adjust <= block)
      && adjust % ALIGN_SIZE == 0 && adjust >= BLOCK_SIZE_MIN
  {
    hide AlignUp, Pow2, Gap, UsableAlign;
    AdjustBounds(size);
    if align == TOP_ALIGN {
      TopNeed(size);
      TopGap(ptr, block);
      TopUsable();
    } else {
      NeedBounds(align, size);
      NeedCovers(ptr, align, size, block);
    }
  }

  lemma TopUsable()
    ensures !UsableAlign(TOP_ALIGN)
  {
    forall k: nat | k <= 62
      ensures Pow2(k) != TOP_ALIGN
    {
      TopPower();
      Pow2Double(62);
      Pow2Mono(k, 62);
    }
  }

  // Both kinds of alignment: a block of the size looked for holds the gap and,
  // behind it, the request.
  lemma NeedCovers(ptr: nat, align: nat, size: nat, block: nat)
    requires UsableAlign(align) && align > 0 && size < SIZE_T && ptr % 8 == 0
    requires MemalignNeed(align, size) != 0 && block >= MemalignNeed(align, size) && ptr + block <= SIZE_T
    ensures var g := Gap(ptr, align);
      && g % 8 == 0 && (ptr + g) % align == 0
      && (g == 0 || (g >= HEADER_SIZE && g + HEADER_SIZE <= block))
      && g + AdjustRequestSize(size, ALIGN_SIZE) <= block
  {
    hide AlignUp, AdjustRequestSize, Pow2, Gap;
    NeedBounds(align, size);
    if align > ALIGN_SIZE {
      AlignBig(align);
      SmallMod(AdjustRequestSize(size, ALIGN_SIZE) + align + HEADER_SIZE);
      GapFits(ptr, align, AdjustRequestSize(size, ALIGN_SIZE), block);
    } else {
      AdjustBounds(size);
      GapSmall(ptr, align);
    }
  }
}
