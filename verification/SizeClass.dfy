// Size adjustment and the two-level size classes of the TLSF allocator (64-bit build).
module SizeClass {
  import opened Bits

  const ALIGN_SIZE := 8
  const SL_INDEX_COUNT_LOG2 := 5
  const SL_INDEX_COUNT := 32
  const FL_INDEX_SHIFT := 8
  const FL_INDEX_COUNT := 25
  const SMALL_BLOCK_SIZE := 256
  const HEADER_OVERHEAD := 8
  const HEADER_SIZE := 32
  const BLOCK_SIZE_MIN := 24
  const BLOCK_SIZE_MAX := 0x1_0000_0000
  const SIZE_T := 0x1_0000_0000_0000_0000  // 2 to the width of size_t

  datatype Class = Class(fl: nat, sl: nat)

  ghost predicate IsPow2(align: nat) { exists k: nat :: align == Pow2(k) }

  // (x + (align-1)) & ~(align-1) in size_t arithmetic, for a power of two.
  function AlignUp(x: nat, align: nat): nat
    requires align > 0
  {
    var y := (x + (align - 1)) % SIZE_T;
    y - y % align
  }

  // adjust_request_size: 0 rejects the request.
  function AdjustRequestSize(size: nat, align: nat): nat
    requires align > 0
  {
    if size == 0 then 0
    else
      var aligned := AlignUp(size, align);
      if aligned >= BLOCK_SIZE_MAX then 0
      else if aligned < BLOCK_SIZE_MIN then BLOCK_SIZE_MIN else aligned
  }

  // x ^ (1 << SL_INDEX_COUNT_LOG2)
  function Xor32(x: nat): nat {
    if (x / 32) % 2 == 1 then x - 32 else x + 32
  }

  function MappingInsert(size: nat): Class {
    if size < SMALL_BLOCK_SIZE then
      Class(0, size / (SMALL_BLOCK_SIZE / SL_INDEX_COUNT))
    else
      FlsLarge(size);
      var f := FlsSizeT(size);
      Class(f - (FL_INDEX_SHIFT - 1), Xor32(Shr(size, f - SL_INDEX_COUNT_LOG2)))
  }

  function MappingSearch(size: nat): Class {
    if size >= SMALL_BLOCK_SIZE then
      FlsLarge(size);
      MappingInsert(size + (Pow2(FlsSizeT(size) - SL_INDEX_COUNT_LOG2) - 1))
    else
      MappingInsert(size)
  }

  predicate ValidClass(c: Class) { c.fl < FL_INDEX_COUNT && c.sl < SL_INDEX_COUNT }

  // The order in which the search visits the classes.
  predicate Before(c: Class, d: Class) {
    c.fl < d.fl || (c.fl == d.fl && c.sl < d.sl)
  }

  // The sizes a class holds: LowerBound(c) <= size < LowerBound(c) + Width(c).
  function Width(c: Class): nat {
    if c.fl == 0 then 8 else Pow2(c.fl + 2)
  }

  function LowerBound(c: Class): nat {
    if c.fl == 0 then c.sl * 8 else (32 + c.sl) * Pow2(c.fl + 2)
  }

  lemma {:induction false} FlsLarge(size: nat)
    requires size >= SMALL_BLOCK_SIZE
    ensures Fls(size) >= 8
  {
    FlsLog(size);
    PowersOfTwo();
    if Fls(size) < 8 {
      Pow2Mono(Fls(size) + 1, 8);
    }
  }

  // The general case of mapping_insert, with f the logarithm of the size: the five
  // digits after the leading one select the list.
  lemma {:induction false} InsertLarge(size: nat, f: nat)
    requires f >= 8 && Pow2(f) <= size < 2 * Pow2(f)
    ensures var d, q := Pow2(f - 5), Shr(size, f - 5);
      && Pow2(f) == 32 * d
      && 32 <= q < 64
      && MappingInsert(size) == Class(f - 7, q - 32)
      && LowerBound(Class(f - 7, q - 32)) == q * d
      && Width(Class(f - 7, q - 32)) == d
      && q * d <= size < q * d + d
  {
    hide Pow2, Shr, Fls;
    PowersOfTwo();
    Pow2Mono(8, f);
    FlsUnique(size, f);
    Pow2Add(5, f - 5);
    ShrQuotient(size, f - 5);
    QuotientRange(size, Pow2(f - 5), Shr(size, f - 5));
  }

  // mapping_insert puts a size into the class whose range contains it.
  lemma {:induction false} InsertRange(size: nat)
    ensures var c := MappingInsert(size);
      && c.sl < SL_INDEX_COUNT
      && LowerBound(c) <= size < LowerBound(c) + Width(c)
      && (size < BLOCK_SIZE_MAX ==> c.fl < FL_INDEX_COUNT)
  {
    hide Pow2, Shr, Fls;
    if size >= SMALL_BLOCK_SIZE {
      FlsLarge(size);
      FlsLog(size);
      PowersOfTwo();
      InsertLarge(size, Fls(size));
      if Fls(size) >= 32 {
        Pow2Mono(32, Fls(size));
      }
    }
  }

  lemma QuotientRange(size: nat, d: nat, q: nat)
    requires d > 0 && 32 * d <= size < 64 * d
    requires q * d <= size < q * d + d
    ensures 32 <= q < 64
  {
    MulMono(q + 1, 32, d);
    MulMono(64, q, d);
  }

  lemma MulMono(a: nat, b: nat, w: nat)
    ensures a <= b ==> a * w <= b * w
    ensures (a + 1) * w == a * w + w
  {
  }

  // The ranges of the classes are disjoint and increase with the class.
  lemma {:induction false} RangesIncrease(c: Class, d: Class)
    requires c.sl < SL_INDEX_COUNT && d.sl < SL_INDEX_COUNT
    requires Before(c, d)
    ensures LowerBound(c) + Width(c) <= LowerBound(d)
  {
    hide Pow2;
    PowersOfTwo();
    var v := Pow2(d.fl + 2);
    MulMono(32 + c.sl, 31 + d.sl, v);
    MulMono(31 + d.sl, 32 + d.sl, v);
    if c.fl < d.fl {
      MulMono(32, 32 + d.sl, v);
      Pow2Mono(3, d.fl + 2);
      var w := Pow2(c.fl + 2);
      Pow2Mono(c.fl + 3, d.fl + 2);
      Pow2Double(c.fl + 2);
      MulMono(32 + c.sl, 63, w);
      MulMono(63, 64, w);
    }
  }

  // The exact place of a size: below the class it is below the range, and so on.
  lemma ClassOrder(size: nat, c: Class)
    requires c.sl < SL_INDEX_COUNT
    ensures Before(MappingInsert(size), c) <==> size < LowerBound(c)
    ensures Before(c, MappingInsert(size)) <==> size >= LowerBound(c) + Width(c)
  {
    var e := MappingInsert(size);
    InsertRange(size);
    if Before(e, c) {
      RangesIncrease(e, c);
    } else if Before(c, e) {
      RangesIncrease(c, e);
    } else {
      assert e == c;
    }
  }

  // The amount mapping_search may add to a request: 0 for small ones, less than
  // one class width otherwise.
  function Slack(size: nat): nat {
    if size >= SMALL_BLOCK_SIZE then
      FlsLarge(size);
      Pow2(Fls(size) - SL_INDEX_COUNT_LOG2)
    else 0
  }

  lemma {:induction false} SlackSmall(size: nat)
    ensures Slack(size) * 32 <= size
  {
    if size >= SMALL_BLOCK_SIZE {
      FlsLarge(size);
      FlsLog(size);
      PowersOfTwo();
      Pow2Add(5, Fls(size) - 5);
    }
  }

  // Good fit, first half: the class a search starts from has only blocks that are
  // large enough.  Second half: a block of an earlier class is smaller than the
  // request plus its slack.
  lemma {:induction false} SearchClassBounds(size: nat)
    requires size % ALIGN_SIZE == 0
    ensures MappingSearch(size).sl < SL_INDEX_COUNT
    ensures size <= LowerBound(MappingSearch(size))
    ensures LowerBound(MappingSearch(size)) <= size + (if Slack(size) == 0 then 0 else Slack(size) - 1)
  {
    hide Pow2, Shr, Fls;
    if size < SMALL_BLOCK_SIZE {
      InsertRange(size);
    } else {
      FlsLarge(size);
      var r := Slack(size);
      var up := size + (r - 1);
      InsertRange(up);
      RoundUpKeepsClassBase(size);
    }
  }

  // Rounding up by one class width less one byte never leaves size behind: the
  // class base is a multiple of the width of size's own class.
  lemma {:induction false} RoundUpKeepsClassBase(size: nat)
    requires size >= SMALL_BLOCK_SIZE
    ensures size <= LowerBound(MappingInsert(size + (Slack(size) - 1)))
  {
    hide Pow2, Shr, Fls;
    FlsLarge(size);
    FlsLog(size);
    var f, r := Fls(size), Slack(size);
    var up := size + (r - 1);
    Pow2Add(5, f - 5);
    PowersOfTwo();
    if up < 64 * r {
      InsertLarge(up, f);
    } else {
      Pow2Double(f);
      Pow2Double(f - 5);
      InsertLarge(up, f + 1);
      MulMono(32, Shr(up, f - 4), 2 * r);
    }
  }

  // Every block in a class the search may return holds the request.
  lemma SearchSound(size: nat, t: nat)
    requires size % ALIGN_SIZE == 0
    requires !Before(MappingInsert(t), MappingSearch(size))
    ensures size <= t
  {
    SearchClassBounds(size);
    ClassOrder(t, MappingSearch(size));
  }

  // A block in a class the search does not look at is smaller than the request
  // plus one class width, that is by less than a 32nd; exact for small requests.
  lemma SearchTight(size: nat, t: nat)
    requires size % ALIGN_SIZE == 0
    requires Before(MappingInsert(t), MappingSearch(size))
    ensures size < SMALL_BLOCK_SIZE ==> t < size
    ensures size >= SMALL_BLOCK_SIZE ==> t < size + Slack(size) && t < size + size / 32
  {
    SearchClassBounds(size);
    ClassOrder(t, MappingSearch(size));
    SlackSmall(size);
  }
}
