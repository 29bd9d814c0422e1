// The descriptor in front of every allocation: its layout, its checksum, and the damage that finds.
module MemHeader {
  import Crc32
  import opened Bytes
  import opened PoolArithmetic

  const MAGIC_DESC: seq<bv8> := [0x58, 0x4D, 0x45, 0x4D, 0x44, 0x45, 0x53, 0x43]

  // ---- descriptors ----

  // struct mem_desc. The list node is embedded in the descriptor; its links are given here as the
  // addresses of the neighbouring descriptors, 0 for none.
  datatype Desc = Desc(head: seq<bv8>, prev: nat, next: nat, listData: nat, pool: nat, data: nat, buff: nat,
                       crc: bv32, offset: nat, align: nat, size: nat, realSize: nat)

  function Word(c: bv32): (s: seq<bv8>)
    ensures |s| == 4
  {
    [(c & 0xFF) as bv8, ((c >> 8) & 0xFF) as bv8, ((c >> 16) & 0xFF) as bv8, ((c >> 24) & 0xFF) as bv8]
  }

  // The address of the list node inside a descriptor.
  function Link(desc: nat): nat {
    if desc == 0 then 0 else desc + HEAD_SIZE
  }

  // The list node, the pointers and the numbers of a descriptor as they lie in memory.
  function NodeBytes(d: Desc): seq<bv8> {
    Le(Link(d.prev), 8) + Le(Link(d.next), 8) + Le(d.listData, 8)
  }

  function PointerBytes(d: Desc): seq<bv8> {
    Le(d.pool, 8) + Le(d.data, 8) + Le(d.buff, 8)
  }

  function NumberBytes(d: Desc): seq<bv8> {
    Word(d.crc) + Le(d.offset, 2) + Le(d.align, 2) + (Le(d.size, 8) + Le(d.realSize, 8))
  }

  // The whole descriptor.
  function HeaderBytes(d: Desc): seq<bv8> {
    d.head + NodeBytes(d) + PointerBytes(d) + NumberBytes(d)
  }

  // The checksum of a descriptor, taken with its own checksum field zero.
  function Sum(d: Desc): bv32 {
    Crc32.Checksum(HeaderBytes(d.(crc := 0)))
  }

  function Sealed(d: Desc): Desc {
    d.(crc := Sum(d))
  }

  // ---- the layout of a descriptor ----

  lemma HeadFirst(d: Desc)
    ensures |d.head| <= |HeaderBytes(d)| && HeaderBytes(d)[..|d.head|] == d.head
  {
    hide NodeBytes, PointerBytes, NumberBytes;
    var rest := NodeBytes(d) + PointerBytes(d) + NumberBytes(d);
    assert HeaderBytes(d) == d.head + rest;
  }

  // Every field has a value its bytes can hold.
  predicate InFields(d: Desc) {
    && |d.head| == 8
    && Link(d.prev) < SIZE_T && Link(d.next) < SIZE_T && d.listData < SIZE_T
    && d.pool < SIZE_T && d.data < SIZE_T && d.buff < SIZE_T
    && d.offset < UINT16 && d.align < UINT16 && d.size < SIZE_T && d.realSize < SIZE_T
  }

  lemma NodeLies(d: Desc)
    ensures var s := NodeBytes(d);
      |s| == 24 && Lies(s, 0, Le(Link(d.prev), 8)) && Lies(s, 8, Le(Link(d.next), 8)) && Lies(s, 16, Le(d.listData, 8))
  {
    hide Le, Link;
  }

  lemma PointersLie(d: Desc)
    ensures var s := PointerBytes(d);
      |s| == 24 && Lies(s, 0, Le(d.pool, 8)) && Lies(s, 8, Le(d.data, 8)) && Lies(s, 16, Le(d.buff, 8))
  {
    hide Le;
  }

  lemma NumbersLie(d: Desc)
    ensures var s := NumberBytes(d);
      && |s| == 24 && Lies(s, 0, Word(d.crc)) && Lies(s, 4, Le(d.offset, 2)) && Lies(s, 6, Le(d.align, 2))
      && Lies(s, 8, Le(d.size, 8)) && Lies(s, 16, Le(d.realSize, 8))
  {
    hide Le;
  }

  lemma FieldsLie(d: Desc)
    requires |d.head| == 8
    ensures var s := HeaderBytes(d);
      && |s| == 80 && Lies(s, 0, d.head) && Lies(s, 8, Le(Link(d.prev), 8)) && Lies(s, 16, Le(Link(d.next), 8))
      && Lies(s, 24, Le(d.listData, 8)) && Lies(s, 32, Le(d.pool, 8)) && Lies(s, 40, Le(d.data, 8))
      && Lies(s, 48, Le(d.buff, 8)) && Lies(s, 56, Word(d.crc)) && Lies(s, 60, Le(d.offset, 2))
      && Lies(s, 62, Le(d.align, 2)) && Lies(s, 64, Le(d.size, 8)) && Lies(s, 72, Le(d.realSize, 8))
  {
    hide Lies, Le, Link, NodeBytes, PointerBytes, NumberBytes;
    var s, node, pointers, numbers := HeaderBytes(d), NodeBytes(d), PointerBytes(d), NumberBytes(d);
    NodeLies(d);
    PointersLie(d);
    NumbersLie(d);
    PartsLie(d.head, node, pointers, numbers);
    LiesWithin(s, 8, node, 0, Le(Link(d.prev), 8));
    LiesWithin(s, 8, node, 8, Le(Link(d.next), 8));
    LiesWithin(s, 8, node, 16, Le(d.listData, 8));
    LiesWithin(s, 32, pointers, 0, Le(d.pool, 8));
    LiesWithin(s, 32, pointers, 8, Le(d.data, 8));
    LiesWithin(s, 32, pointers, 16, Le(d.buff, 8));
    LiesWithin(s, 56, numbers, 0, Word(d.crc));
    LiesWithin(s, 56, numbers, 4, Le(d.offset, 2));
    LiesWithin(s, 56, numbers, 6, Le(d.align, 2));
    LiesWithin(s, 56, numbers, 8, Le(d.size, 8));
    LiesWithin(s, 56, numbers, 16, Le(d.realSize, 8));
  }

  lemma FieldWidths()
    ensures Pow256(2) == UINT16 && Pow256(8) == SIZE_T
  {
    assert Pow256(2) == 256 * Pow256(1) && Pow256(4) == 256 * (256 * Pow256(2));
    assert Pow256(6) == 256 * (256 * Pow256(4)) && Pow256(8) == 256 * (256 * Pow256(6));
  }

  lemma WordBits(s: seq<bv8>, at: nat, c: bv32)
    requires Lies(s, at, Word(c))
    ensures s[at] as bv32 | (s[at + 1] as bv32 << 8) | (s[at + 2] as bv32 << 16) | (s[at + 3] as bv32 << 24) == c
  {
    assert s[at] == Word(c)[0] && s[at + 1] == Word(c)[1] && s[at + 2] == Word(c)[2] && s[at + 3] == Word(c)[3];
  }

  // The 80 bytes of a descriptor, field by field.
  lemma HeaderLayout(d: Desc)
    requires InFields(d)
    ensures var s := HeaderBytes(d);
      && |s| == 80 && s[..8] == d.head
      && Value(s[8..16]) == (if d.prev == 0 then 0 else d.prev + 8)
      && Value(s[16..24]) == (if d.next == 0 then 0 else d.next + 8)
      && Value(s[24..32]) == d.listData && Value(s[32..40]) == d.pool
      && Value(s[40..48]) == d.data && Value(s[48..56]) == d.buff
      && s[56] as bv32 | (s[57] as bv32 << 8) | (s[58] as bv32 << 16) | (s[59] as bv32 << 24) == d.crc
      && Value(s[60..62]) == d.offset && Value(s[62..64]) == d.align
      && Value(s[64..72]) == d.size && Value(s[72..80]) == d.realSize
  {
    hide HeaderBytes, Lies, Le, Word, Value, Pow256;
    FieldsLie(d);
    FieldWidths();
    HeadFirst(d);
    var s := HeaderBytes(d);
    LiesValue(s, 8, Link(d.prev), 8);
    LiesValue(s, 16, Link(d.next), 8);
    LiesValue(s, 24, d.listData, 8);
    LiesValue(s, 32, d.pool, 8);
    LiesValue(s, 40, d.data, 8);
    LiesValue(s, 48, d.buff, 8);
    WordBits(s, 56, d.crc);
    LiesValue(s, 60, d.offset, 2);
    LiesValue(s, 62, d.align, 2);
    LiesValue(s, 64, d.size, 8);
    LiesValue(s, 72, d.realSize, 8);
  }

  // Different descriptors lie differently in memory.
  lemma HeaderInjective(d: Desc, e: Desc)
    requires InFields(d) && InFields(e) && HeaderBytes(d) == HeaderBytes(e)
    ensures d == e
  {
    hide HeaderBytes, Value;
    HeaderLayout(d);
    HeaderLayout(e);
  }

  // A header damaged in at most four consecutive bytes outside its checksum never passes for sound.
  lemma DamageFound(d: Desc, e: Desc, k: nat)
    requires InFields(d) && InFields(e) && d != e && d.crc == e.crc == Sum(d)
    requires k <= 80 && Alike(HeaderBytes(d.(crc := 0)), HeaderBytes(e.(crc := 0)), k)
    ensures e.crc != Sum(e)
  {
    hide HeaderBytes;
    var d0, e0 := d.(crc := 0), e.(crc := 0);
    assert d0.(crc := d.crc) == d && e0.(crc := d.crc) == e;
    if HeaderBytes(d0) == HeaderBytes(e0) {
      HeaderInjective(d0, e0);
    }
    HeaderLayout(d0);
    Crc32.BurstDetected(HeaderBytes(d0), HeaderBytes(e0), k);
  }

  // One field has been changed, in at most four bytes in a row from its byte j on.
  ghost predicate NodeChanged(d: Desc, e: Desc, j: nat) {
    || (e == d.(prev := e.prev) && Near(Link(d.prev), Link(e.prev), j))
    || (e == d.(next := e.next) && Near(Link(d.next), Link(e.next), j))
    || (e == d.(listData := e.listData) && Near(d.listData, e.listData, j))
  }

  ghost predicate PointerChanged(d: Desc, e: Desc, j: nat) {
    || (e == d.(pool := e.pool) && Near(d.pool, e.pool, j))
    || (e == d.(data := e.data) && Near(d.data, e.data, j))
    || (e == d.(buff := e.buff) && Near(d.buff, e.buff, j))
  }

  ghost predicate NumberChanged(d: Desc, e: Desc, j: nat) {
    || (e == d.(offset := e.offset) && Near(d.offset, e.offset, j))
    || (e == d.(align := e.align) && Near(d.align, e.align, j))
    || (e == d.(size := e.size) && Near(d.size, e.size, j))
    || (e == d.(realSize := e.realSize) && Near(d.realSize, e.realSize, j))
  }

  ghost predicate OneField(d: Desc, e: Desc, j: nat) {
    || (e == d.(head := e.head) && Alike(d.head, e.head, j))
    || NodeChanged(d, e, j) || PointerChanged(d, e, j) || NumberChanged(d, e, j)
  }

  lemma NodeDamage(d: Desc, e: Desc, j: nat)
    requires NodeChanged(d, e, j) && j <= 4
    ensures exists k: nat :: k <= 20 && Alike(NodeBytes(d), NodeBytes(e), k)
  {
    hide Near, Alike, Link, Le;
    var p, n, l := Le(Link(d.prev), 8), Le(Link(d.next), 8), Le(d.listData, 8);
    if e == d.(prev := e.prev) && Near(Link(d.prev), Link(e.prev), j) {
      var f := Le(Link(e.prev), 8);
      NearBytes(Link(d.prev), Link(e.prev), j, 8);
      AlikeBefore(p, f, n, j);
      AlikeBefore(p + n, f + n, l, j);
      assert Alike(NodeBytes(d), NodeBytes(e), j);
    } else if e == d.(next := e.next) && Near(Link(d.next), Link(e.next), j) {
      var f := Le(Link(e.next), 8);
      NearBytes(Link(d.next), Link(e.next), j, 8);
      AlikeBehind(p, n, f, j);
      AlikeBefore(p + n, p + f, l, 8 + j);
      assert Alike(NodeBytes(d), NodeBytes(e), 8 + j);
    } else {
      NearBytes(d.listData, e.listData, j, 8);
      AlikeBehind(p + n, l, Le(e.listData, 8), j);
      assert Alike(NodeBytes(d), NodeBytes(e), 16 + j);
    }
  }

  lemma PointerDamage(d: Desc, e: Desc, j: nat)
    requires PointerChanged(d, e, j) && j <= 4
    ensures exists k: nat :: k <= 20 && Alike(PointerBytes(d), PointerBytes(e), k)
  {
    hide Near, Alike, Le;
    var p, a, b := Le(d.pool, 8), Le(d.data, 8), Le(d.buff, 8);
    if e == d.(pool := e.pool) && Near(d.pool, e.pool, j) {
      var f := Le(e.pool, 8);
      NearBytes(d.pool, e.pool, j, 8);
      AlikeBefore(p, f, a, j);
      AlikeBefore(p + a, f + a, b, j);
      assert Alike(PointerBytes(d), PointerBytes(e), j);
    } else if e == d.(data := e.data) && Near(d.data, e.data, j) {
      var f := Le(e.data, 8);
      NearBytes(d.data, e.data, j, 8);
      AlikeBehind(p, a, f, j);
      AlikeBefore(p + a, p + f, b, 8 + j);
      assert Alike(PointerBytes(d), PointerBytes(e), 8 + j);
    } else {
      NearBytes(d.buff, e.buff, j, 8);
      AlikeBehind(p + a, b, Le(e.buff, 8), j);
      assert Alike(PointerBytes(d), PointerBytes(e), 16 + j);
    }
  }

  lemma NumberDamage(d: Desc, e: Desc, j: nat)
    requires NumberChanged(d, e, j) && j <= 4
    ensures exists k: nat :: k <= 20 && Alike(NumberBytes(d), NumberBytes(e), k)
  {
    hide Near, Alike, Le, Word;
    var c, o, a, s, r := Word(d.crc), Le(d.offset, 2), Le(d.align, 2), Le(d.size, 8), Le(d.realSize, 8);
    if e == d.(offset := e.offset) && Near(d.offset, e.offset, j) {
      NearBytes(d.offset, e.offset, j, 2);
      AlikeSecond(c, o, Le(e.offset, 2), a, s + r, j);
      assert Alike(NumberBytes(d), NumberBytes(e), 4 + j);
    } else if e == d.(align := e.align) && Near(d.align, e.align, j) {
      NearBytes(d.align, e.align, j, 2);
      AlikeThird(c, o, a, Le(e.align, 2), s + r, j);
      assert Alike(NumberBytes(d), NumberBytes(e), 6 + j);
    } else if e == d.(size := e.size) && Near(d.size, e.size, j) {
      NearBytes(d.size, e.size, j, 8);
      AlikeBefore(s, Le(e.size, 8), r, j);
      AlikeBehind(c + o + a, s + r, Le(e.size, 8) + r, j);
      assert Alike(NumberBytes(d), NumberBytes(e), 8 + j);
    } else {
      NearBytes(d.realSize, e.realSize, j, 8);
      AlikeBehind(s, r, Le(e.realSize, 8), j);
      AlikeBehind(c + o + a, s + r, s + Le(e.realSize, 8), 8 + j);
      assert Alike(NumberBytes(d), NumberBytes(e), 16 + j);
    }
  }

  lemma PartSizes(d: Desc)
    ensures |NodeBytes(d)| == 24 && |PointerBytes(d)| == 24 && |NumberBytes(d)| == 24
  {
    hide Le, Word;
  }

  // The parts depend on their own fields only.
  lemma SameParts(d: Desc, e: Desc)
    ensures d.prev == e.prev && d.next == e.next && d.listData == e.listData ==> NodeBytes(d) == NodeBytes(e)
    ensures d.pool == e.pool && d.data == e.data && d.buff == e.buff ==> PointerBytes(d) == PointerBytes(e)
    ensures (d.crc, d.offset, d.align, d.size, d.realSize) == (e.crc, e.offset, e.align, e.size, e.realSize) ==>
      NumberBytes(d) == NumberBytes(e)
  {
    hide Le, Word;
  }

  lemma FieldDamage(d: Desc, e: Desc, j: nat)
    requires |d.head| == |e.head| == 8 && j <= 4 && OneField(d, e, j)
    ensures exists k: nat :: k <= 80 && Alike(HeaderBytes(d), HeaderBytes(e), k)
  {
    hide Near, Alike, Link, Le, NodeBytes, PointerBytes, NumberBytes;
    PartSizes(d);
    SameParts(d, e);
    var h, n, p, r := d.head, NodeBytes(d), PointerBytes(d), NumberBytes(d);
    if e == d.(head := e.head) && Alike(h, e.head, j) {
      AlikeFirst(h, e.head, n, p, r, j);
      assert Alike(HeaderBytes(d), HeaderBytes(e), j);
    } else if NodeChanged(d, e, j) {
      NodeDamage(d, e, j);
      var k: nat :| k <= 20 && Alike(n, NodeBytes(e), k);
      AlikeSecond(h, n, NodeBytes(e), p, r, k);
      assert Alike(HeaderBytes(d), HeaderBytes(e), 8 + k);
    } else if PointerChanged(d, e, j) {
      PointerDamage(d, e, j);
      var k: nat :| k <= 20 && Alike(p, PointerBytes(e), k);
      AlikeThird(h, n, p, PointerBytes(e), r, k);
      assert Alike(HeaderBytes(d), HeaderBytes(e), 32 + k);
    } else {
      NumberDamage(d, e, j);
      var k: nat :| k <= 20 && Alike(r, NumberBytes(e), k);
      AlikeBehind(h + n + p, r, NumberBytes(e), k);
      assert Alike(HeaderBytes(d), HeaderBytes(e), 56 + k);
    }
  }

  // Whichever field it is, the stored checksum is then wrong.
  lemma FieldDamageFound(d: Desc, e: Desc, j: nat)
    requires InFields(d) && InFields(e) && d != e && d.crc == Sum(d)
    requires j <= 4 && OneField(d, e, j)
    ensures e.crc == d.crc && e.crc != Sum(e)
  {
    hide HeaderBytes, Near, Alike, Link;
    var d0, e0 := d.(crc := 0), e.(crc := 0);
    FieldDamage(d0, e0, j);
    var k: nat :| k <= 80 && Alike(HeaderBytes(d0), HeaderBytes(e0), k);
    DamageFound(d, e, k);
  }

  // As when the size 16 has become 24.
  lemma SizeOverwritten(d: Desc)
    requires InFields(d) && d.crc == Sum(d) && d.size == 16
    ensures Sum(d.(size := 24)) != d.crc
  {
    hide HeaderBytes, Sum;
    assert Near(16, 24, 0);
    FieldDamageFound(d, d.(size := 24), 0);
  }
}
