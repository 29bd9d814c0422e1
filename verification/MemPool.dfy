// Memory pools: every allocation carries a checksummed descriptor in front and a magic number
// behind, and a pool links its descriptors in a list and counts them and their sizes.
module MemPool {
  import Bits
  import Crc32
  import opened Bytes
  import opened MemHeader
  import opened PoolArithmetic

  // ---- blocks ----

  // What a client knows of an allocation: where its descriptor is, the raw memory under it, its size
  // and alignment.
  datatype Block = Block(addr: nat, data: nat, size: nat, span: nat, align: nat) {
    function Buff(): nat { addr + DESC_SIZE }

    function Foot(): nat { FootAt(Buff(), size) }
  }

  // The descriptor lies inside the raw allocation, and that inside the address space.
  predicate Headed(b: Block) {
    0 < b.data <= b.addr && b.Buff() <= b.data + b.span <= SIZE_T && b.size < SIZE_T
  }

  // So do the buffer and the footer behind it.
  predicate Placed(b: Block) {
    Headed(b) && b.Buff() + b.size + HEAD_SIZE <= b.data + b.span
  }

  // The 16-bit fields hold what was stored in them. Only blocks without alignment can be resized, and
  // those start with the descriptor.
  predicate Sound(b: Block) {
    && Placed(b)
    && b.Buff() - b.data < UINT16
    && (b.align % UINT16 == 0 ==> b.align == 0 && b.addr == b.data)
  }

  predicate Disjoint(a: nat, n: nat, b: nat, m: nat) {
    a + n <= b || b + m <= a
  }

  // The footers that survive a store of n bytes.
  function Cleared(footers: set<nat>, at: nat, n: nat): set<nat> {
    set f | f in footers && Disjoint(f, HEAD_SIZE, at, n)
  }

  ghost predicate Apart(bs: seq<Block>) {
    forall i, j :: 0 <= i < j < |bs| ==> Disjoint(bs[i].data, bs[i].span, bs[j].data, bs[j].span)
  }

  ghost predicate AllHeaded(bs: seq<Block>) {
    forall i :: 0 <= i < |bs| ==> Headed(bs[i])
  }

  ghost predicate AllSound(bs: seq<Block>) {
    forall i :: 0 <= i < |bs| ==> Sound(bs[i])
  }

  ghost function AddrAt(bs: seq<Block>, i: int): nat {
    if 0 <= i < |bs| then bs[i].addr else 0
  }

  // The descriptor that block number i of a pool must have, before it is sealed.
  ghost function Plain(pool: nat, bs: seq<Block>, i: nat): Desc
    requires i < |bs|
  {
    var b := bs[i];
    Desc(MAGIC_DESC, AddrAt(bs, i - 1), AddrAt(bs, i + 1), b.addr, pool, b.data, b.Buff(), 0,
      (b.Buff() - b.data) as int % UINT16, b.align % UINT16, b.size, b.span)
  }

  ghost function Image(pool: nat, bs: seq<Block>, i: nat): Desc
    requires i < |bs|
  {
    Sealed(Plain(pool, bs, i))
  }

  // What stands in memory for block number i of a pool.
  lemma ImageLayout(pool: nat, bs: seq<Block>, i: nat)
    requires i < |bs| && AllHeaded(bs) && pool < SIZE_T && bs[i].Buff() < SIZE_T
    ensures var s, b := HeaderBytes(Image(pool, bs, i)), bs[i];
      && |s| == 80 && (forall k :: 0 <= k < 8 ==> s[k] as int == "XMEMDESC"[k] as int)
      && Value(s[8..16]) == (if i == 0 then 0 else bs[i - 1].addr + 8)
      && Value(s[16..24]) == (if i + 1 == |bs| then 0 else bs[i + 1].addr + 8)
      && Value(s[24..32]) == b.addr && Value(s[32..40]) == pool
      && Value(s[40..48]) == b.data && Value(s[48..56]) == b.addr + 80
      && Value(s[60..62]) == (b.addr + 80 - b.data) % 0x1_0000 && Value(s[62..64]) == b.align % 0x1_0000
      && Value(s[64..72]) == b.size && Value(s[72..80]) == b.span
  {
    hide HeaderBytes, Value, Sum;
    var d := Image(pool, bs, i);
    assert Headed(bs[i]);
    assert i > 0 ==> Headed(bs[i - 1]);
    assert i + 1 < |bs| ==> Headed(bs[i + 1]);
    HeaderLayout(d);
    var s := HeaderBytes(d);
    forall k | 0 <= k < 8
      ensures s[k] as int == "XMEMDESC"[k] as int
    {
      assert s[k] == s[..8][k] == MAGIC_DESC[k];
    }
  }

  ghost predicate HeldAt(pool: nat, descs: map<nat, Desc>, bs: seq<Block>, i: nat)
    requires i < |bs|
  {
    bs[i].addr in descs && descs[bs[i].addr] == Image(pool, bs, i)
  }

  ghost predicate Owned(bs: seq<Block>, a: nat) {
    exists i :: 0 <= i < |bs| && bs[i].addr == a
  }

  ghost predicate OnlyOwned(descs: map<nat, Desc>, bs: seq<Block>) {
    forall a {:trigger Owned(bs, a)} :: a in descs ==> Owned(bs, a)
  }

  // Descriptor memory holds the descriptors of these blocks and no others.
  ghost predicate Represents(pool: nat, descs: map<nat, Desc>, bs: seq<Block>) {
    && (forall i {:trigger HeldAt(pool, descs, bs, i)} :: 0 <= i < |bs| ==> HeldAt(pool, descs, bs, i))
    && OnlyOwned(descs, bs)
  }

  ghost function TotalReal(bs: seq<Block>): nat {
    if bs == [] then 0 else bs[0].span + TotalReal(bs[1..])
  }

  ghost function TotalSize(bs: seq<Block>): nat {
    if bs == [] then 0 else bs[0].size + TotalSize(bs[1..])
  }

  lemma {:induction false} TotalsJoin(a: seq<Block>, b: seq<Block>)
    ensures TotalReal(a + b) == TotalReal(a) + TotalReal(b)
    ensures TotalSize(a + b) == TotalSize(a) + TotalSize(b)
  {
    if a == [] {
      assert a + b == b;
    } else {
      assert (a + b)[0] == a[0] && (a + b)[1..] == a[1..] + b;
      TotalsJoin(a[1..], b);
    }
  }

  lemma TotalsOne(b: Block)
    ensures TotalReal([b]) == b.span && TotalSize([b]) == b.size
  {
    assert [b][1..] == [];
  }

  lemma TotalsSplit(bs: seq<Block>, i: nat)
    requires i < |bs|
    ensures TotalReal(bs) == TotalReal(bs[..i]) + bs[i].span + TotalReal(bs[i + 1..])
    ensures TotalSize(bs) == TotalSize(bs[..i]) + bs[i].size + TotalSize(bs[i + 1..])
  {
    hide TotalReal, TotalSize;
    assert bs == bs[..i] + ([bs[i]] + bs[i + 1..]);
    TotalsJoin(bs[..i], [bs[i]] + bs[i + 1..]);
    TotalsJoin([bs[i]], bs[i + 1..]);
    TotalsOne(bs[i]);
  }

  // ---- disjoint blocks of a finite address space ----

  predicate Within(from: nat, n: nat, x: nat) { from <= x < from + n }

  ghost function Span(from: nat, n: nat): set<nat> {
    set x: nat | x < from + n && Within(from, n, x)
  }

  lemma {:induction false} SpanSize(from: nat, n: nat)
    ensures |Span(from, n)| == n
  {
    if n == 0 {
      assert Span(from, 0) == {};
    } else {
      SpanSize(from, n - 1);
      assert Span(from, n) == Span(from, n - 1) + {from + n - 1};
    }
  }

  ghost function Covered(bs: seq<Block>): set<nat> {
    if bs == [] then {} else Span(bs[0].data, bs[0].span) + Covered(bs[1..])
  }

  lemma {:induction false} CoveredFrom(bs: seq<Block>, x: nat)
    requires x in Covered(bs)
    ensures exists i :: 0 <= i < |bs| && x in Span(bs[i].data, bs[i].span)
  {
    if x in Span(bs[0].data, bs[0].span) {
    } else {
      CoveredFrom(bs[1..], x);
      var i :| 0 <= i < |bs[1..]| && x in Span(bs[1..][i].data, bs[1..][i].span);
      assert bs[1..][i] == bs[i + 1];
    }
  }

  lemma {:induction false} CoveredSize(bs: seq<Block>)
    requires Apart(bs)
    ensures |Covered(bs)| == TotalReal(bs)
  {
    if bs != [] {
      var rest := bs[1..];
      assert forall i :: 0 <= i < |rest| ==> rest[i] == bs[i + 1];
      CoveredSize(rest);
      SpanSize(bs[0].data, bs[0].span);
      forall x | x in Covered(rest)
        ensures x !in Span(bs[0].data, bs[0].span)
      {
        CoveredFrom(rest, x);
      }
      assert Span(bs[0].data, bs[0].span) !! Covered(rest);
    }
  }

  lemma Subset(a: set<nat>, b: set<nat>)
    requires a <= b
    ensures |a| <= |b|
  {
    assert b == a + (b - a);
  }

  // The raw sizes of a pool's blocks cannot add up to 2^64.
  lemma RealFits(bs: seq<Block>)
    requires AllHeaded(bs) && Apart(bs)
    ensures TotalReal(bs) < SIZE_T
  {
    CoveredSize(bs);
    forall x | x in Covered(bs)
      ensures x in Span(1, SIZE_T - 1)
    {
      CoveredFrom(bs, x);
      var i :| 0 <= i < |bs| && x in Span(bs[i].data, bs[i].span);
      assert Headed(bs[i]);
    }
    Subset(Covered(bs), Span(1, SIZE_T - 1));
    SpanSize(1, SIZE_T - 1);
  }

  // Nor can the sizes handed out, if every buffer lies in its raw memory.
  lemma {:induction false} SizeBelowReal(bs: seq<Block>)
    requires forall i :: 0 <= i < |bs| ==> Placed(bs[i])
    ensures TotalSize(bs) <= TotalReal(bs)
  {
    if bs != [] {
      assert forall i :: 0 <= i < |bs[1..]| ==> bs[1..][i] == bs[i + 1];
      SizeBelowReal(bs[1..]);
    }
  }

  ghost function Without(bs: seq<Block>, i: nat): seq<Block>
    requires i < |bs|
  {
    bs[..i] + bs[i + 1..]
  }

  // ---- descriptors and the list ----

  // Links and self-references are right; checksums may be stale.
  ghost predicate Linked(descs: map<nat, Desc>, bs: seq<Block>) {
    forall i :: 0 <= i < |bs| ==> LinkedAt(descs, bs, i)
  }

  ghost predicate LinkedAt(descs: map<nat, Desc>, bs: seq<Block>, i: nat)
    requires i < |bs|
  {
    && bs[i].addr != 0 && bs[i].addr in descs
    && descs[bs[i].addr].prev == AddrAt(bs, i - 1)
    && descs[bs[i].addr].next == AddrAt(bs, i + 1)
    && descs[bs[i].addr].listData == bs[i].addr
  }

  ghost predicate Distinct(bs: seq<Block>) {
    forall i, j :: 0 <= i < j < |bs| ==> bs[i].addr != bs[j].addr
  }

  lemma ApartDistinct(bs: seq<Block>)
    requires AllHeaded(bs) && Apart(bs)
    ensures Distinct(bs)
  {
    forall i, j | 0 <= i < j < |bs|
      ensures bs[i].addr != bs[j].addr
    {
      assert Headed(bs[i]) && Headed(bs[j]);
      assert Disjoint(bs[i].data, bs[i].span, bs[j].data, bs[j].span);
    }
  }

  lemma RepresentsLinked(pool: nat, descs: map<nat, Desc>, bs: seq<Block>)
    requires Represents(pool, descs, bs) && AllHeaded(bs)
    ensures Linked(descs, bs) && 0 !in descs
  {
    hide HeaderBytes;
    forall i | 0 <= i < |bs|
      ensures LinkedAt(descs, bs, i)
    {
      assert Headed(bs[i]) && HeldAt(pool, descs, bs, i);
    }
    assert !Owned(bs, 0);
  }

  lemma LinkedNonzero(descs: map<nat, Desc>, bs: seq<Block>)
    requires Linked(descs, bs)
    ensures forall i: int :: AddrAt(bs, i) == 0 <==> !(0 <= i < |bs|)
  {
    forall i: int | 0 <= i < |bs|
      ensures AddrAt(bs, i) != 0
    {
      assert LinkedAt(descs, bs, i);
    }
  }

  // The stored checksum does not enter the checksum.
  lemma SealAgain(d: Desc, c: bv32)
    ensures Sealed(d.(crc := c)) == Sealed(d)
  {
    assert d.(crc := c).(crc := 0) == d.(crc := 0);
  }

  lemma SumSealed(d: Desc)
    ensures Sum(Sealed(d)) == Sum(d)
  {
    hide HeaderBytes;
    assert Sealed(d).(crc := 0) == d.(crc := 0);
  }

  lemma SmallOffset(gap: nat)
    ensures gap % UINT16 == gap <==> gap < UINT16
  {
  }

  function SealAt(descs: map<nat, Desc>, at: nat): map<nat, Desc> {
    if at in descs then descs[at := Sealed(descs[at])] else descs
  }

  function SetNext(descs: map<nat, Desc>, at: nat, next: nat): map<nat, Desc> {
    if at in descs then descs[at := descs[at].(next := next)] else descs
  }

  function SetPrev(descs: map<nat, Desc>, at: nat, prev: nat): map<nat, Desc> {
    if at in descs then descs[at := descs[at].(prev := prev)] else descs
  }

  // Descriptor memory after a descriptor was put behind the last one.
  ghost function Appended(descs: map<nat, Desc>, last: nat, item: nat): map<nat, Desc> {
    SetPrev(SetNext(descs, last, item), item, last)
  }

  // Relinking and sealing a sealed descriptor: only the link counts.
  lemma Relink(d: Desc, prev: nat, next: nat)
    ensures Sealed(Sealed(d).(next := next)) == Sealed(d.(next := next))
    ensures Sealed(Sealed(d).(prev := prev)) == Sealed(d.(prev := prev))
    ensures Sealed(Sealed(d).(prev := prev, next := next)) == Sealed(d.(prev := prev, next := next))
  {
    hide HeaderBytes;
    assert Sealed(d).(next := next).(crc := 0) == d.(next := next).(crc := 0);
    assert Sealed(d).(prev := prev).(crc := 0) == d.(prev := prev).(crc := 0);
    assert Sealed(d).(prev := prev, next := next).(crc := 0) == d.(prev := prev, next := next).(crc := 0);
  }

  // What one more block at the end changes in the descriptors a pool must have.
  lemma ImageAppend(pool: nat, bs: seq<Block>, b: Block, i: nat)
    requires i <= |bs|
    ensures i < |bs| - 1 ==> Image(pool, bs + [b], i) == Image(pool, bs, i)
    ensures i == |bs| - 1 ==> Image(pool, bs + [b], i) == Sealed(Image(pool, bs, i).(next := b.addr))
    ensures i == |bs| ==>
      Image(pool, bs + [b], i) == Sealed(Image(pool, [b], 0).(prev := AddrAt(bs, |bs| - 1)))
  {
    hide HeaderBytes, Sealed;
    if i < |bs| {
      Relink(Plain(pool, bs, i), 0, b.addr);
    } else {
      Relink(Plain(pool, [b], 0), AddrAt(bs, |bs| - 1), 0);
    }
  }

  // The descriptor memory that appending leaves, address by address.
  ghost function AppendMap(descs: map<nat, Desc>, last: nat, item: nat, d: Desc): map<nat, Desc> {
    SealAt(SealAt(Appended(descs[item := d], last, item), last), item)
  }

  lemma AppendMapAt(descs: map<nat, Desc>, last: nat, item: nat, d: Desc, e: Desc, a: nat)
    requires last != item && Sealed(d) == e
    ensures var final := AppendMap(descs, last, item, d);
      && (a in final <==> a in descs || a == item)
      && (a == item ==> final[a] == Sealed(e.(prev := last)))
      && (a == last && a in descs ==> final[a] == Sealed(descs[a].(next := item)))
      && (a in descs && a != item && a != last ==> final[a] == descs[a])
  {
    hide Sealed;
    Relink(d, last, 0);
  }

  lemma DistinctAt(bs: seq<Block>, k: nat, i: int)
    requires Distinct(bs) && k < |bs|
    ensures 0 <= i < |bs| && i != k ==> bs[k].addr != bs[i].addr
  {
  }

  lemma AppendHeld(pool: nat, descs: map<nat, Desc>, bs: seq<Block>, b: Block, d: Desc, i: nat)
    requires i <= |bs| && Distinct(bs + [b]) && (i < |bs| ==> HeldAt(pool, descs, bs, i))
    requires Sealed(d) == Image(pool, [b], 0) && AddrAt(bs, |bs| - 1) != b.addr
    ensures HeldAt(pool, AppendMap(descs, AddrAt(bs, |bs| - 1), b.addr, d), bs + [b], i)
  {
    hide Image, Plain, Sealed, AppendMap, Distinct;
    var all, n := bs + [b], |bs|;
    DistinctAt(all, i, n);
    DistinctAt(all, i, n - 1);
    ImageAppend(pool, bs, b, i);
    AppendMapAt(descs, AddrAt(bs, n - 1), b.addr, d, Image(pool, [b], 0), all[i].addr);
    if i == n {
      assert all[i] == b;
    } else if i == n - 1 {
      assert all[i] == bs[i];
    } else {
      assert all[i] == bs[i];
    }
  }

  lemma AppendOwned(pool: nat, descs: map<nat, Desc>, bs: seq<Block>, b: Block, d: Desc, a: nat)
    requires OnlyOwned(descs, bs) && Distinct(bs + [b]) && Sealed(d) == Image(pool, [b], 0)
    requires AddrAt(bs, |bs| - 1) != b.addr && a in AppendMap(descs, AddrAt(bs, |bs| - 1), b.addr, d)
    ensures Owned(bs + [b], a)
  {
    hide Image, Sealed, AppendMap, Distinct;
    AppendMapAt(descs, AddrAt(bs, |bs| - 1), b.addr, d, Image(pool, [b], 0), a);
    if a == b.addr {
      assert (bs + [b])[|bs|].addr == a;
    } else {
      assert Owned(bs, a);
      var i :| 0 <= i < |bs| && bs[i].addr == a;
      assert (bs + [b])[i].addr == a;
    }
  }

  lemma LastOther(bs: seq<Block>, b: Block)
    requires Distinct(bs + [b]) && b.addr != 0
    ensures AddrAt(bs, |bs| - 1) != b.addr
  {
    DistinctAt(bs + [b], |bs|, |bs| - 1);
  }

  lemma AppendRepresents(pool: nat, descs: map<nat, Desc>, bs: seq<Block>, b: Block, d: Desc)
    requires Represents(pool, descs, bs) && Distinct(bs + [b]) && b.addr != 0
    requires Sealed(d) == Image(pool, [b], 0)
    ensures Represents(pool, AppendMap(descs, AddrAt(bs, |bs| - 1), b.addr, d), bs + [b])
  {
    hide Image, Sealed, AppendMap, Distinct, HeldAt, Owned, AddrAt;
    var all := bs + [b];
    var final := AppendMap(descs, AddrAt(bs, |bs| - 1), b.addr, d);
    LastOther(bs, b);
    forall i | 0 <= i < |all|
      ensures HeldAt(pool, final, all, i)
    {
      assert i < |bs| ==> HeldAt(pool, descs, bs, i);
      AppendHeld(pool, descs, bs, b, d, i);
    }
    forall a | a in final
      ensures Owned(all, a)
    {
      AppendOwned(pool, descs, bs, b, d, a);
    }
  }

  // The descriptor memory that taking a block out leaves: its neighbours linked to each other.
  ghost function RemoveMap(descs: map<nat, Desc>, item: nat, prev: nat, next: nat): map<nat, Desc> {
    SealAt(SealAt(SetPrev(SetNext(descs, prev, next), next, prev), prev), next) - {item}
  }

  lemma RemoveMapAt(descs: map<nat, Desc>, item: nat, prev: nat, next: nat, a: nat)
    requires prev != item && next != item && (prev != next || prev !in descs)
    ensures var final := RemoveMap(descs, item, prev, next);
      && (a in final <==> a in descs && a != item)
      && (a in final && a == prev ==> final[a] == Sealed(descs[a].(next := next)))
      && (a in final && a == next ==> final[a] == Sealed(descs[a].(prev := prev)))
      && (a in final && a != prev && a != next ==> final[a] == descs[a])
  {
    hide Sealed;
  }

  // Descriptor memory after a descriptor was unlinked, with the descriptor itself still there.
  ghost function Stripped(descs: map<nat, Desc>, item: nat, prev: nat, next: nat): map<nat, Desc>
  {
    var m := SetPrev(SetNext(descs, prev, next), next, prev);
    if (prev == 0 && next == 0) || item !in m then descs else m[item := m[item].(prev := 0, next := 0)]
  }

  lemma StrippedRemoved(descs: map<nat, Desc>, item: nat, prev: nat, next: nat)
    requires item in descs && prev != item && next != item && 0 !in descs
    ensures SealAt(SealAt(Stripped(descs, item, prev, next), prev), next) - {item}
      == RemoveMap(descs, item, prev, next)
  {
    hide Sealed;
  }

  lemma NeighboursLinked(descs: map<nat, Desc>, bs: seq<Block>, i: nat)
    requires Linked(descs, bs) && Distinct(bs) && i < |bs|
    ensures AddrAt(bs, i - 1) != 0 ==> AddrAt(bs, i - 1) in descs
    ensures AddrAt(bs, i + 1) != 0 ==> AddrAt(bs, i + 1) in descs
    ensures AddrAt(bs, i - 1) != 0 ==> AddrAt(bs, i - 1) != AddrAt(bs, i + 1)
    ensures AddrAt(bs, i - 1) != 0 ==> descs[AddrAt(bs, i - 1)].listData == AddrAt(bs, i - 1)
    ensures AddrAt(bs, i + 1) != 0 ==> descs[AddrAt(bs, i + 1)].listData == AddrAt(bs, i + 1)
  {
    if i > 0 {
      assert LinkedAt(descs, bs, i - 1);
      DistinctAt(bs, i - 1, i + 1);
    }
    if i + 1 < |bs| {
      assert LinkedAt(descs, bs, i + 1);
    }
  }

  // Where block number j of a list was before block number i was taken out.
  function Before(i: nat, j: nat): nat {
    if j < i then j else j + 1
  }

  lemma ImageRemove(pool: nat, bs: seq<Block>, i: nat, j: nat)
    requires i < |bs| && j < |bs| - 1
    ensures |Without(bs, i)| == |bs| - 1 && Without(bs, i)[j] == bs[Before(i, j)]
    ensures j + 1 == i ==>
      Image(pool, Without(bs, i), j) == Sealed(Image(pool, bs, j).(next := AddrAt(bs, i + 1)))
    ensures j == i ==>
      Image(pool, Without(bs, i), j) == Sealed(Image(pool, bs, i + 1).(prev := AddrAt(bs, i - 1)))
    ensures j + 1 != i && j != i ==> Image(pool, Without(bs, i), j) == Image(pool, bs, Before(i, j))
  {
    hide HeaderBytes, Sealed;
    var k: int, rest := Before(i, j), Without(bs, i);
    assert AddrAt(rest, j - 1) == if j == i then AddrAt(bs, i - 1) else AddrAt(bs, k - 1);
    assert AddrAt(rest, j + 1) == if j + 1 == i then AddrAt(bs, i + 1) else AddrAt(bs, k + 1);
    Relink(Plain(pool, bs, k), AddrAt(bs, i - 1), AddrAt(bs, i + 1));
  }

  lemma RemoveHeld(pool: nat, descs: map<nat, Desc>, bs: seq<Block>, i: nat, j: nat)
    requires i < |bs| && j < |bs| - 1 && Distinct(bs) && HeldAt(pool, descs, bs, Before(i, j))
    requires Detached(descs, bs, i)
    ensures |Without(bs, i)| == |bs| - 1
    ensures HeldAt(pool, RemoveMap(descs, bs[i].addr, AddrAt(bs, i - 1), AddrAt(bs, i + 1)), Without(bs, i), j)
  {
    hide Image, Plain, Sealed, RemoveMap, Without, Distinct, Before;
    var k := Before(i, j);
    ImageRemove(pool, bs, i, j);
    BeforeCases(i, j);
    assert bs[k].addr != 0;
    DistinctAt(bs, k, i);
    DistinctAt(bs, k, i - 1);
    DistinctAt(bs, k, i + 1);
    RemoveMapAt(descs, bs[i].addr, AddrAt(bs, i - 1), AddrAt(bs, i + 1), bs[k].addr);
    if j + 1 == i {
    } else if j == i {
    } else {
      assert bs[k].addr != AddrAt(bs, i - 1) && bs[k].addr != AddrAt(bs, i + 1);
    }
  }

  lemma BeforeCases(i: nat, j: nat)
    ensures Before(i, j) != i && Before(i, j) <= j + 1
    ensures j + 1 == i <==> Before(i, j) == i - 1
    ensures j == i <==> Before(i, j) == i + 1
  {
  }

  lemma RemoveOwned(pool: nat, descs: map<nat, Desc>, bs: seq<Block>, i: nat, a: nat)
    requires i < |bs| && Owned(bs, a) && a != bs[i].addr
    ensures Owned(Without(bs, i), a)
  {
    var k :| 0 <= k < |bs| && bs[k].addr == a;
    var j := if k < i then k else k - 1;
    assert Without(bs, i)[j].addr == a;
  }

  lemma RemoveRepresents(pool: nat, descs: map<nat, Desc>, bs: seq<Block>, i: nat)
    requires Represents(pool, descs, bs) && Distinct(bs) && i < |bs| && 0 !in descs
    ensures Represents(pool, RemoveMap(descs, bs[i].addr, AddrAt(bs, i - 1), AddrAt(bs, i + 1)), Without(bs, i))
  {
    var item, prev, next := bs[i].addr, AddrAt(bs, i - 1), AddrAt(bs, i + 1);
    var final, rest := RemoveMap(descs, item, prev, next), Without(bs, i);
    Neighbours(pool, descs, bs, i);
    WithoutLength(bs, i);
    hide Image, Sealed, RemoveMap, Without, Distinct, HeldAt;
    forall j | 0 <= j < |rest|
      ensures HeldAt(pool, final, rest, j)
    {
      RemoveHeld(pool, descs, bs, i, j);
    }
    forall a | a in final
      ensures Owned(rest, a)
    {
      RemoveMapAt(descs, item, prev, next, a);
      RemoveOwned(pool, descs, bs, i, a);
    }
  }

  // The block and its two neighbours are three different addresses, and no block is at 0.
  ghost predicate Detached(descs: map<nat, Desc>, bs: seq<Block>, i: nat)
    requires i < |bs|
  {
    && AddrAt(bs, i - 1) != bs[i].addr && AddrAt(bs, i + 1) != bs[i].addr
    && (AddrAt(bs, i - 1) != AddrAt(bs, i + 1) || AddrAt(bs, i - 1) !in descs)
    && (forall k :: 0 <= k < |bs| ==> bs[k].addr != 0)
  }

  lemma WithoutLength(bs: seq<Block>, i: nat)
    requires i < |bs|
    ensures |Without(bs, i)| == |bs| - 1
  {
  }

  lemma Neighbours(pool: nat, descs: map<nat, Desc>, bs: seq<Block>, i: nat)
    requires Represents(pool, descs, bs) && Distinct(bs) && i < |bs| && 0 !in descs
    ensures Detached(descs, bs, i)
  {
    hide Image, Distinct, OnlyOwned;
    DistinctAt(bs, i, i - 1);
    DistinctAt(bs, i, i + 1);
    if i > 0 {
      DistinctAt(bs, i - 1, i + 1);
    }
    forall k | 0 <= k < |bs|
      ensures bs[k].addr != 0
    {
      assert HeldAt(pool, descs, bs, k);
    }
  }

  // The descriptor memory that moving a block leaves: its neighbours linked to its new place.
  ghost function MoveMap(descs: map<nat, Desc>, item: nat, at: nat, d: Desc): map<nat, Desc> {
    var m := SealAt(SetNext((descs - {item})[at := d], d.prev, at), d.prev);
    SealAt(SealAt(SetPrev(m, d.next, at), d.next), at)
  }

  lemma MoveMapAt(descs: map<nat, Desc>, item: nat, at: nat, d: Desc, a: nat)
    requires d.prev != item && d.next != item && d.prev != at && d.next != at
    requires d.prev != d.next || d.prev !in descs
    ensures var final := MoveMap(descs, item, at, d);
      && (a in final <==> a == at || (a in descs && a != item))
      && (a == at ==> final[a] == Sealed(d))
      && (a in final && a == d.prev ==> final[a] == Sealed(descs[a].(next := at)))
      && (a in final && a == d.next ==> final[a] == Sealed(descs[a].(prev := at)))
      && (a in final && a != at && a != d.prev && a != d.next ==> final[a] == descs[a])
  {
    hide Sealed;
  }

  lemma ImageMove(pool: nat, bs: seq<Block>, i: nat, b: Block, k: nat)
    requires i < |bs| && k < |bs|
    ensures k + 1 == i ==> Image(pool, bs[i := b], k) == Sealed(Image(pool, bs, k).(next := b.addr))
    ensures k == i + 1 ==> Image(pool, bs[i := b], k) == Sealed(Image(pool, bs, k).(prev := b.addr))
    ensures k + 1 != i && k != i && k != i + 1 ==> Image(pool, bs[i := b], k) == Image(pool, bs, k)
  {
    hide HeaderBytes, Sealed;
    Relink(Plain(pool, bs, k), b.addr, b.addr);
  }

  lemma MoveHeld(pool: nat, descs: map<nat, Desc>, bs: seq<Block>, i: nat, b: Block, d: Desc, k: nat)
    requires i < |bs| && k < |bs| && Distinct(bs) && Distinct(bs[i := b]) && Detached(descs, bs, i)
    requires HeldAt(pool, descs, bs, k) && b.addr != 0
    requires d.prev == AddrAt(bs, i - 1) && d.next == AddrAt(bs, i + 1)
    requires Sealed(d) == Image(pool, bs[i := b], i)
    ensures HeldAt(pool, MoveMap(descs, bs[i].addr, b.addr, d), bs[i := b], k)
  {
    hide Image, Plain, Sealed, MoveMap, Distinct;
    var moved := bs[i := b];
    DistinctAt(moved, i, i - 1);
    DistinctAt(moved, i, i + 1);
    ImageMove(pool, bs, i, b, k);
    MoveMapAt(descs, bs[i].addr, b.addr, d, moved[k].addr);
    if k == i {
      assert moved[k] == b;
    } else {
      assert moved[k] == bs[k] && bs[k].addr != 0;
      DistinctAt(bs, k, i);
      DistinctAt(bs, k, i - 1);
      DistinctAt(bs, k, i + 1);
      DistinctAt(moved, k, i);
    }
  }

  lemma MoveRepresents(pool: nat, descs: map<nat, Desc>, bs: seq<Block>, i: nat, b: Block, d: Desc)
    requires Represents(pool, descs, bs) && Distinct(bs) && i < |bs| && 0 !in descs
    requires Distinct(bs[i := b]) && b.addr != 0
    requires d.prev == AddrAt(bs, i - 1) && d.next == AddrAt(bs, i + 1)
    requires Sealed(d) == Image(pool, bs[i := b], i)
    ensures Represents(pool, MoveMap(descs, bs[i].addr, b.addr, d), bs[i := b])
  {
    hide Image, Plain, Sealed, MoveMap, Distinct, HeldAt, Owned;
    var item, moved := bs[i].addr, bs[i := b];
    var final := MoveMap(descs, item, b.addr, d);
    Neighbours(pool, descs, bs, i);
    DistinctAt(moved, i, i - 1);
    DistinctAt(moved, i, i + 1);
    forall k | 0 <= k < |moved|
      ensures HeldAt(pool, final, moved, k)
    {
      MoveHeld(pool, descs, bs, i, b, d, k);
    }
    forall a | a in final
      ensures Owned(moved, a)
    {
      MoveMapAt(descs, item, b.addr, d, a);
      MoveOwned(bs, i, b, a);
    }
  }

  lemma MoveOwned(bs: seq<Block>, i: nat, b: Block, a: nat)
    requires i < |bs| && (a == b.addr || (Owned(bs, a) && a != bs[i].addr))
    ensures Owned(bs[i := b], a)
  {
    if a == b.addr {
      assert bs[i := b][i].addr == a;
    } else {
      var k :| 0 <= k < |bs| && bs[k].addr == a;
      assert bs[i := b][k].addr == a;
    }
  }

  // ---- the allocator underneath ----

  // A region the platform allocator may hand out: not empty, not at 0, inside the address space, apart from
  // everything it has handed out and not got back.
  predicate FreeRegion(raw: map<nat, nat>, at: nat, len: nat) {
    0 < len && 0 < at && at + len <= SIZE_T && forall a :: a in raw ==> Disjoint(a, raw[a], at, len)
  }

  ghost predicate OwnedRaw(bs: seq<Block>, a: nat) {
    exists i :: 0 <= i < |bs| && bs[i].data == a
  }

  ghost predicate RawAt(raw: map<nat, nat>, bs: seq<Block>, i: nat)
    requires i < |bs|
  {
    bs[i].data in raw && raw[bs[i].data] == bs[i].span
  }

  // The live raw allocations are those under the blocks.
  ghost predicate PlatformOk(raw: map<nat, nat>, bs: seq<Block>) {
    && (forall i {:trigger RawAt(raw, bs, i)} :: 0 <= i < |bs| ==> RawAt(raw, bs, i))
    && (forall a {:trigger OwnedRaw(bs, a)} :: a in raw ==> OwnedRaw(bs, a))
  }

  lemma PlatformAppend(raw: map<nat, nat>, bs: seq<Block>, b: Block)
    requires PlatformOk(raw, bs) && Apart(bs) && FreeRegion(raw, b.data, b.span) && b.span > 0
    requires AllHeaded(bs)
    ensures PlatformOk(raw[b.data := b.span], bs + [b]) && Apart(bs + [b])
  {
    var all, n, final := bs + [b], |bs|, raw[b.data := b.span];
    assert forall i :: 0 <= i < n ==> all[i] == bs[i];
    forall i | 0 <= i < n
      ensures Disjoint(all[i].data, all[i].span, b.data, b.span) && RawAt(final, all, i)
    {
      assert RawAt(raw, bs, i) && Headed(bs[i]);
    }
    assert RawAt(final, all, n);
    forall a | a in final
      ensures OwnedRaw(all, a)
    {
      if a == b.data {
        assert all[n].data == a;
      } else {
        assert OwnedRaw(bs, a);
        var i :| 0 <= i < |bs| && bs[i].data == a;
        assert all[i].data == a;
      }
    }
  }

  lemma DataDistinct(bs: seq<Block>, i: nat, j: nat)
    requires Apart(bs) && AllHeaded(bs) && i < |bs| && j < |bs| && i != j
    ensures bs[i].data != bs[j].data
  {
    assert Headed(bs[i]) && Headed(bs[j]);
  }

  // Raw memory that no block stands for, and a block that is not given what it has.
  lemma Unaccounted(raw: map<nat, nat>, bs: seq<Block>, data: nat, ms: nat)
    requires PlatformOk(raw, bs) && AllHeaded(bs) && FreeRegion(raw, data, ms)
    ensures !PlatformOk(raw[data := ms], bs)
  {
    forall i | 0 <= i < |bs|
      ensures bs[i].data != data
    {
      assert RawAt(raw, bs, i) && Headed(bs[i]);
    }
    assert !OwnedRaw(bs, data);
  }

  lemma Miscounted(raw: map<nat, nat>, bs: seq<Block>, i: nat, data: nat, ms: nat)
    requires i < |bs| && AllHeaded(bs) && ms < DESC_SIZE
    ensures !PlatformOk((raw - {bs[i].data})[data := ms], bs)
  {
    assert Headed(bs[i]);
    assert !RawAt((raw - {bs[i].data})[data := ms], bs, i);
  }

  lemma PlatformRemove(raw: map<nat, nat>, bs: seq<Block>, i: nat)
    requires PlatformOk(raw, bs) && Apart(bs) && AllHeaded(bs) && i < |bs|
    ensures PlatformOk(raw - {bs[i].data}, Without(bs, i))
    ensures Apart(Without(bs, i)) && AllHeaded(Without(bs, i))
  {
    var rest, final := Without(bs, i), raw - {bs[i].data};
    forall j | 0 <= j < |rest|
      ensures RawAt(final, rest, j) && rest[j] == bs[Before(i, j)]
    {
      assert RawAt(raw, bs, Before(i, j));
      DataDistinct(bs, i, Before(i, j));
    }
    forall a | a in final
      ensures OwnedRaw(rest, a)
    {
      assert OwnedRaw(bs, a);
      var k :| 0 <= k < |bs| && bs[k].data == a;
      assert rest[if k < i then k else k - 1].data == a;
    }
  }

  lemma PlatformMove(raw: map<nat, nat>, bs: seq<Block>, i: nat, b: Block)
    requires PlatformOk(raw, bs) && Apart(bs) && AllHeaded(bs) && i < |bs| && b.span > 0
    requires FreeRegion(raw - {bs[i].data}, b.data, b.span)
    ensures PlatformOk((raw - {bs[i].data})[b.data := b.span], bs[i := b]) && Apart(bs[i := b])
  {
    var less := raw - {bs[i].data};
    var moved, final := bs[i := b], less[b.data := b.span];
    forall k | 0 <= k < |bs| && k != i
      ensures Disjoint(bs[k].data, bs[k].span, b.data, b.span) && RawAt(final, moved, k)
    {
      assert RawAt(raw, bs, k) && Headed(bs[k]);
      DataDistinct(bs, i, k);
      assert bs[k].data in less;
    }
    assert RawAt(final, moved, i);
    forall a | a in final
      ensures OwnedRaw(moved, a)
    {
      if a == b.data {
        assert moved[i].data == a;
      } else {
        assert OwnedRaw(bs, a);
        var k :| 0 <= k < |bs| && bs[k].data == a;
        assert moved[k].data == a;
      }
    }
  }

  // ---- the pool ----

  // What a call comes to: a pointer, possibly null; the end of the process; or stores outside the raw
  // memory, after which nothing is said of the pool.
  datatype Outcome = Returned(buff: nat) | Aborted | Overrun

  datatype Request =
    | Get(size: nat, choice: nat)
    | GetAligned(align: nat, size: nat, choice: nat)
    | Resize(ptr: nat, size: nat, choice: nat)
    | Release(ptr: nat)

  // How a request of a run ends: as it should, with the process, or with an unsound pool.
  datatype End = Kept | Dead | Harmed

  predicate InSizeT(q: Request) {
    match q
    case Get(size, _) => size < SIZE_T
    case GetAligned(align, size, _) => align < SIZE_T && size < SIZE_T
    case Resize(_, size, _) => size < SIZE_T
    case Release(_) => true
  }

  class Pool {
    const self: nat
    var count: nat
    var usedSize: nat
    var allocSize: nat
    // The first descriptor of the list, 0 when the pool is empty.
    var desc: nat
    // Descriptor memory, the places where a footer stands, and the platform's live allocations.
    var descs: map<nat, Desc>
    var footers: set<nat>
    var raw: map<nat, nat>
    // The allocations, in list order.
    ghost var blocks: seq<Block>

    // The list, its descriptors with their checksums, the counters and the raw memory agree. The sum of
    // the sizes is kept in size_t.
    ghost predicate Core()
      reads this
    {
      && AllHeaded(blocks) && Apart(blocks)
      && Represents(self, descs, blocks)
      && PlatformOk(raw, blocks)
      && desc == AddrAt(blocks, 0)
      && count == |blocks| && usedSize == TotalReal(blocks) && allocSize == TotalSize(blocks) % SIZE_T
    }

    // Moreover every buffer and footer has its room, and the 16-bit fields hold what was stored.
    ghost predicate Valid()
      reads this
    {
      Core() && AllSound(blocks)
    }

    constructor (self: nat)
      ensures Valid() && blocks == [] && this.self == self && raw == map[] && footers == {}
    {
      this.self := self;
      count, usedSize, allocSize, desc := 0, 0, 0, 0;
      descs, footers, raw := map[], {}, map[];
      blocks := [];
    }

    method PlatformAllocate(len: nat, choice: nat) returns (data: nat)
      modifies `raw
      ensures data == if FreeRegion(old(raw), choice, len) then choice else 0
      ensures raw == if data != 0 then old(raw)[data := len] else old(raw)
    {
      data := 0;
      if FreeRegion(raw, choice, len) {
        data := choice;
        raw := raw[data := len];
      }
    }

    // realloc: the old region is given back before the new one is chosen, so it may be chosen again.
    method PlatformReallocate(was: nat, len: nat, choice: nat) returns (data: nat)
      modifies `raw
      ensures data == if FreeRegion(old(raw) - {was}, choice, len) then choice else 0
      ensures raw == if data != 0 then (old(raw) - {was})[data := len] else old(raw)
    {
      data := 0;
      if FreeRegion(raw - {was}, choice, len) {
        data := choice;
        raw := (raw - {was})[data := len];
      }
    }

    method UpdateSum(at: nat)
      modifies `descs
      ensures descs == SealAt(old(descs), at)
    {
      if at in descs {
        descs := descs[at := Sealed(descs[at])];
      }
    }

    // list_first and list_last, from any node of the list.
    method First(from: nat, ghost bs: seq<Block>, ghost k: nat) returns (first: nat)
      requires Linked(descs, bs) && k < |bs| && from == bs[k].addr
      ensures first == bs[0].addr
    {
      first := from;
      ghost var i := k;
      LinkedNonzero(descs, bs);
      assert LinkedAt(descs, bs, i);
      while descs[first].prev != 0
        invariant 0 <= i < |bs| && first == bs[i].addr && LinkedAt(descs, bs, i)
        decreases i
      {
        first := descs[first].prev;
        i := i - 1;
        assert LinkedAt(descs, bs, i);
      }
    }

    method Last(from: nat, ghost bs: seq<Block>, ghost k: nat) returns (last: nat)
      requires Linked(descs, bs) && k < |bs| && from == bs[k].addr
      ensures last == bs[|bs| - 1].addr
    {
      last := from;
      ghost var i := k;
      LinkedNonzero(descs, bs);
      assert LinkedAt(descs, bs, i);
      while descs[last].next != 0
        invariant 0 <= i < |bs| && last == bs[i].addr && LinkedAt(descs, bs, i)
        decreases |bs| - i
      {
        last := descs[last].next;
        i := i + 1;
        assert LinkedAt(descs, bs, i);
      }
    }

    // list_search_one with list_pointer_comparator: is there a node whose data is this descriptor?
    method Search(target: nat, ghost bs: seq<Block>) returns (found: bool)
      requires Linked(descs, bs) && desc == AddrAt(bs, 0)
      ensures found <==> Owned(bs, target)
    {
      LinkedNonzero(descs, bs);
      if desc == 0 {
        return false;
      }
      var cur := First(desc, bs, 0);
      ghost var i := 0;
      found := false;
      while cur != 0
        invariant 0 <= i <= |bs| && cur == AddrAt(bs, i)
        invariant i == |bs| ==> cur == 0
        invariant forall j :: 0 <= j < i ==> bs[j].addr != target
        decreases |bs| - i
      {
        assert LinkedAt(descs, bs, i);
        if descs[cur].listData == target {
          return true;
        }
        cur := descs[cur].next;
        i := i + 1;
      }
    }

    // list_obj_add
    method ListAdd(item: nat, ghost bs: seq<Block>)
      requires Linked(descs, bs) && desc == AddrAt(bs, 0) && item in descs && descs[item].prev == 0
      requires forall i :: 0 <= i < |bs| ==> bs[i].addr != item
      requires 0 !in descs
      modifies `desc, `descs
      ensures desc == if bs == [] then item else bs[0].addr
      ensures descs == Appended(old(descs), AddrAt(bs, |bs| - 1), item)
    {
      LinkedNonzero(descs, bs);
      if desc == 0 {
        assert descs[item].(prev := 0) == descs[item];
        assert descs[item := descs[item]] == descs;
        desc := item;
      } else {
        var last := Last(desc, bs, 0);
        assert LinkedAt(descs, bs, |bs| - 1);
        descs := descs[last := descs[last].(next := item)];
        descs := descs[item := descs[item].(prev := last)];
      }
    }

    // What both ways of allocating end with: a descriptor without links and checksum enters the list.
    method Enter(item: nat, d: Desc, ghost b: Block)
      requires Represents(self, descs, blocks) && AllHeaded(blocks) && Apart(blocks + [b]) && Headed(b)
      requires desc == AddrAt(blocks, 0) && count == |blocks|
      requires usedSize == TotalReal(blocks) && allocSize == TotalSize(blocks) % SIZE_T
      requires item == b.addr && d == Plain(self, [b], 0)
      modifies `descs, `desc, `count, `usedSize, `allocSize
      ensures Represents(self, descs, blocks + [b]) && desc == AddrAt(blocks + [b], 0)
      ensures count == |blocks| + 1
      ensures usedSize == TotalReal(blocks + [b]) && allocSize == TotalSize(blocks + [b]) % SIZE_T
    {
      hide Represents, Image, Sealed, SealAt, Appended, Apart;
      ghost var bs := blocks;
      ghost var last := AddrAt(bs, |bs| - 1);
      AllHeadedAppend(bs, b);
      ApartDistinct(bs + [b]);
      EnterFacts(self, descs, bs, b, d);
      AppendRepresents(self, descs, bs, b, d);
      ghost var before := descs;
      descs := descs[item := d];
      usedSize := (usedSize + d.realSize) % SIZE_T;
      allocSize := (allocSize + d.size) % SIZE_T;
      count := count + 1;
      TotalsJoin(bs, [b]);
      TotalsOne(b);
      RealFits(bs + [b]);
      AddWrapped(TotalSize(bs), b.size);
      ListAdd(item, bs);
      AppendedLinks(before[item := d], bs, item);
      if descs[item].prev != 0 {
        UpdateSum(descs[descs[item].prev].listData);
      }
      // The new block is the last, so there is no next descriptor whose sum would need updating.
      assert descs[item].next == 0;
      UpdateSum(item);
      assert descs == AppendMap(before, last, item, d);
    }

    // What an unaligned request of this size comes to.
    twostate predicate PlainOutcome(size: nat, choice: nat, r: Outcome)
      reads this
    {
      var ms := PlainSize(size);
      var granted := size > 0 && FreeRegion(old(raw), choice, ms);
      && (r.Overrun? <==> granted && ms < DESC_SIZE) && !r.Aborted?
      && (r.Overrun? ==> !Core())
      && (r.Returned? ==> Core() && r.buff == if granted then choice + DESC_SIZE else 0)
      && (r.Returned? && !granted ==> blocks == old(blocks) && footers == old(footers))
      && (r.Returned? && granted ==>
        && blocks == old(blocks) + [Block(choice, choice, size, ms, 0)]
        && footers == Cleared(old(footers), choice, DESC_SIZE) +
             (if size <= SIZE_T - OVERHEAD then {choice + DESC_SIZE + size} else {}))
    }

    // What a request with an alignment comes to.
    twostate predicate AlignedOutcome(align: nat, size: nat, choice: nat, r: Outcome)
      requires 0 < align < SIZE_T
      reads this
    {
      var granted := size > 0 && align % 8 == 0 && FreeRegion(old(raw), choice, RawSize(align, size));
      var offset, rs := AlignedOffset(choice, align), RoundUp(size, align);
      && (r.Overrun? <==> granted && !FitsAt(choice, align, size)) && !r.Aborted?
      && (r.Overrun? ==> !Core())
      && (r.Returned? ==> Core() && r.buff == if granted then choice + offset else 0)
      && (r.Returned? && !granted ==> blocks == old(blocks) && footers == old(footers))
      && (r.Returned? && granted ==>
        && blocks == old(blocks) + [Block(choice + offset - DESC_SIZE, choice, rs, RawSize(align, size), align)]
        && footers == Cleared(old(footers), choice + offset - DESC_SIZE, DESC_SIZE) + {choice + offset + rs})
    }

    // mem_allocate. The choice is the platform allocator's: it is taken if it is free memory. When the
    // sum of the sizes wraps, either the descriptor does not fit what was asked for, or it does and the
    // footer comes to lie over its last field.
    method Allocate(size: nat, choice: nat) returns (r: Outcome)
      requires Core() && size < SIZE_T
      modifies `count, `usedSize, `allocSize, `desc, `descs, `footers, `raw, `blocks
      ensures PlainOutcome(size, choice, r)
      // The pool stays sound exactly if the sum does not wrap.
      ensures r.Returned? && old(Valid()) ==> (Valid() <==> r.buff == 0 || size <= SIZE_T - OVERHEAD)
    {
      hide Represents, PlatformOk, Apart, AllHeaded, FreeRegion, Image, Sealed, AllSound, Cleared, Plain;
      if size <= 0 {
        return Returned(0);
      }
      var ms := (DESC_SIZE + size + HEAD_SIZE) % SIZE_T;
      var data := PlatformAllocate(ms, choice);
      FreeBounds(old(raw), choice, ms);
      if data == 0 {
        return Returned(0);
      }
      if ms < DESC_SIZE {
        Unaccounted(old(raw), blocks, data, ms);
        return Overrun;
      }
      var buff := data + DESC_SIZE;
      PlainFits(size);
      PlainNew(self, data, size, ms);
      Install(data, Desc(MAGIC_DESC, 0, 0, data, self, data, buff, 0, buff - data, 0, size, ms),
        Block(data, data, size, ms, 0), old(raw));
      r := Returned(buff);
    }

    // What both ways of allocating do with raw memory that has room for the descriptor.
    method Install(item: nat, d: Desc, ghost b: Block, ghost raw0: map<nat, nat>)
      requires AllHeaded(blocks) && Apart(blocks) && Represents(self, descs, blocks) && PlatformOk(raw0, blocks)
      requires desc == AddrAt(blocks, 0) && count == |blocks|
      requires usedSize == TotalReal(blocks) && allocSize == TotalSize(blocks) % SIZE_T
      requires Headed(b) && item == b.addr && d == Plain(self, [b], 0)
      requires FreeRegion(raw0, b.data, b.span) && raw == raw0[b.data := b.span]
      requires item + DESC_SIZE + b.size + HEAD_SIZE <= SIZE_T || item + DESC_SIZE - 8 <= b.Foot() < item + DESC_SIZE
      modifies `count, `usedSize, `allocSize, `desc, `descs, `footers, `blocks
      ensures Core() && blocks == old(blocks) + [b]
      ensures footers == Cleared(old(footers), item, DESC_SIZE) +
        (if item + DESC_SIZE + b.size + HEAD_SIZE <= SIZE_T then {b.Foot()} else {})
      ensures old(AllSound(blocks)) ==> (AllSound(blocks) <==> Sound(b))
    {
      hide Represents, PlatformOk, Apart, AllHeaded, FreeRegion, Image, Sealed, AllSound, Plain, Cleared;
      footers := Stamped(footers, item, FootAt(item + DESC_SIZE, d.size));
      StampedIs(old(footers), item, b.size, b.Foot());
      PlatformAppend(raw0, blocks, b);
      AllHeadedAppend(blocks, b);
      assert d.size == b.size by { PlainFields(self, b); }
      Enter(item, d, b);
      SoundAppend(blocks, b);
      blocks := blocks + [b];
    }

    // The buffer is the first multiple of the alignment with room for the descriptor before it, as an
    // address of 64 bits.
    method AlignBuffer(data: nat, align: nat) returns (buff: nat)
      requires 0 < align < SIZE_T && data < SIZE_T
      ensures buff == (data + AlignedOffset(data, align)) % SIZE_T
    {
      hide RoundUp, SkipDesc;
      buff := RoundUp(data, align);
      RoundUpBounds(data, align);
      ghost var gap := Ahead(data, buff);
      while Ahead(data, buff) < DESC_SIZE
        invariant buff < SIZE_T && SkipDesc(Ahead(data, buff), align) == SkipDesc(gap, align)
        decreases StepsLeft(Ahead(data, buff), align)
      {
        StepAround(data, buff, align);
        SkipStep(Ahead(data, buff), align);
        buff := (buff + align) % SIZE_T;
      }
      SkipStep(Ahead(data, buff), align);
      BackAround(data, buff);
    }

    // mem_aligned_allocate. The offset and the alignment are stored in 16 bits.
    method AlignedAllocate(align: nat, size: nat, choice: nat) returns (r: Outcome)
      requires Core() && size < SIZE_T && align < SIZE_T
      modifies `count, `usedSize, `allocSize, `desc, `descs, `footers, `raw, `blocks
      ensures if align == 0 then PlainOutcome(size, choice, r) else AlignedOutcome(align, size, choice, r)
      ensures r.Returned? && old(Valid()) ==>
        (Valid() <==> (r.buff == 0 ||
        (if align == 0 then size <= SIZE_T - OVERHEAD
         else AlignedOffset(choice, align) < UINT16 && align % UINT16 != 0)))
      // For a power of two that is something the caller knows.
      ensures r.Returned? && old(Valid()) ==> forall k: nat ::
        3 <= k <= 63 && align == Bits.Pow2(k) ==> (Valid() <==> r.buff == 0 || align + DESC_SIZE <= UINT16)
    {
      hide Represents, PlatformOk, Apart, AllHeaded, FreeRegion, Image, Sealed, RoundUp, AlignedOffset;
      hide AllSound, Cleared;
      if align == 0 {
        r := Allocate(size, choice);
        return;
      }
      if size <= 0 || align % 8 != 0 {
        return Returned(0);
      }
      var ext := (align * 2 + DESC_SIZE + HEAD_SIZE) % SIZE_T;
      var rs := RoundUp(size, align);
      var ms := RoundUp((rs + ext) % SIZE_T, align);
      assert ms == RawSize(align, size);
      var data := PlatformAllocate(ms, choice);
      FreeBounds(old(raw), choice, ms);
      if data == 0 {
        return Returned(0);
      }
      var buff := AlignBuffer(data, align);
      if !FitsAt(data, align, size) {
        Unaccounted(old(raw), blocks, data, ms);
        return Overrun;
      }
      RoundUpBounds(size, align);
      assert buff == data + AlignedOffset(data, align);
      var item := buff - DESC_SIZE;
      Install(item, Desc(MAGIC_DESC, 0, 0, item, self, data, buff, 0,
        (buff - data) % UINT16, align % UINT16, rs, ms), Block(item, data, rs, ms, align), old(raw));
      PowersStored(data, align);
      r := Returned(buff);
    }

    // What check_buffer tests, in its order.
    predicate HeaderOk(d: Desc, at: nat, buff: nat)
      reads this
    {
      && d.head == MAGIC_DESC
      && d.crc == Sum(d)
      && d.listData == at
      && d.buff == buff
      && d.pool == self
      && d.realSize <= usedSize && d.size <= allocSize
      && buff - d.offset == d.data
    }

    // check_buffer: it also stores the sum it computed.
    method CheckBuffer(at: nat, buff: nat) returns (ok: bool)
      requires at in descs
      modifies `descs
      ensures var d := old(descs)[at]; ok <==>
        && HeaderBytes(d)[..|d.head|] == MAGIC_DESC && d.crc == Crc32.Checksum(HeaderBytes(d.(crc := 0)))
        && d.listData == at && d.buff == buff && d.pool == self
        && d.realSize <= usedSize && d.size <= allocSize && d.data == buff - d.offset
      ensures ok <==> old(HeaderOk(descs[at], at, buff))
      ensures old(HeaderOk(descs[at], at, buff)) ==> descs == old(descs)
      ensures descs == if old(descs)[at].head == MAGIC_DESC then SealAt(old(descs), at) else old(descs)
    {
      hide HeaderBytes;
      var d := descs[at];
      HeadFirst(d);
      if d.head != MAGIC_DESC {
        return false;
      }
      var sum := Sum(d);
      descs := descs[at := d.(crc := sum)];
      if d.crc == sum {
        assert d.(crc := sum) == d && old(descs)[at := d] == old(descs);
      }
      if sum != d.crc || d.listData != at || d.buff != buff || d.pool != self {
        return false;
      }
      if d.realSize > usedSize || d.size > allocSize {
        return false;
      }
      ok := buff - d.offset == d.data;
    }

    // A sealed header in which one field was then changed, in at most four bytes in a row, is refused.
    lemma DamageRefused(at: nat, buff: nat, d: Desc, j: nat)
      requires at in descs && InFields(d) && InFields(descs[at]) && d.crc == Sum(d) && d != descs[at]
      requires j <= 4 && OneField(d, descs[at], j)
      ensures !HeaderOk(descs[at], at, buff)
    {
      hide Sum, OneField, InFields;
      FieldDamageFound(d, descs[at], j);
    }

    // The header of a live block passes the check exactly when its offset fits 16 bits and its size is
    // counted in the pool's sum, which a wrapped sum may not do.
    lemma LiveHeader(i: nat)
      requires Core() && i < |blocks|
      ensures blocks[i].addr in descs
      ensures HeaderOk(descs[blocks[i].addr], blocks[i].addr, blocks[i].Buff()) <==>
        blocks[i].Buff() - blocks[i].data < UINT16 && blocks[i].size <= allocSize
    {
      hide Sum, TotalReal, TotalSize, Apart, PlatformOk, OnlyOwned, AddrAt;
      var b := blocks[i];
      assert HeldAt(self, descs, blocks, i) && Headed(b);
      SumSealed(Plain(self, blocks, i));
      TotalsSplit(blocks, i);
      SmallOffset(b.Buff() - b.data);
    }

    // In a sound pool every header passes.
    lemma SoundHeader(i: nat)
      requires Valid() && i < |blocks|
      ensures Sound(blocks[i]) && blocks[i].size <= allocSize
    {
      assert forall k :: 0 <= k < |blocks| ==> Sound(blocks[k]);
      hide Represents, PlatformOk, TotalReal, TotalSize;
      SizeBelowReal(blocks);
      RealFits(blocks);
      TotalsSplit(blocks, i);
    }

    // list_obj_strip with list_remove
    method Strip(item: nat, ghost bs: seq<Block>, ghost i: nat)
      requires Linked(descs, bs) && Distinct(bs) && desc == AddrAt(bs, 0)
      requires i < |bs| && item == bs[i].addr && 0 !in descs
      modifies `desc, `descs
      ensures desc == AddrAt(Without(bs, i), 0)
      ensures descs == Stripped(old(descs), item, AddrAt(bs, i - 1), AddrAt(bs, i + 1))
    {
      LinkedNonzero(descs, bs);
      assert LinkedAt(descs, bs, i) && LinkedAt(descs, bs, 0);
      DistinctAt(bs, 0, i);
      DistinctAt(bs, i, i - 1);
      DistinctAt(bs, i, i + 1);
      NeighboursLinked(descs, bs, i);
      var prev, next := descs[item].prev, descs[item].next;
      if descs[desc].prev == 0 && descs[desc].next == 0 {
        desc := 0;
      } else if desc == item {
        // The first node has no previous one, so only the next can take its place.
        if next != 0 {
          desc := next;
        }
      }
      if prev != 0 || next != 0 {
        if prev != 0 {
          descs := descs[prev := descs[prev].(next := next)];
        }
        if next != 0 {
          descs := descs[next := descs[next].(prev := prev)];
        }
        descs := descs[item := descs[item].(prev := 0, next := 0)];
      }
    }

    // The second half of mem_free: the block leaves the list and the books, its descriptor is wiped.
    method Drop(item: nat, ghost i: nat)
      requires AllHeaded(blocks) && Apart(blocks) && Represents(self, descs, blocks) && i < |blocks|
      requires count == |blocks| && usedSize == TotalReal(blocks) && allocSize == TotalSize(blocks) % SIZE_T
      requires item == blocks[i].addr && desc == AddrAt(blocks, 0)
      modifies `count, `usedSize, `allocSize, `desc, `descs
      ensures var rest := Without(blocks, i);
        && Represents(self, descs, rest) && desc == AddrAt(rest, 0)
        && count == |rest| && usedSize == TotalReal(rest) && allocSize == TotalSize(rest) % SIZE_T
    {
      hide Represents, Apart, AllHeaded, Image, Sealed, Linked, Without, TotalReal, TotalSize;
      ghost var bs, before := blocks, descs;
      HeldFacts(self, descs, bs, i);
      ApartDistinct(bs);
      RepresentsLinked(self, descs, bs);
      RemoveRepresents(self, descs, bs, i);
      NeighboursLinked(descs, bs, i);
      Neighbours(self, descs, bs, i);
      StrippedRemoved(descs, item, AddrAt(bs, i - 1), AddrAt(bs, i + 1));
      var prev, next := descs[item].prev, descs[item].next;
      var d := descs[item];
      Strip(item, bs, i);
      StrippedAt(before, item, prev, next);
      if prev != 0 {
        UpdateSum(descs[prev].listData);
      }
      if next != 0 {
        UpdateSum(descs[next].listData);
      }
      TotalsRemove(bs, i);
      RealFits(bs);
      TakeWrapped(TotalSize(Without(bs, i)), d.size);
      usedSize := (usedSize - d.realSize) % SIZE_T;
      allocSize := (allocSize - d.size) % SIZE_T;
      count := count - 1;
      descs := descs - {item};
    }

    // mem_free of a live buffer: it aborts exactly when the stored offset was cut off, the sizes'
    // sum has wrapped below this size, or the footer is no longer there. In a sound pool only the
    // footer matters. Otherwise the block leaves the pool and its memory goes back.
    method Free(buff: nat, ghost i: nat) returns (r: Outcome)
      requires Core() && i < |blocks| && buff == blocks[i].Buff()
      modifies `count, `usedSize, `allocSize, `desc, `descs, `raw, `blocks
      ensures var b := old(blocks)[i];
        && !r.Overrun?
        && (r.Aborted? <==> !(buff - b.data < UINT16 && b.size <= old(allocSize) && b.Foot() in footers))
        && (old(Valid()) ==> (r.Aborted? <==> b.Foot() !in footers))
      ensures r.Returned? ==> Core() && (old(Valid()) ==> Valid())
      ensures r.Returned? ==> blocks == Without(old(blocks), i) && raw == old(raw) - {old(blocks)[i].data}
    {
      hide Represents, PlatformOk, Apart, AllHeaded, Image, Sealed, Linked, Without, HeaderOk, AllSound;
      if Valid() {
        SoundHeader(i);
      }
      LiveHeader(i);
      ghost var bs := blocks;
      HeldFacts(self, descs, bs, i);
      var item := buff - DESC_SIZE;
      var ok := CheckBuffer(item, buff);
      if !ok {
        return Aborted;
      }
      if FootAt(buff, descs[item].size) !in footers {
        return Aborted;
      }
      // A live block is in the list, so the search never aborts.
      RepresentsLinked(self, descs, bs);
      var found := Search(item, bs);
      assert found;
      PlatformRemove(raw, bs, i);
      var data := descs[item].data;
      Drop(item, i);
      raw := raw - {data};
      blocks := Without(bs, i);
      SoundRemove(bs, i);
      r := Returned(0);
    }

    // The moving half of mem_reallocate: the platform has moved the memory; the descriptor, read
    // before, is written at its new place and its neighbours are linked to it. It keeps the stored
    // offset, which is right only for a block whose descriptor was at the start of its raw memory.
    method Relocate(item: nat, data: nat, size: nat, ghost i: nat)
      requires AllHeaded(blocks) && Apart(blocks) && Represents(self, descs, blocks) && i < |blocks|
      requires count == |blocks| && usedSize == TotalReal(blocks) && allocSize == TotalSize(blocks) % SIZE_T
      requires item == blocks[i].addr && size < SIZE_T
      requires var c := Block(data, data, size, PlainSize(size), 0);
        Headed(c) && Apart(blocks[i := c])
      modifies `usedSize, `allocSize, `descs
      ensures var moved := blocks[i := Block(data, data, size, PlainSize(size), 0)];
        && AllHeaded(moved) && item in old(descs) && data in descs && descs[data].offset == old(descs)[item].offset
        && (blocks[i].addr == blocks[i].data ==> Represents(self, descs, moved))
        && count == |moved| && usedSize == TotalReal(moved) && allocSize == TotalSize(moved) % SIZE_T
    {
      hide Represents, PlatformOk, Apart, AllHeaded, Image, Sealed, Linked, PlainSize, TotalReal, TotalSize;
      ghost var bs, before := blocks, descs;
      ghost var c := Block(data, data, size, PlainSize(size), 0);
      HeldFacts(self, descs, bs, i);
      ApartDistinct(bs);
      RepresentsLinked(self, descs, bs);
      AllHeadedMove(bs, i, c);
      var ms := PlainSize(size);
      var tmp := descs[item];
      var d := tmp.(data := data, buff := data + DESC_SIZE, align := 0, size := size, realSize := ms,
        listData := data);
      ApartDistinct(bs[i := c]);
      if blocks[i].addr == blocks[i].data {
        MovedDesc(self, bs, i, c, d);
        MoveRepresents(self, descs, bs, i, c, d);
      }
      CountMoved(bs, i, c);
      MoveSteps(descs, item, data, d, bs, i, c);
      MovedIs(self, descs, bs, i, c, d);
      usedSize := ((usedSize - tmp.realSize) % SIZE_T + ms) % SIZE_T;
      allocSize := ((allocSize - tmp.size) % SIZE_T + size) % SIZE_T;
      descs := (descs - {item})[data := d];
      if d.prev != 0 {
        descs := descs[d.prev := descs[d.prev].(next := data)];
        UpdateSum(descs[d.prev].listData);
      }
      if d.next != 0 {
        descs := descs[d.next := descs[d.next].(prev := data)];
        UpdateSum(descs[d.next].listData);
      }
      UpdateSum(data);
      assert descs == MoveMap(before, item, data, d);
    }

    // The second half of mem_reallocate, for a block that passed the tests.
    method Resettle(item: nat, size: nat, choice: nat, ghost i: nat) returns (r: Outcome)
      requires Core() && 0 < size < SIZE_T && i < |blocks| && item == blocks[i].addr
      requires blocks[i].Buff() - blocks[i].data < UINT16
      modifies `usedSize, `allocSize, `descs, `footers, `raw, `blocks
      ensures var b, ms := old(blocks)[i], PlainSize(size);
        var granted := FreeRegion(old(raw) - {b.data}, choice, ms);
        && (r.Aborted? <==> !granted)
        && (r.Overrun? <==> granted && ms < DESC_SIZE)
        && (r.Overrun? ==> !Core())
        && (r.Aborted? ==> descs == old(descs) && raw == old(raw))
        && (r.Returned? ==>
          && r.buff == choice + DESC_SIZE && blocks == old(blocks)[i := Block(choice, choice, size, ms, 0)]
          && footers == Cleared(old(footers) + {FootAt(r.buff, size)}, choice, DESC_SIZE)
          && (Core() <==> (i > 0 || choice == b.data) && b.addr == b.data)
          && (old(AllSound(blocks)) ==> (AllSound(blocks) <==> size <= SIZE_T - OVERHEAD)))
    {
      hide Represents, PlatformOk, Apart, AllHeaded, Image, Sealed, Linked, FreeRegion, AllSound, TotalReal, TotalSize;
      ghost var bs, b := blocks, blocks[i];
      HeldFacts(self, descs, bs, i);
      // A live block is in the list, so the search never aborts.
      RepresentsLinked(self, descs, bs);
      var found := Search(item, bs);
      assert found;
      var ms := (DESC_SIZE + size + HEAD_SIZE) % SIZE_T;
      var data := PlatformReallocate(descs[item].data, ms, choice);
      FreeBounds(old(raw) - {b.data}, choice, ms);
      if data == 0 {
        return Aborted;
      }
      if ms < DESC_SIZE {
        Miscounted(old(raw), blocks, i, data, ms);
        return Overrun;
      }
      ghost var c := Block(data, data, size, ms, 0);
      PlatformMove(old(raw), bs, i, c);
      PlainFits(size);
      hide PlainSize;
      Relocate(item, data, size, i);
      footers := Cleared(footers + {FootAt(data + DESC_SIZE, size)}, data, DESC_SIZE);
      blocks := bs[i := c];
      MovedSound(bs, i, c);
      HeadedAt(bs, i);
      MovedCore(old(descs)[item].offset, i, b);
      r := Returned(data + DESC_SIZE);
    }

    // After a block moved, pool and list agree exactly if the first block did not move away and the
    // block's buffer was right behind the start of its raw memory.
    lemma MovedCore(offset: nat, i: nat, b: Block)
      requires i < |blocks| && AllHeaded(blocks) && Apart(blocks) && PlatformOk(raw, blocks)
      requires count == |blocks| && usedSize == TotalReal(blocks) && allocSize == TotalSize(blocks) % SIZE_T
      requires blocks[i].addr == blocks[i].data && blocks[i].align == 0
      requires blocks[i].addr in descs && descs[blocks[i].addr].offset == offset
      requires b.data <= b.addr && b.Buff() - b.data < UINT16 && offset == b.Buff() - b.data
      requires b.addr == b.data ==> Represents(self, descs, blocks)
      requires desc == if i == 0 then b.addr else AddrAt(blocks, 0)
      ensures Core() <==> (i > 0 || blocks[i].data == b.data) && b.addr == b.data
    {
      hide Represents, PlatformOk, Apart, AllHeaded;
      if Core() {
        HeldFacts(self, descs, blocks, i);
      }
    }

    // What stops mem_reallocate before it asks the platform: the two tests of the old block.
    ghost predicate Passes(b: Block)
      reads this
    {
      b.Buff() - b.data < UINT16 && b.size <= allocSize && b.Foot() in footers
    }

    // mem_reallocate of a live buffer. A refusal by the platform aborts. A block that moves keeps its
    // place in the list, but when the first block moves the pool goes on pointing at its old place, and
    // a block whose stored alignment was lost is taken for an unaligned one.
    method Reallocate(ptr: nat, size: nat, choice: nat, ghost i: nat) returns (r: Outcome)
      requires Core() && size < SIZE_T
      requires ptr != 0 ==> i < |blocks| && ptr == blocks[i].Buff()
      modifies `usedSize, `allocSize, `descs, `footers, `raw, `blocks
      ensures ptr == 0 || size == 0 ==> r == Returned(0) && blocks == old(blocks) && footers == old(footers) && Core()
      ensures ptr != 0 && size != 0 ==> var b, ms := old(blocks)[i], PlainSize(size);
        var passes := old(Passes(blocks[i]));
        var asks := passes && b.align % UINT16 == 0 && b.size != size;
        var granted := FreeRegion(old(raw) - {b.data}, choice, ms);
        && (r.Aborted? <==> !passes || (asks && !granted))
        && (r.Overrun? <==> asks && granted && ms < DESC_SIZE)
        && (r.Overrun? ==> !Core())
        && (r.Aborted? && passes ==> descs == old(descs) && raw == old(raw))
        && (r.Returned? && !asks ==>
          && r.buff == (if b.align % UINT16 != 0 then 0 else ptr) && Core()
          && blocks == old(blocks) && footers == old(footers))
        && (r.Returned? && asks ==>
          && r.buff == choice + DESC_SIZE && blocks == old(blocks)[i := Block(choice, choice, size, ms, 0)]
          && footers == Cleared(old(footers) + {FootAt(r.buff, size)}, choice, DESC_SIZE)
          && (Core() <==> (i > 0 || choice == b.data) && b.addr == b.data))
      // A sound pool stays sound exactly if the sum does not wrap and the first block does not move.
      ensures r.Returned? && old(Valid()) ==>
        (Valid() <==> (blocks == old(blocks) ||
        (size <= SIZE_T - OVERHEAD && (i > 0 || choice == old(blocks)[i].data))))
    {
      hide Represents, PlatformOk, Apart, AllHeaded, Image, Sealed, Linked, HeaderOk, FreeRegion, AllSound;
      if ptr == 0 || size <= 0 {
        return Returned(0);
      }
      if Valid() {
        SoundHeader(i);
      }
      LiveHeader(i);
      ghost var bs := blocks;
      HeldFacts(self, descs, bs, i);
      var item := ptr - DESC_SIZE;
      var ok := CheckBuffer(item, ptr);
      if !ok {
        return Aborted;
      }
      if FootAt(ptr, descs[item].size) !in footers {
        return Aborted;
      }
      if descs[item].align != 0 {
        return Returned(0);
      }
      if descs[item].size == size {
        return Returned(ptr);
      }
      r := Resettle(item, size, choice, i);
    }

    // ---- runs ----

    ghost predicate AllIntact()
      reads this
    {
      Intact(blocks, footers)
    }

    // The platform has no room for the resized block at the place it is asked for.
    ghost predicate Refused(q: Request)
      reads this
    {
      && q.Resize? && DESC_SIZE <= q.ptr && q.ptr - DESC_SIZE in descs
      && !FreeRegion(raw - {descs[q.ptr - DESC_SIZE].data}, q.choice, PlainSize(q.size))
    }

    // The requests that may leave the pool unsound: a sum that wraps, an alignment that the 16-bit
    // fields cannot hold, a resize that moves the first block.
    predicate Harmful(q: Request)
      reads this
    {
      match q
      case Get(size, _) => size > SIZE_T - OVERHEAD
      case GetAligned(align, size, _) =>
        if align == 0 then size > SIZE_T - OVERHEAD
        else align + DESC_SIZE > UINT16 || !NoWrap(align, size)
      case Resize(ptr, size, choice) =>
        size > SIZE_T - OVERHEAD || (ptr == desc + DESC_SIZE && choice != desc)
      case Release(_) => false
    }

    // One request of a client that passes only live buffers; others are passed over.
    method Serve(q: Request) returns (end: End)
      requires Valid() && AllIntact() && InSizeT(q)
      modifies this
      ensures desc == old(desc) || !q.Resize?
      ensures end == Kept ==> Valid() && AllIntact()
      ensures end == Dead ==> Refused(q)
      ensures end == Harmed ==> Harmful(q) && !Valid()
    {
      hide Core, AllSound, RoundUp, SkipDesc, AlignedOffset, RawSize, FreeRegion, Intact, Without, NoWrap, Cleared;
      end := Kept;
      ghost var bs, feet := blocks, footers;
      match q {
        case Get(size, choice) =>
          end := ServePlain(size, choice);
        case GetAligned(align, size, choice) =>
          end := ServeAligned(align, size, choice);
        case Resize(ptr, size, choice) =>
          if DESC_SIZE <= ptr && ptr - DESC_SIZE in descs {
            end := ServeResize(ptr, size, choice);
          }
        case Release(ptr) =>
          if DESC_SIZE <= ptr && ptr - DESC_SIZE in descs {
            ghost var i := Index(ptr - DESC_SIZE);
            IntactRemove(bs, feet, i);
            var r := Free(ptr, i);
          }
      }
    }

    method ServePlain(size: nat, choice: nat) returns (end: End)
      requires Valid() && AllIntact() && size < SIZE_T
      modifies `count, `usedSize, `allocSize, `desc, `descs, `footers, `raw, `blocks
      ensures end != Dead && (end == Kept ==> Valid() && AllIntact())
      ensures end == Harmed ==> size > SIZE_T - OVERHEAD && !Valid()
    {
      hide Core, AllSound, FreeRegion, Intact, Cleared;
      ghost var bs, feet := blocks, footers;
      var r := Allocate(size, choice);
      FreeBounds(old(raw), choice, PlainSize(size));
      if size > 0 {
        PlainFits(size);
      }
      if r.Overrun? || (r.buff != 0 && size > SIZE_T - OVERHEAD) {
        return Harmed;
      }
      if r.buff != 0 {
        CoreFacts();
        IntactAppend(bs, feet, blocks[|bs|]);
      }
      end := Kept;
    }

    method ServeAligned(align: nat, size: nat, choice: nat) returns (end: End)
      requires Valid() && AllIntact() && size < SIZE_T && align < SIZE_T
      modifies `count, `usedSize, `allocSize, `desc, `descs, `footers, `raw, `blocks
      ensures end != Dead && (end == Kept ==> Valid() && AllIntact())
      ensures end == Harmed ==> Harmful(GetAligned(align, size, choice)) && !Valid()
    {
      hide Core, AllSound, RoundUp, AlignedOffset, RawSize, Intact, NoWrap, Cleared;
      if align == 0 {
        end := ServePlain(size, choice);
        return;
      }
      ghost var bs, feet := blocks, footers;
      if FreeRegion(raw, choice, RawSize(align, size)) && NoWrap(align, size) {
        AlignedFits(choice, align, size);
      }
      hide FreeRegion;
      var r := AlignedAllocate(align, size, choice);
      if r.Overrun? || (r.buff != 0 && !(AlignedOffset(choice, align) < UINT16 && align % UINT16 != 0)) {
        return Harmed;
      }
      if r.buff != 0 {
        CoreFacts();
        IntactAppend(bs, feet, blocks[|bs|]);
      }
      end := Kept;
    }

    method ServeResize(ptr: nat, size: nat, choice: nat) returns (end: End)
      requires Valid() && AllIntact() && size < SIZE_T && DESC_SIZE <= ptr && ptr - DESC_SIZE in descs
      modifies `usedSize, `allocSize, `descs, `footers, `raw, `blocks
      ensures end == Kept ==> Valid() && AllIntact()
      ensures end == Dead ==> Refused(Resize(ptr, size, choice))
      ensures end == Harmed ==>
        (size > SIZE_T - OVERHEAD || (ptr == desc + DESC_SIZE && choice != desc)) && !Valid()
    {
      hide Core, AllSound, FreeRegion, Intact, Cleared;
      ghost var bs, feet := blocks, footers;
      ghost var i := Index(ptr - DESC_SIZE);
      SoundHeader(i);
      IntactRemove(bs, feet, i);
      var d := descs[ptr - DESC_SIZE];
      var r := Reallocate(ptr, size, choice, i);
      FreeBounds(old(raw) - {bs[i].data}, choice, PlainSize(size));
      if size > 0 {
        PlainFits(size);
      }
      if r.Aborted? {
        return Dead;
      }
      var resized := size != 0 && d.align == 0 && d.size != size;
      if r.Overrun? || (resized && (size > SIZE_T - OVERHEAD || (ptr == desc + DESC_SIZE && choice != desc))) {
        return Harmed;
      }
      if resized {
        CoreFacts();
        assert Headed(blocks[i]);
        IntactMove(bs, feet, i, Block(choice, choice, size, PlainSize(size), 0));
      }
      end := Kept;
    }

    lemma CoreFacts()
      requires Core()
      ensures AllHeaded(blocks) && Apart(blocks)
    {
    }

    lemma Index(at: nat) returns (i: nat)
      requires Valid() && at in descs
      ensures i < |blocks| && blocks[i].addr == at && Sound(blocks[i])
      ensures var d, b := descs[at], blocks[i];
        d.data == b.data && d.size == b.size && d.align == b.align % UINT16
      ensures i > 0 <==> desc != at
    {
      assert Owned(blocks, at);
      var k :| 0 <= k < |blocks| && blocks[k].addr == at;
      i := k;
      HeldFacts(self, descs, blocks, i);
      ApartDistinct(blocks);
      DistinctAt(blocks, i, 0);
    }

    // A run goes on until the process dies or a request leaves the pool unsound. It dies only when the
    // platform refuses a resize, and it is only harmed by a request whose sum wraps, whose alignment
    // does not fit 16 bits, or that moves the first block.
    method Run(requests: seq<Request>) returns (end: End, at: nat)
      requires Valid() && AllIntact() && forall q :: q in requests ==> InSizeT(q)
      modifies this
      ensures if end == Kept then at == |requests| && Valid() && AllIntact() else at < |requests|
      ensures end == Dead ==> Refused(requests[at])
      ensures end == Harmed ==> Harmful(requests[at]) && !Valid()
      ensures end == Kept && blocks == [] ==>
        count == 0 && usedSize == 0 && allocSize == 0 && desc == 0 && descs == map[] && raw == map[]
    {
      end, at := Kept, 0;
      while at < |requests|
        invariant end == Kept && at <= |requests| && Valid() && AllIntact()
      {
        end := Serve(requests[at]);
        if end != Kept {
          return;
        }
        at := at + 1;
      }
      if blocks == [] {
        EmptyPool();
      }
    }

    // The largest request of all: it is granted 87 bytes, and freeing the buffer, untouched, aborts.
    method FreeLargest(choice: nat) returns (r: Outcome)
      requires Valid() && FreeRegion(raw, choice, 87)
      modifies `count, `usedSize, `allocSize, `desc, `descs, `footers, `raw, `blocks
      ensures r.Aborted?
    {
      LargestRequest(choice);
      ghost var i := |blocks|;
      var buffer := Allocate(SIZE_T - 1, choice);
      r := Free(buffer.buff, i);
    }

    // A pool whose allocations were all freed holds nothing and has given everything back.
    lemma EmptyPool()
      requires Core()
      ensures blocks == [] <==> count == 0
      ensures blocks == [] ==>
        count == 0 && usedSize == 0 && allocSize == 0 && desc == 0 && descs == map[] && raw == map[]
    {
      if blocks == [] {
        assert forall a :: a in descs ==> Owned(blocks, a);
        assert forall a :: a in raw ==> OwnedRaw(blocks, a);
      }
    }
  }

  ghost predicate Intact(bs: seq<Block>, footers: set<nat>) {
    forall i :: 0 <= i < |bs| ==> bs[i].Foot() in footers
  }

  lemma IntactAppend(bs: seq<Block>, footers: set<nat>, b: Block)
    requires Intact(bs, footers) && AllSound(bs) && Apart(bs + [b]) && Headed(b)
    ensures Intact(bs + [b], Cleared(footers, b.addr, DESC_SIZE) + {b.Foot()})
  {
    var all := bs + [b];
    forall i | 0 <= i < |bs|
      ensures all[i].Foot() in Cleared(footers, b.addr, DESC_SIZE)
    {
      assert all[i] == bs[i] && Sound(bs[i]) && all[|bs|] == b;
      assert Disjoint(all[i].data, all[i].span, all[|bs|].data, all[|bs|].span);
    }
  }

  lemma IntactRemove(bs: seq<Block>, footers: set<nat>, i: nat)
    requires Intact(bs, footers) && i < |bs|
    ensures Intact(Without(bs, i), footers) && bs[i].Foot() in footers
  {
  }

  lemma IntactMove(bs: seq<Block>, footers: set<nat>, i: nat, b: Block)
    requires Intact(bs, footers) && AllSound(bs) && i < |bs| && Apart(bs[i := b]) && Placed(b)
    ensures Intact(bs[i := b], Cleared(footers + {b.Foot()}, b.addr, DESC_SIZE))
  {
    var moved := bs[i := b];
    forall k | 0 <= k < |bs|
      ensures moved[k].Foot() in Cleared(footers + {b.Foot()}, b.addr, DESC_SIZE)
    {
      if k != i {
        assert moved[k] == bs[k] && Sound(bs[k]) && moved[i] == b;
        assert Disjoint(moved[k].data, moved[k].span, b.data, b.span);
      }
    }
  }

  lemma HeadedAt(bs: seq<Block>, i: nat)
    requires AllHeaded(bs) && i < |bs|
    ensures Headed(bs[i])
  {
  }

  lemma AllHeadedMove(bs: seq<Block>, i: nat, b: Block)
    requires AllHeaded(bs) && i < |bs| && Headed(b)
    ensures AllHeaded(bs[i := b])
  {
  }

  lemma SoundMove(bs: seq<Block>, i: nat, b: Block)
    requires i < |bs|
    ensures AllSound(bs) ==> (AllSound(bs[i := b]) <==> Sound(b))
  {
    assert bs[i := b][i] == b;
  }

  lemma TotalsMove(bs: seq<Block>, i: nat, b: Block)
    requires i < |bs|
    ensures TotalReal(bs[i := b]) == TotalReal(bs) - bs[i].span + b.span && TotalReal(bs) >= bs[i].span
    ensures TotalSize(bs[i := b]) == TotalSize(bs) - bs[i].size + b.size && TotalSize(bs) >= bs[i].size
  {
    TotalsSplit(bs, i);
    TotalsSplit(bs[i := b], i);
    assert bs[i := b][..i] == bs[..i] && bs[i := b][i + 1..] == bs[i + 1..];
  }

  // The descriptor copied to its new place, once sealed.
  lemma MovedDesc(pool: nat, bs: seq<Block>, i: nat, b: Block, d: Desc)
    requires i < |bs| && b.addr == b.data && b.align == 0
    requires d.prev == AddrAt(bs, i - 1) && d.next == AddrAt(bs, i + 1) && d.listData == b.addr
    requires d.head == MAGIC_DESC && d.pool == pool && d.data == b.data && d.buff == b.Buff()
    requires d.offset == DESC_SIZE && d.align == 0 && d.size == b.size && d.realSize == b.span
    ensures Sealed(d) == Image(pool, bs[i := b], i)
  {
    hide Sealed;
    SealAgain(d, 0);
    assert d.(crc := 0) == Plain(pool, bs[i := b], i);
  }

  lemma MovedSound(bs: seq<Block>, i: nat, b: Block)
    requires i < |bs| && Headed(b) && b.addr == b.data && b.align == 0 && 0 < b.size
    requires b.span == PlainSize(b.size)
    ensures AllSound(bs) ==> (AllSound(bs[i := b]) <==> b.size <= SIZE_T - OVERHEAD)
  {
    PlainFits(b.size);
    SoundMove(bs, i, b);
  }

  // A moved descriptor is where it was put, with the offset it had.
  lemma MovedIs(pool: nat, descs: map<nat, Desc>, bs: seq<Block>, i: nat, b: Block, d: Desc)
    requires Represents(pool, descs, bs) && Distinct(bs) && i < |bs| && 0 !in descs
    requires Distinct(bs[i := b]) && b.addr != 0
    requires d.prev == AddrAt(bs, i - 1) && d.next == AddrAt(bs, i + 1)
    ensures var m := MoveMap(descs, bs[i].addr, b.addr, d);
      b.addr in m && m[b.addr].offset == d.offset
  {
    hide Image, MoveMap, Distinct, HeaderBytes;
    Neighbours(pool, descs, bs, i);
    DistinctAt(bs[i := b], i, i - 1);
    DistinctAt(bs[i := b], i, i + 1);
    MoveMapAt(descs, bs[i].addr, b.addr, d, b.addr);
  }

  lemma TakeWrapped(rest: nat, size: nat)
    ensures ((rest + size) % SIZE_T - size) % SIZE_T == rest % SIZE_T
  {
  }

  lemma Unwrapped(total: nat, was: nat, now: nat)
    requires was <= total < SIZE_T && total - was + now < SIZE_T
    ensures ((total - was) % SIZE_T + now) % SIZE_T == total - was + now
  {
  }

  // The counters after a block was replaced by another.
  lemma CountMoved(bs: seq<Block>, i: nat, c: Block)
    requires i < |bs| && AllHeaded(bs) && Apart(bs) && AllHeaded(bs[i := c]) && Apart(bs[i := c])
    ensures ((TotalReal(bs) - bs[i].span) % SIZE_T + c.span) % SIZE_T == TotalReal(bs[i := c])
    ensures ((TotalSize(bs) % SIZE_T - bs[i].size) % SIZE_T + c.size) % SIZE_T == TotalSize(bs[i := c]) % SIZE_T
  {
    hide AllHeaded, Apart, TotalReal, TotalSize;
    TotalsMove(bs, i, c);
    RealFits(bs);
    RealFits(bs[i := c]);
    Unwrapped(TotalReal(bs), bs[i].span, c.span);
    MoveWrapped(TotalSize(bs), bs[i].size, c.size);
  }

  lemma MoveWrapped(total: nat, was: nat, size: nat)
    requires was <= total
    ensures ((total % SIZE_T - was) % SIZE_T + size) % SIZE_T == (total - was + size) % SIZE_T
  {
  }

  // The moved descriptor in place, its neighbours not yet relinked: what is still to be read.
  lemma MoveSteps(descs: map<nat, Desc>, item: nat, at: nat, d: Desc, bs: seq<Block>, i: nat, c: Block)
    requires Linked(descs, bs) && Distinct(bs) && i < |bs| && item == bs[i].addr && 0 !in descs
    requires Distinct(bs[i := c]) && c.addr == at && at != 0
    requires d.prev == AddrAt(bs, i - 1) && d.next == AddrAt(bs, i + 1)
    ensures var m := (descs - {item})[at := d];
      && 0 !in m
      && (d.prev != 0 ==> d.prev in m && m[d.prev].listData == d.prev && d.prev != at)
      && (d.next != 0 ==> d.next in m && m[d.next].listData == d.next && d.next != at && d.next != d.prev)
  {
    NeighboursLinked(descs, bs, i);
    DistinctAt(bs, i, i - 1);
    DistinctAt(bs, i, i + 1);
    DistinctAt(bs[i := c], i, i - 1);
    DistinctAt(bs[i := c], i, i + 1);
  }

  lemma HeldFacts(pool: nat, descs: map<nat, Desc>, bs: seq<Block>, i: nat)
    requires Represents(pool, descs, bs) && i < |bs|
    ensures bs[i].addr in descs && Owned(bs, bs[i].addr)
    ensures var d, b := descs[bs[i].addr], bs[i];
      && d.prev == AddrAt(bs, i - 1) && d.next == AddrAt(bs, i + 1) && d.listData == b.addr
      && d.data == b.data && d.size == b.size && d.realSize == b.span && d.pool == pool
      && d.buff == b.Buff() && d.align == b.align % UINT16 && d.head == MAGIC_DESC
      && d.offset == (b.Buff() - b.data) as int % UINT16
  {
    assert HeldAt(pool, descs, bs, i);
  }

  // Unlinking and then sealing the neighbours: what is still to be read of them.
  lemma StrippedAt(descs: map<nat, Desc>, item: nat, prev: nat, next: nat)
    requires item in descs && prev != item && next != item && 0 !in descs
    requires prev != 0 ==> prev in descs && descs[prev].listData == prev && prev != next
    requires next != 0 ==> next in descs && descs[next].listData == next
    ensures var m := Stripped(descs, item, prev, next);
      && item in m && 0 !in m
      && (prev != 0 ==> prev in m && m[prev].listData == prev)
      && (next != 0 ==> next in m && m[next].listData == next)
      && (next != 0 ==> next in SealAt(m, prev) && SealAt(m, prev)[next].listData == next)
      && SealAt(m, 0) == m
      && 0 !in SealAt(m, prev)
  {
    hide Sealed;
  }

  lemma TotalsRemove(bs: seq<Block>, i: nat)
    requires i < |bs|
    ensures TotalReal(bs) == TotalReal(Without(bs, i)) + bs[i].span
    ensures TotalSize(bs) == TotalSize(Without(bs, i)) + bs[i].size
    ensures |Without(bs, i)| == |bs| - 1
  {
    TotalsSplit(bs, i);
    TotalsJoin(bs[..i], bs[i + 1..]);
  }

  lemma SoundRemove(bs: seq<Block>, i: nat)
    requires i < |bs|
    ensures AllSound(bs) ==> AllSound(Without(bs, i))
  {
  }

  lemma FreeBounds(raw: map<nat, nat>, at: nat, len: nat)
    ensures FreeRegion(raw, at, len) ==> 0 < at && 0 < len && at + len <= SIZE_T
  {
  }

  lemma PlainNew(pool: nat, data: nat, size: nat, ms: nat)
    ensures Plain(pool, [Block(data, data, size, ms, 0)], 0) ==
            Desc(MAGIC_DESC, 0, 0, data, pool, data, data + DESC_SIZE, 0, DESC_SIZE, 0, size, ms)
  {
  }

  lemma PlainFields(pool: nat, b: Block)
    ensures Plain(pool, [b], 0).size == b.size
  {
  }

  lemma AddWrapped(total: nat, size: nat)
    ensures (total % SIZE_T + size) % SIZE_T == (total + size) % SIZE_T
  {
  }

  // The stores of a new descriptor: it is zeroed and marked, then the footer, then its fields.
  function Stamped(footers: set<nat>, item: nat, foot: nat): set<nat> {
    Cleared(Cleared(footers, item, DESC_SIZE) + {foot}, item + HEAD_SIZE, DESC_SIZE - HEAD_SIZE)
  }

  lemma StampedIs(footers: set<nat>, item: nat, size: nat, foot: nat)
    requires foot == FootAt(item + DESC_SIZE, size)
    requires item + DESC_SIZE + size + HEAD_SIZE <= SIZE_T || item + DESC_SIZE - 8 <= foot < item + DESC_SIZE
    ensures Stamped(footers, item, foot) == Cleared(footers, item, DESC_SIZE) +
      (if item + DESC_SIZE + size + HEAD_SIZE <= SIZE_T then {foot} else {})
  {
  }

  lemma SoundAppend(bs: seq<Block>, b: Block)
    ensures AllSound(bs) ==> (AllSound(bs + [b]) <==> Sound(b))
  {
    var all := bs + [b];
    assert all[|bs|] == b;
    if AllSound(bs) && Sound(b) {
      forall i | 0 <= i < |all|
        ensures Sound(all[i])
      {
        assert i < |bs| ==> all[i] == bs[i];
      }
    }
  }

  lemma PowersStored(data: nat, align: nat)
    requires 0 < align < SIZE_T && 0 < data && data + AlignedOffset(data, align) < SIZE_T
    ensures forall k: nat :: 3 <= k <= 63 && align == Bits.Pow2(k) ==>
      (AlignedOffset(data, align) < UINT16 && align % UINT16 != 0 <==> align + DESC_SIZE <= UINT16)
  {
    forall k: nat | 3 <= k <= 63 && align == Bits.Pow2(k)
      ensures AlignedOffset(data, align) < UINT16 && align % UINT16 != 0 <==> align + DESC_SIZE <= UINT16
    {
      AlignmentStored(k, align);
      PowerBelow(k);
      SixteenBits(k);
      if align + DESC_SIZE <= UINT16 {
        BelowTop(data, align);
      }
    }
  }

  lemma AllHeadedAppend(bs: seq<Block>, b: Block)
    requires AllHeaded(bs) && Headed(b)
    ensures AllHeaded(bs + [b])
  {
  }

  // The links of a descriptor that was just put behind the last one.
  lemma AppendedLinks(descs: map<nat, Desc>, bs: seq<Block>, item: nat)
    requires Linked(descs, bs) && item in descs && 0 !in descs && descs[item].next == 0
    requires forall i :: 0 <= i < |bs| ==> bs[i].addr != item
    ensures var last, linked := AddrAt(bs, |bs| - 1), Appended(descs, AddrAt(bs, |bs| - 1), item);
      && item in linked && linked[item].prev == last && linked[item].next == 0
      && (last == 0 ==> SealAt(linked, last) == linked)
      && (last != 0 ==> last in linked && linked[last].listData == last)
      && forall m {:trigger SealAt(linked, m)} :: m != item ==>
        item in SealAt(linked, m) && SealAt(linked, m)[item] == linked[item]
  {
    LinkedNonzero(descs, bs);
    if bs != [] {
      assert LinkedAt(descs, bs, |bs| - 1);
    }
    hide Sealed;
  }

  // A pool whose new block is not yet in the list.
  lemma EnterFacts(pool: nat, descs: map<nat, Desc>, bs: seq<Block>, b: Block, d: Desc)
    requires Represents(pool, descs, bs) && AllHeaded(bs) && Distinct(bs + [b]) && Headed(b)
    requires d == Plain(pool, [b], 0)
    ensures b.addr !in descs && 0 !in descs && b.addr != 0
    ensures Linked(descs[b.addr := d], bs) && Sealed(d) == Image(pool, [b], 0)
    ensures forall i :: 0 <= i < |bs| ==> bs[i].addr != b.addr
  {
    hide Sealed;
    RepresentsLinked(pool, descs, bs);
    forall i {:trigger bs[i]} | 0 <= i < |bs|
      ensures bs[i].addr != b.addr
    {
      DistinctAt(bs + [b], i, |bs|);
    }
    assert !Owned(bs, b.addr);
    var more := descs[b.addr := d];
    forall i | 0 <= i < |bs|
      ensures LinkedAt(more, bs, i)
    {
      assert LinkedAt(descs, bs, i);
    }
  }
}
