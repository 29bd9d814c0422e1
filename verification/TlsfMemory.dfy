// How the words of memory encode headers and links, and which words an operation
// may write.
module TlsfMemory {
  import opened SizeClass
  import opened TlsfHeap
  import opened TlsfLists

  // sizeof(control_t): the null block, 26 bitmap words, 800 list heads.
  const CONTROL_SIZE := 6536

  // The two words that make up a header: the size word and, at the end of the
  // previous block's payload, the pointer to that block.
  predicate WordOk(mem: Memory, hdr: Headers, pools: Pools, a: nat)
    requires a in hdr
  {
    && a + 8 in mem && mem[a + 8] == Tag(hdr[a].size, hdr[a].free, hdr[a].prevFree)
    && (a !in pools && hdr[a].prevFree ==> a in mem && mem[a] == hdr[a].prev)
  }

  // next_free and prev_free, at the start of a free block's payload.
  predicate LinkWordOk(mem: Memory, hdr: Headers, links: Links, a: nat)
    requires a in links
  {
    && Plain(hdr, a) && hdr[a].free && links[a].cls == MappingInsert(hdr[a].size)
    && a + 16 in mem && mem[a + 16] == links[a].next
    && a + 24 in mem && mem[a + 24] == links[a].prev
  }

  // The words of a block exist, and are not those of the control structure.
  ghost predicate Backed(dom: set<nat>, hdr: Headers, nil: nat, a: nat)
    requires a in hdr
  {
    && (forall w :: a + 8 <= w < a + 16 + hdr[a].size && w % 8 == 0 ==> w in dom)
    && (a + 16 + hdr[a].size <= nil || nil + CONTROL_SIZE <= a + 8)
  }

  ghost predicate Encodes(mem: Memory, hdr: Headers, links: Links, pools: Pools, nil: nat) {
    && nil + 16 in mem && nil + 24 in mem
    && (forall a {:trigger WordOk(mem, hdr, pools, a)} :: a in hdr ==> WordOk(mem, hdr, pools, a))
    && (forall a {:trigger Backed(mem.Keys, hdr, nil, a)} :: a in hdr ==> Backed(mem.Keys, hdr, nil, a))
    && (forall a {:trigger LinkWordOk(mem, hdr, links, a)} :: a in links ==> LinkWordOk(mem, hdr, links, a))
  }

  // Word w belongs to neither a size field, nor a free block, nor the null block.
  predicate Clear(hdr: Headers, nil: nat, a: nat, w: nat)
    requires a in hdr
  {
    && w != a + 8
    && (hdr[a].free ==> w < a + 8 || w >= a + 16 + hdr[a].size)
    && (w < nil || w >= nil + HEADER_SIZE)
  }

  ghost predicate Protects(keep: set<nat>, hdr: Headers, nil: nat) {
    forall a, w {:trigger Clear(hdr, nil, a, w)} :: a in hdr && w in keep ==> Clear(hdr, nil, a, w)
  }

  predicate AgreeOutside(mem: Memory, m: Memory, lo: nat, hi: nat) {
    m.Keys == mem.Keys && forall w :: w in m && (w < lo || w > hi) ==> m[w] == mem[w]
  }

  // Writing between block a's size word and its neighbour's disturbs no other block.
  lemma OthersKept(mem: Memory, m: Memory, hdr: Headers, pools: Pools, a: nat, c: nat)
    requires Layout(hdr, pools) && Plain(hdr, a) && Next(hdr, a) in hdr
    requires AgreeOutside(mem, m, a + 8, Next(hdr, a) + 8)
    requires c in hdr && c != a && c != Next(hdr, a)
    requires WordOk(mem, hdr, pools, c)
    ensures WordOk(m, hdr, pools, c)
  {
    var n := Next(hdr, a);
    assert Apart(hdr, c, a) && Apart(hdr, a, c) && Apart(hdr, n, c);
    assert SentinelOk(hdr, pools, n);
  }

  lemma LinksKept(mem: Memory, m: Memory, hdr: Headers, links: Links, pools: Pools, a: nat, b: nat)
    requires Layout(hdr, pools) && Plain(hdr, a) && Next(hdr, a) in hdr
    requires AgreeOutside(mem, m, a + 8, Next(hdr, a) + 8)
    requires b in links && b != a && LinkWordOk(mem, hdr, links, b)
    ensures LinkWordOk(m, hdr, links, b)
  {
    assert Apart(hdr, b, a) && Apart(hdr, a, b) && GoodBlock(hdr, b);
  }

  // ---- Marking ----

  function MarkFreeMem(mem: Memory, a: nat, n: nat): Memory
    requires a + 8 in mem && n + 8 in mem && n != a + 8
  {
    mem[n := a][n + 8 := SetPrevFree(mem[n + 8])][a + 8 := SetFree(mem[a + 8])]
  }

  function MarkUsedMem(mem: Memory, a: nat, n: nat): Memory
    requires a + 8 in mem && n + 8 in mem
  {
    mem[n + 8 := SetPrevUsed(mem[n + 8])][a + 8 := SetUsed(mem[a + 8])]
  }

  lemma MarkFreeEncodes(mem: Memory, hdr: Headers, links: Links, pools: Pools, nil: nat, a: nat)
    requires Layout(hdr, pools) && PoolsOk(hdr, pools) && Encodes(mem, hdr, links, pools, nil)
    requires Plain(hdr, a) && Next(hdr, a) in hdr && a !in links
    requires WordOk(mem, hdr, pools, a) && WordOk(mem, hdr, pools, Next(hdr, a))
    ensures Next(hdr, a) in mem
    ensures Encodes(MarkFreeMem(mem, a, Next(hdr, a)), MarkFree(hdr, a), links, pools, nil)
  {
    hide MappingInsert, Tag, SetFree, SetPrevFree, BlockSize, IsFree, IsPrevFree, SetUsed, SetPrevUsed, SetSize;
    var n := Next(hdr, a);
    assert Backed(mem.Keys, hdr, nil, a);
    assert GoodBlock(hdr, a) && GoodBlock(hdr, n);
    Untag(hdr[a].size, hdr[a].free, hdr[a].prevFree);
    Untag(hdr[n].size, hdr[n].free, hdr[n].prevFree);
    var m := MarkFreeMem(mem, a, n);
    var h := MarkFree(hdr, a);
    assert AgreeOutside(mem, m, a + 8, n + 8);
    forall c | c in h
      ensures WordOk(m, h, pools, c) && Backed(m.Keys, h, nil, c)
    {
      assert WordOk(mem, hdr, pools, c) && Backed(mem.Keys, hdr, nil, c);
      if c != a && c != n {
        OthersKept(mem, m, hdr, pools, a, c);
      }
    }
    forall b | b in links
      ensures LinkWordOk(m, h, links, b)
    {
      assert LinkWordOk(mem, hdr, links, b);
      LinksKept(mem, m, hdr, links, pools, a, b);
    }
  }

  lemma MarkUsedEncodes(mem: Memory, hdr: Headers, links: Links, pools: Pools, nil: nat, a: nat)
    requires Layout(hdr, pools) && Encodes(mem, hdr, links, pools, nil)
    requires Plain(hdr, a) && Next(hdr, a) in hdr && a !in links
    requires WordOk(mem, hdr, pools, a) && WordOk(mem, hdr, pools, Next(hdr, a))
    ensures Encodes(MarkUsedMem(mem, a, Next(hdr, a)), MarkUsed(hdr, a), links, pools, nil)
  {
    hide MappingInsert, Tag, SetFree, SetPrevFree, BlockSize, IsFree, IsPrevFree, SetUsed, SetPrevUsed, SetSize;
    var n := Next(hdr, a);
    assert GoodBlock(hdr, a) && GoodBlock(hdr, n);
    Untag(hdr[a].size, hdr[a].free, hdr[a].prevFree);
    Untag(hdr[n].size, hdr[n].free, hdr[n].prevFree);
    var m := MarkUsedMem(mem, a, n);
    var h := MarkUsed(hdr, a);
    assert AgreeOutside(mem, m, a + 8, n + 8);
    forall c | c in h
      ensures WordOk(m, h, pools, c) && Backed(m.Keys, h, nil, c)
    {
      assert WordOk(mem, hdr, pools, c) && Backed(mem.Keys, hdr, nil, c);
      if c != a && c != n {
        OthersKept(mem, m, hdr, pools, a, c);
      }
    }
    forall b | b in links
      ensures LinkWordOk(m, h, links, b)
    {
      assert LinkWordOk(mem, hdr, links, b);
      LinksKept(mem, m, hdr, links, pools, a, b);
    }
  }

  // Recording in the right neighbour that block a is its free, or used, predecessor.
  lemma LinkNextEncodes(mem: Memory, hdr: Headers, links: Links, pools: Pools, nil: nat, a: nat)
    requires Layout(hdr, pools) && Encodes(mem, hdr, links, pools, nil)
    requires Plain(hdr, a) && Next(hdr, a) in hdr
    ensures Next(hdr, a) in mem
    ensures var n := Next(hdr, a);
      Encodes(mem[n := a], hdr[n := hdr[n].(prev := a)], links, pools, nil)
  {
    hide MappingInsert, Tag;
    var n := Next(hdr, a);
    assert GoodBlock(hdr, a);
    assert Backed(mem.Keys, hdr, nil, a);
    var m := mem[n := a];
    var h := hdr[n := hdr[n].(prev := a)];
    assert AgreeOutside(mem, m, a + 8, n + 8);
    forall c | c in h
      ensures WordOk(m, h, pools, c) && Backed(m.Keys, h, nil, c)
    {
      assert WordOk(mem, hdr, pools, c) && Backed(mem.Keys, hdr, nil, c);
      if c != a && c != n {
        OthersKept(mem, m, hdr, pools, a, c);
      }
    }
    forall b | b in links
      ensures LinkWordOk(m, h, links, b)
    {
      assert LinkWordOk(mem, hdr, links, b);
      if b != a {
        LinksKept(mem, m, hdr, links, pools, a, b);
      }
    }
  }

  lemma SetPrevEncodes(mem: Memory, hdr: Headers, links: Links, pools: Pools, nil: nat, a: nat, free: bool)
    requires Layout(hdr, pools) && Encodes(mem, hdr, links, pools, nil)
    requires Plain(hdr, a) && Next(hdr, a) in hdr
    requires WordOk(mem, hdr, pools, Next(hdr, a))
    requires free ==> Next(hdr, a) in mem && mem[Next(hdr, a)] == hdr[Next(hdr, a)].prev
    ensures var n := Next(hdr, a);
      var w := if free then SetPrevFree(mem[n + 8]) else SetPrevUsed(mem[n + 8]);
      Encodes(mem[n + 8 := w], hdr[n := hdr[n].(prevFree := free)], links, pools, nil)
  {
    hide MappingInsert, Tag, SetFree, SetPrevFree, BlockSize, IsFree, IsPrevFree, SetUsed, SetPrevUsed, SetSize;
    var n := Next(hdr, a);
    assert GoodBlock(hdr, a) && GoodBlock(hdr, n);
    Untag(hdr[n].size, hdr[n].free, hdr[n].prevFree);
    var m := mem[n + 8 := if free then SetPrevFree(mem[n + 8]) else SetPrevUsed(mem[n + 8])];
    var h := hdr[n := hdr[n].(prevFree := free)];
    assert AgreeOutside(mem, m, a + 8, n + 8);
    forall c | c in h
      ensures WordOk(m, h, pools, c) && Backed(m.Keys, h, nil, c)
    {
      assert WordOk(mem, hdr, pools, c) && Backed(mem.Keys, hdr, nil, c);
      if c != a && c != n {
        OthersKept(mem, m, hdr, pools, a, c);
      }
    }
    forall b | b in links
      ensures LinkWordOk(m, h, links, b)
    {
      assert LinkWordOk(mem, hdr, links, b);
      if b != a {
        LinksKept(mem, m, hdr, links, pools, a, b);
      }
    }
  }

  // ---- Splitting and absorbing ----

  function SplitMem(mem: Memory, a: nat, n: nat, size: nat, remain: nat): Memory
    requires a + 8 in mem && n + 8 in mem && a + 16 + size in mem && n != a + 16 + size
  {
    var r := a + HEADER_OVERHEAD + size;
    MarkFreeMem(mem[r + 8 := SetSize(mem[r + 8], remain)][a + 8 := SetSize(mem[a + 8], size)], r, n)
  }

  // What memory holds where the new header goes.
  function Junk(mem: Memory, r: nat): Header
    requires r in mem && r + 8 in mem
  {
    Header(mem[r], 0, false, IsPrevFree(mem[r + 8]))
  }

  lemma SplitRoom(mem: Memory, hdr: Headers, links: Links, pools: Pools, nil: nat, a: nat, size: nat)
    requires Layout(hdr, pools) && Encodes(mem, hdr, links, pools, nil)
    requires Plain(hdr, a) && size % ALIGN_SIZE == 0 && size + HEADER_SIZE <= hdr[a].size
    requires size >= BLOCK_SIZE_MIN
    ensures var r := a + HEADER_OVERHEAD + size;
      && Next(hdr, a) in hdr && Next(hdr, a) in mem && a + 8 in mem && Next(hdr, a) + 8 in mem
      && r in mem && r + 8 in mem && r !in hdr && Next(hdr, a) != r + 8
      && r % ALIGN_SIZE == 0 && hdr[a].size % ALIGN_SIZE == 0
  {
    var r := a + HEADER_OVERHEAD + size;
    assert GoodBlock(hdr, a) && Backed(mem.Keys, hdr, nil, a);
    assert r in hdr ==> Apart(hdr, a, r);
    assert WordOk(mem, hdr, pools, a) && WordOk(mem, hdr, pools, Next(hdr, a));
  }

  lemma SplitWords(mem: Memory, hdr: Headers, links: Links, pools: Pools, nil: nat, a: nat, size: nat, c: nat)
    requires Layout(hdr, pools) && Encodes(mem, hdr, links, pools, nil)
    requires Plain(hdr, a) && size % ALIGN_SIZE == 0 && size + HEADER_SIZE <= hdr[a].size
    requires size >= BLOCK_SIZE_MIN
    requires var r, n := a + HEADER_OVERHEAD + size, Next(hdr, a);
      n in hdr && n in mem && a + 8 in mem && n + 8 in mem && r in mem && r + 8 in mem && r !in hdr && n != r + 8
    requires WordOk(mem, hdr, pools, a) && WordOk(mem, hdr, pools, Next(hdr, a))
    requires c in Split(hdr, a, size, Junk(mem, a + HEADER_OVERHEAD + size))
    requires c in hdr ==> WordOk(mem, hdr, pools, c)
    ensures var r, n := a + HEADER_OVERHEAD + size, Next(hdr, a);
      WordOk(SplitMem(mem, a, n, size, hdr[a].size - size - HEADER_OVERHEAD),
             Split(hdr, a, size, Junk(mem, r)), pools, c)
  {
    hide MappingInsert, Tag, SetFree, SetPrevFree, BlockSize, IsFree, IsPrevFree, SetUsed, SetPrevUsed, SetSize;
    var r, n := a + HEADER_OVERHEAD + size, Next(hdr, a);
    var remain := hdr[a].size - size - HEADER_OVERHEAD;
    assert GoodBlock(hdr, a) && GoodBlock(hdr, n);
    Untag(hdr[a].size, hdr[a].free, hdr[a].prevFree);
    Untag(hdr[n].size, hdr[n].free, hdr[n].prevFree);
    Retag(mem[r + 8], remain);
    Retag(mem[a + 8], size);
    Untag(remain, IsFree(mem[r + 8]), IsPrevFree(mem[r + 8]));
    var m := SplitMem(mem, a, n, size, remain);
    assert AgreeOutside(mem, m, a + 8, n + 8);
    if c in hdr && c != a && c != n {
      OthersKept(mem, m, hdr, pools, a, c);
    }
  }

  lemma SplitEncodes(mem: Memory, hdr: Headers, links: Links, pools: Pools, nil: nat, a: nat, size: nat)
    requires Layout(hdr, pools) && PoolsOk(hdr, pools) && Encodes(mem, hdr, links, pools, nil)
    requires Plain(hdr, a) && size % ALIGN_SIZE == 0 && size + HEADER_SIZE <= hdr[a].size
    requires size >= BLOCK_SIZE_MIN && a !in links
    requires var r, n := a + HEADER_OVERHEAD + size, Next(hdr, a);
      n in hdr && n in mem && a + 8 in mem && n + 8 in mem && r in mem && r + 8 in mem && r !in hdr && n != r + 8
    ensures var r, n := a + HEADER_OVERHEAD + size, Next(hdr, a);
      Encodes(SplitMem(mem, a, n, size, hdr[a].size - size - HEADER_OVERHEAD),
              Split(hdr, a, size, Junk(mem, r)), links, pools, nil)
  {
    hide MappingInsert, Tag, SetFree, SetPrevFree, BlockSize, IsFree, IsPrevFree, SetUsed, SetPrevUsed, SetSize;
    var r, n := a + HEADER_OVERHEAD + size, Next(hdr, a);
    var m := SplitMem(mem, a, n, size, hdr[a].size - size - HEADER_OVERHEAD);
    var h := Split(hdr, a, size, Junk(mem, r));
    assert r !in pools by { assert r in pools ==> PoolOk(hdr, pools, r); }
    assert WordOk(mem, hdr, pools, a) && WordOk(mem, hdr, pools, n);
    assert Backed(mem.Keys, hdr, nil, a);
    assert AgreeOutside(mem, m, a + 8, n + 8);
    forall c | c in h
      ensures WordOk(m, h, pools, c) && Backed(m.Keys, h, nil, c)
    {
      assert c in hdr ==> WordOk(mem, hdr, pools, c) && Backed(mem.Keys, hdr, nil, c);
      SplitWords(mem, hdr, links, pools, nil, a, size, c);
    }
    forall b | b in links
      ensures LinkWordOk(m, h, links, b)
    {
      assert LinkWordOk(mem, hdr, links, b);
      LinksKept(mem, m, hdr, links, pools, a, b);
    }
  }

  function AbsorbMem(mem: Memory, a: nat, b: nat, size: nat, n: nat): Memory
    requires a + 8 in mem
  {
    mem[a + 8 := mem[a + 8] + size + HEADER_OVERHEAD][n := a]
  }

  lemma AbsorbWords(mem: Memory, hdr: Headers, pools: Pools, a: nat, c: nat)
    requires Layout(hdr, pools) && CanAbsorb(hdr, a) && Layout(Absorb(hdr, a), pools)
    requires Next(hdr, Next(hdr, a)) in mem
    requires WordOk(mem, hdr, pools, a) && WordOk(mem, hdr, pools, Next(hdr, Next(hdr, a)))
    requires c in Absorb(hdr, a) && WordOk(mem, hdr, pools, c)
    ensures var b := Next(hdr, a);
      WordOk(AbsorbMem(mem, a, b, hdr[b].size, Next(hdr, b)), Absorb(hdr, a), pools, c)
  {
    var b := Next(hdr, a);
    var n := Next(hdr, b);
    var h := Absorb(hdr, a);
    assert GoodBlock(hdr, a) && GoodBlock(hdr, b);
    var m := AbsorbMem(mem, a, b, hdr[b].size, n);
    assert AgreeOutside(mem, m, a + 8, n + 8);
    if c != a && c != n {
      assert WordOk(mem, h, pools, c);
      OthersKept(mem, m, h, pools, a, c);
    }
  }

  lemma AbsorbEncodes(mem: Memory, hdr: Headers, links: Links, pools: Pools, nil: nat, a: nat)
    requires Layout(hdr, pools) && Encodes(mem, hdr, links, pools, nil)
    requires CanAbsorb(hdr, a) && a !in links && Next(hdr, a) !in links
    requires Layout(Absorb(hdr, a), pools)
    requires WordOk(mem, hdr, pools, a)
    ensures var b := Next(hdr, a); var n := Next(hdr, b);
      && n in mem
      && Encodes(AbsorbMem(mem, a, b, hdr[b].size, n), Absorb(hdr, a), links, pools, nil)
  {
    hide MappingInsert, Tag;
    var b := Next(hdr, a);
    var n := Next(hdr, b);
    var h := Absorb(hdr, a);
    assert GoodBlock(hdr, a) && GoodBlock(hdr, b);
    assert Backed(mem.Keys, hdr, nil, b) && Backed(mem.Keys, hdr, nil, a);
    assert WordOk(mem, hdr, pools, n);
    var m := AbsorbMem(mem, a, b, hdr[b].size, n);
    assert m.Keys == mem.Keys;
    forall c | c in h
      ensures WordOk(m, h, pools, c) && Backed(m.Keys, h, nil, c)
    {
      assert WordOk(mem, hdr, pools, c) && Backed(mem.Keys, hdr, nil, c);
      AbsorbWords(mem, hdr, pools, a, c);
      BackedJoin(mem.Keys, hdr, nil, a);
    }
    AbsorbLinks(mem, hdr, links, pools, nil, a);
  }

  lemma AbsorbLinks(mem: Memory, hdr: Headers, links: Links, pools: Pools, nil: nat, a: nat)
    requires Layout(hdr, pools) && Encodes(mem, hdr, links, pools, nil)
    requires CanAbsorb(hdr, a) && a !in links && Next(hdr, a) !in links
    requires Layout(Absorb(hdr, a), pools)
    requires Next(hdr, Next(hdr, a)) in mem && WordOk(mem, hdr, pools, a)
    ensures var b := Next(hdr, a); var n := Next(hdr, b);
      var m, h := AbsorbMem(mem, a, b, hdr[b].size, n), Absorb(hdr, a);
      forall d {:trigger LinkWordOk(m, h, links, d)} :: d in links ==> LinkWordOk(m, h, links, d)
  {
    hide MappingInsert, Tag;
    var b := Next(hdr, a);
    var m, h := AbsorbMem(mem, a, b, hdr[b].size, Next(hdr, b)), Absorb(hdr, a);
    assert AgreeOutside(mem, m, a + 8, Next(h, a) + 8);
    forall d | d in links
      ensures LinkWordOk(m, h, links, d)
    {
      assert LinkWordOk(mem, hdr, links, d);
      assert LinkWordOk(mem, h, links, d);
      LinksKept(mem, m, h, links, pools, a, d);
    }
  }

  lemma BackedJoin(dom: set<nat>, hdr: Headers, nil: nat, a: nat)
    requires CanAbsorb(hdr, a) && a % 8 == 0 && hdr[a].size % 8 == 0
    requires Backed(dom, hdr, nil, a) && Backed(dom, hdr, nil, Next(hdr, a))
    ensures Backed(dom, Absorb(hdr, a), nil, a)
  {
  }

  // ---- Link fields ----

  function InsertMem(mem: Memory, nil: nat, a: nat, h: nat): Memory {
    mem[a + 16 := h][a + 24 := nil][h + 24 := a]
  }

  function RemoveMem(mem: Memory, next: nat, prev: nat): Memory {
    mem[next + 24 := prev][prev + 16 := next]
  }

  // A link field is neither part of a header nor a link field of another block.
  lemma LinkFieldApart(mem: Memory, hdr: Headers, links: Links, pools: Pools, nil: nat, b: nat, c: nat)
    requires Layout(hdr, pools) && Encodes(mem, hdr, links, pools, nil)
    requires b == nil || Plain(hdr, b)
    requires c in hdr
    ensures c != b + 16 && c != b + 24 && c + 8 != b + 16 && c + 8 != b + 24
    ensures b != c && Plain(hdr, c) ==> c + 16 != b + 24 && c + 24 != b + 16
  {
    assert Backed(mem.Keys, hdr, nil, c) && GoodBlock(hdr, c);
    if b != nil {
      assert Apart(hdr, b, c) && Apart(hdr, c, b) && GoodBlock(hdr, b);
    }
  }

  // Writing link fields changes no header.
  lemma HeadersKept(mem: Memory, m: Memory, hdr: Headers, links: Links, pools: Pools, nil: nat, c: nat)
    requires Encodes(mem, hdr, links, pools, nil) && m.Keys == mem.Keys
    requires c in hdr && c + 8 in mem && m[c + 8] == mem[c + 8] && (c in mem ==> m[c] == mem[c])
    ensures WordOk(m, hdr, pools, c) && Backed(m.Keys, hdr, nil, c)
  {
    assert WordOk(mem, hdr, pools, c) && Backed(mem.Keys, hdr, nil, c);
  }

  lemma InsertEncodes(mem: Memory, hdr: Headers, links: Links, pools: Pools, nil: nat,
                      heads: Heads, clock: nat, a: nat, c: Class)
    requires Layout(hdr, pools) && Encodes(mem, hdr, links, pools, nil)
    requires FreeLists(links, heads, nil, clock) && ValidClass(c)
    requires Head(heads, c) == nil || Head(heads, c) in links
    requires Plain(hdr, a) && hdr[a].free && a !in links && a != nil && c == MappingInsert(hdr[a].size)
    ensures var h := Head(heads, c);
      && a + 16 in mem && a + 24 in mem && h + 24 in mem
      && Encodes(InsertMem(mem, nil, a, h), hdr, InsertLinks(links, heads, nil, clock, a, c), pools, nil)
  {
    hide MappingInsert, Tag;
    var h := Head(heads, c);
    assert h != nil ==> LinkWordOk(mem, hdr, links, h);
    assert GoodBlock(hdr, a) && Backed(mem.Keys, hdr, nil, a);
    var m := InsertMem(mem, nil, a, h);
    var l := InsertLinks(links, heads, nil, clock, a, c);
    assert m.Keys == mem.Keys;
    forall d | d in hdr
      ensures WordOk(m, hdr, pools, d) && Backed(m.Keys, hdr, nil, d)
    {
      LinkFieldApart(mem, hdr, links, pools, nil, a, d);
      LinkFieldApart(mem, hdr, links, pools, nil, h, d);
      assert WordOk(mem, hdr, pools, d);
      HeadersKept(mem, m, hdr, links, pools, nil, d);
    }
    forall d | d in l
      ensures LinkWordOk(m, hdr, l, d)
    {
      InsertLinkWords(mem, hdr, links, pools, nil, heads, clock, a, c, d);
    }
  }

  lemma InsertLinkWords(mem: Memory, hdr: Headers, links: Links, pools: Pools, nil: nat,
                        heads: Heads, clock: nat, a: nat, c: Class, d: nat)
    requires Layout(hdr, pools) && Encodes(mem, hdr, links, pools, nil)
    requires Shaped(heads) && ValidClass(c)
    requires Head(heads, c) == nil || Head(heads, c) in links
    requires Plain(hdr, a) && hdr[a].free && a !in links && a != nil && c == MappingInsert(hdr[a].size)
    requires a + 16 in mem && a + 24 in mem && d in InsertLinks(links, heads, nil, clock, a, c)
    ensures LinkWordOk(InsertMem(mem, nil, a, Head(heads, c)), hdr,
                       InsertLinks(links, heads, nil, clock, a, c), d)
  {
    hide MappingInsert, Tag;
    var h := Head(heads, c);
    assert h != nil ==> LinkWordOk(mem, hdr, links, h);
    LinkFieldApart(mem, hdr, links, pools, nil, h, a);
    if d != a {
      assert LinkWordOk(mem, hdr, links, d) && Backed(mem.Keys, hdr, nil, d);
      LinkFieldApart(mem, hdr, links, pools, nil, a, d);
      LinkFieldApart(mem, hdr, links, pools, nil, h, d);
    }
  }

  lemma RemoveEncodes(mem: Memory, hdr: Headers, links: Links, pools: Pools, nil: nat,
                      heads: Heads, clock: nat, a: nat)
    requires Layout(hdr, pools) && Encodes(mem, hdr, links, pools, nil)
    requires FreeLists(links, heads, nil, clock)
    requires a in links && LinkOk(links, heads, nil, clock, a)
    ensures var l := links[a];
      && a + 16 in mem && mem[a + 16] == l.next && a + 24 in mem && mem[a + 24] == l.prev
      && l.next + 24 in mem && l.prev + 16 in mem
      && Encodes(RemoveMem(mem, l.next, l.prev), hdr, RemoveLinks(links, nil, a), pools, nil)
  {
    hide MappingInsert, Tag;
    var n, p := links[a].next, links[a].prev;
    assert LinkWordOk(mem, hdr, links, a);
    assert n != nil ==> LinkWordOk(mem, hdr, links, n);
    assert p != nil ==> LinkWordOk(mem, hdr, links, p);
    var m := RemoveMem(mem, n, p);
    var k := RemoveLinks(links, nil, a);
    assert m.Keys == mem.Keys;
    forall d | d in hdr
      ensures WordOk(m, hdr, pools, d) && Backed(m.Keys, hdr, nil, d)
    {
      LinkFieldApart(mem, hdr, links, pools, nil, n, d);
      LinkFieldApart(mem, hdr, links, pools, nil, p, d);
      assert WordOk(mem, hdr, pools, d);
      HeadersKept(mem, m, hdr, links, pools, nil, d);
    }
    forall d | d in k
      ensures LinkWordOk(m, hdr, k, d)
    {
      assert LinkWordOk(mem, hdr, links, d);
      LinkFieldApart(mem, hdr, links, pools, nil, n, d);
      LinkFieldApart(mem, hdr, links, pools, nil, p, d);
    }
  }

  // ---- What the operations leave alone ----

  predicate Kept(mem: Memory, m: Memory, keep: set<nat>) {
    forall w :: w in keep && w in mem ==> w in m && m[w] == mem[w]
  }

  lemma MarkFreeKept(mem: Memory, hdr: Headers, nil: nat, keep: set<nat>, a: nat)
    requires Plain(hdr, a) && Next(hdr, a) in hdr && a + 8 in mem && Next(hdr, a) + 8 in mem
    requires Protects(keep, MarkFree(hdr, a), nil)
    ensures Kept(mem, MarkFreeMem(mem, a, Next(hdr, a)), keep)
  {
    var n, h := Next(hdr, a), MarkFree(hdr, a);
    forall w | w in keep
      ensures w != n && w != n + 8 && w != a + 8
    {
      assert Clear(h, nil, a, w) && Clear(h, nil, n, w);
    }
  }

  lemma MarkUsedKept(mem: Memory, hdr: Headers, nil: nat, keep: set<nat>, a: nat)
    requires Plain(hdr, a) && Next(hdr, a) in hdr && a + 8 in mem && Next(hdr, a) + 8 in mem
    requires Protects(keep, hdr, nil)
    ensures Kept(mem, MarkUsedMem(mem, a, Next(hdr, a)), keep)
    ensures Protects(keep, MarkUsed(hdr, a), nil)
  {
    var n, h := Next(hdr, a), MarkUsed(hdr, a);
    forall w | w in keep
      ensures w != n + 8 && w != a + 8
    {
      assert Clear(hdr, nil, a, w) && Clear(hdr, nil, n, w);
    }
    forall b, w | b in h && w in keep
      ensures Clear(h, nil, b, w)
    {
      assert Clear(hdr, nil, b, w);
    }
  }

  lemma SplitKept(mem: Memory, hdr: Headers, nil: nat, keep: set<nat>, a: nat, size: nat, junk: Header)
    requires Plain(hdr, a) && Next(hdr, a) in hdr && a + 8 in mem && Next(hdr, a) + 8 in mem
    requires size + HEADER_SIZE <= hdr[a].size && a + 16 + size in mem && Next(hdr, a) != a + 16 + size
    requires Protects(keep, Split(hdr, a, size, junk), nil)
    ensures Kept(mem, SplitMem(mem, a, Next(hdr, a), size, hdr[a].size - size - HEADER_OVERHEAD), keep)
  {
    var n, r, h := Next(hdr, a), a + HEADER_OVERHEAD + size, Split(hdr, a, size, junk);
    forall w | w in keep
      ensures w != n && w != n + 8 && w != a + 8 && w != r + 8
    {
      assert Clear(h, nil, a, w) && Clear(h, nil, n, w) && Clear(h, nil, r, w);
    }
  }

  const BLANK := Header(0, 0, false, false)

  // Protection does not depend on what the new header's garbage fields hold.
  lemma SplitProtectsAny(hdr: Headers, nil: nat, keep: set<nat>, a: nat, size: nat, junk: Header)
    requires Plain(hdr, a) && Next(hdr, a) in hdr && size + HEADER_SIZE <= hdr[a].size
    requires Protects(keep, Split(hdr, a, size, BLANK), nil)
    ensures Protects(keep, Split(hdr, a, size, junk), nil)
  {
    var g, h := Split(hdr, a, size, BLANK), Split(hdr, a, size, junk);
    forall b, w | b in h && w in keep
      ensures Clear(h, nil, b, w)
    {
      assert Clear(g, nil, b, w);
    }
  }

  // Splitting a block in use gives up the words behind the split.
  lemma SplitUsedProtects(hdr: Headers, nil: nat, keep: set<nat>, a: nat, size: nat, junk: Header)
    requires Plain(hdr, a) && Next(hdr, a) in hdr && !hdr[a].free
    requires size + HEADER_SIZE <= hdr[a].size
    requires Protects(keep, hdr, nil)
    requires forall w :: w in keep ==> w < a + 16 + size || w >= a + 16 + hdr[a].size
    ensures Protects(keep, Split(hdr, a, size, junk), nil)
  {
    var r, h := a + HEADER_OVERHEAD + size, Split(hdr, a, size, junk);
    forall b, w | b in h && w in keep
      ensures Clear(h, nil, b, w)
    {
      assert Clear(hdr, nil, a, w);
      assert b in hdr ==> Clear(hdr, nil, b, w);
    }
  }

  // Splitting a free block hands out nothing new.
  lemma SplitFreeProtects(hdr: Headers, nil: nat, keep: set<nat>, a: nat, size: nat, junk: Header)
    requires Plain(hdr, a) && Next(hdr, a) in hdr && hdr[a].free
    requires size + HEADER_SIZE <= hdr[a].size
    requires Protects(keep, hdr, nil)
    ensures Protects(keep, Split(hdr, a, size, junk), nil)
  {
    var r, h := a + HEADER_OVERHEAD + size, Split(hdr, a, size, junk);
    forall b, w | b in h && w in keep
      ensures Clear(h, nil, b, w)
    {
      assert Clear(hdr, nil, a, w);
      assert b in hdr ==> Clear(hdr, nil, b, w);
    }
  }

  lemma AbsorbKept(mem: Memory, hdr: Headers, nil: nat, keep: set<nat>, a: nat)
    requires CanAbsorb(hdr, a) && a + 8 in mem
    requires Protects(keep, hdr, nil)
    ensures var b := Next(hdr, a);
      Kept(mem, AbsorbMem(mem, a, b, hdr[b].size, Next(hdr, b)), keep)
    ensures Protects(keep, Absorb(hdr, a), nil)
  {
    var b, h := Next(hdr, a), Absorb(hdr, a);
    var n := Next(hdr, b);
    forall w | w in keep
      ensures w != n && w != a + 8
    {
      assert Clear(hdr, nil, a, w) && Clear(hdr, nil, b, w);
    }
    forall c, w | c in h && w in keep
      ensures Clear(h, nil, c, w)
    {
      assert Clear(hdr, nil, c, w) && Clear(hdr, nil, b, w);
    }
  }

  lemma InsertKept(mem: Memory, hdr: Headers, links: Links, pools: Pools, nil: nat, keep: set<nat>, a: nat, h: nat)
    requires Layout(hdr, pools) && Encodes(mem, hdr, links, pools, nil)
    requires Plain(hdr, a) && hdr[a].free && (h == nil || h in links)
    requires Protects(keep, hdr, nil)
    ensures Kept(mem, InsertMem(mem, nil, a, h), keep)
  {
    hide MappingInsert;
    assert GoodBlock(hdr, a);
    assert h != nil ==> LinkWordOk(mem, hdr, links, h) && GoodBlock(hdr, h);
    forall w | w in keep
      ensures w != a + 16 && w != a + 24 && w != h + 24
    {
      assert Clear(hdr, nil, a, w);
      assert h in hdr ==> Clear(hdr, nil, h, w);
    }
  }

  lemma RemoveKept(mem: Memory, hdr: Headers, links: Links, pools: Pools, nil: nat, keep: set<nat>,
                   a: nat, n: nat, p: nat)
    requires Layout(hdr, pools) && Encodes(mem, hdr, links, pools, nil)
    requires a in links && (n == nil || n in links) && (p == nil || p in links)
    requires Protects(keep, hdr, nil)
    ensures Kept(mem, RemoveMem(mem, n, p), keep)
  {
    hide MappingInsert;
    assert LinkWordOk(mem, hdr, links, a);
    assert n != nil ==> LinkWordOk(mem, hdr, links, n) && GoodBlock(hdr, n);
    assert p != nil ==> LinkWordOk(mem, hdr, links, p) && GoodBlock(hdr, p);
    forall w | w in keep
      ensures w != n + 24 && w != p + 16
    {
      assert Clear(hdr, nil, a, w);
      assert n in hdr ==> Clear(hdr, nil, n, w);
      assert p in hdr ==> Clear(hdr, nil, p, w);
    }
  }

  // Recording a free predecessor writes into that predecessor and a size word.
  lemma RecordProtects(hdr: Headers, nil: nat, keep: set<nat>, a: nat, h: Headers)
    requires Plain(hdr, a) && Next(hdr, a) in hdr && Protects(keep, hdr, nil)
    requires h.Keys == hdr.Keys
    requires forall c :: c in h ==> h[c].size == hdr[c].size && h[c].free == hdr[c].free
    ensures Protects(keep, h, nil)
    ensures Next(hdr, a) + 8 !in keep
    ensures hdr[a].free ==> Next(hdr, a) !in keep
  {
    var n := Next(hdr, a);
    forall c, w | c in h && w in keep
      ensures Clear(h, nil, c, w)
    {
      assert Clear(hdr, nil, c, w);
    }
    assert n + 8 in keep ==> Clear(hdr, nil, n, n + 8);
    assert n in keep ==> Clear(hdr, nil, a, n);
  }

  // ---- Payloads ----

  // Word w is payload of the allocated block a.
  predicate Payload(hdr: Headers, a: nat, w: nat) {
    a in hdr && !hdr[a].free && a + 16 <= w < a + 16 + hdr[a].size
  }

  // All payload words of allocated blocks other than those in `but`.
  ghost function Payloads(mem: Memory, hdr: Headers, but: set<nat>): set<nat> {
    set w | w in mem && exists a :: a !in but && Payload(hdr, a, w)
  }

  ghost predicate PayloadsKept(mem: Memory, m: Memory, hdr: Headers, but: set<nat>) {
    forall a, w {:trigger Payload(hdr, a, w)} ::
      a !in but && Payload(hdr, a, w) && w in mem ==> w in m && m[w] == mem[w]
  }

  // Payload words belong to one block only: not even the prev_phys_block field of
  // the next header, which lies inside the payload, is another block's business
  // while the block is in use.
  lemma PayloadClear(mem: Memory, hdr: Headers, links: Links, pools: Pools, nil: nat, a: nat, c: nat, w: nat)
    requires Layout(hdr, pools) && Encodes(mem, hdr, links, pools, nil)
    requires Payload(hdr, a, w) && c in hdr
    ensures Clear(hdr, nil, c, w)
    ensures c != a ==> w < c + 8 || w >= c + 16 + hdr[c].size
  {
    assert Apart(hdr, a, c) && Apart(hdr, c, a) && Backed(mem.Keys, hdr, nil, a);
  }

  lemma PayloadsProtected(mem: Memory, hdr: Headers, links: Links, pools: Pools, nil: nat, but: set<nat>)
    requires Layout(hdr, pools) && Encodes(mem, hdr, links, pools, nil)
    ensures Protects(Payloads(mem, hdr, but), hdr, nil)
  {
    forall c, w | c in hdr && w in Payloads(mem, hdr, but)
      ensures Clear(hdr, nil, c, w)
    {
      var a :| a !in but && Payload(hdr, a, w);
      PayloadClear(mem, hdr, links, pools, nil, a, c, w);
    }
  }

  lemma PayloadsProtectedFree(mem: Memory, hdr: Headers, links: Links, pools: Pools, nil: nat, b: nat)
    requires Layout(hdr, pools) && Encodes(mem, hdr, links, pools, nil)
    requires Plain(hdr, b) && Next(hdr, b) in hdr
    ensures Protects(Payloads(mem, hdr, {b}), MarkFree(hdr, b), nil)
  {
    var h := MarkFree(hdr, b);
    forall c, w | c in h && w in Payloads(mem, hdr, {b})
      ensures Clear(h, nil, c, w)
    {
      var a :| a !in {b} && Payload(hdr, a, w);
      PayloadClear(mem, hdr, links, pools, nil, a, c, w);
    }
  }

  lemma KeptPayloads(mem: Memory, m: Memory, hdr: Headers, but: set<nat>)
    requires Kept(mem, m, Payloads(mem, hdr, but))
    ensures PayloadsKept(mem, m, hdr, but)
  {
    forall a, w | a !in but && Payload(hdr, a, w) && w in mem
      ensures w in m && m[w] == mem[w]
    {
      assert w in Payloads(mem, hdr, but);
    }
  }

  // A client writing its own memory disturbs nothing.
  lemma PayloadWriteEncodes(mem: Memory, hdr: Headers, links: Links, pools: Pools, nil: nat, a: nat, w: nat, v: nat)
    requires Layout(hdr, pools) && Tags(hdr, pools) && Encodes(mem, hdr, links, pools, nil)
    requires Payload(hdr, a, w) && w in mem
    ensures Encodes(mem[w := v], hdr, links, pools, nil)
  {
    hide MappingInsert, Tag;
    var m := mem[w := v];
    assert m.Keys == mem.Keys;
    PayloadClear(mem, hdr, links, pools, nil, a, a, w);
    forall c | c in hdr
      ensures WordOk(m, hdr, pools, c) && Backed(m.Keys, hdr, nil, c)
    {
      assert WordOk(mem, hdr, pools, c) && Backed(mem.Keys, hdr, nil, c) && BackOk(hdr, c);
      PayloadClear(mem, hdr, links, pools, nil, a, c, w);
      if hdr[c].prevFree {
        PayloadClear(mem, hdr, links, pools, nil, a, hdr[c].prev, w);
      }
    }
    forall b | b in links
      ensures LinkWordOk(m, hdr, links, b)
    {
      assert LinkWordOk(mem, hdr, links, b) && GoodBlock(hdr, b);
      PayloadClear(mem, hdr, links, pools, nil, a, b, w);
    }
  }

  lemma PayloadExists(mem: Memory, hdr: Headers, links: Links, pools: Pools, nil: nat, a: nat, w: nat)
    requires Layout(hdr, pools) && Encodes(mem, hdr, links, pools, nil)
    requires Payload(hdr, a, w) && w % 8 == 0
    ensures w in mem
  {
    assert Backed(mem.Keys, hdr, nil, a);
  }
}
