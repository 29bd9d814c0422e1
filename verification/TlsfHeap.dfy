// The block structure behind a TLSF heap, as values: decoded block headers, decoded
// free-list links, and the words of memory that encode them.
module TlsfHeap {
  import opened SizeClass

  // block_header_t without its list links.  `prev` is meaningful only while the
  // physical predecessor is free, like prev_phys_block in the original.
  datatype Header = Header(prev: nat, size: nat, free: bool, prevFree: bool)

  // The list links of a free block.  `stamp` orders a list: insertion at the head
  // takes a fresh, larger stamp, so following `next` always ends.
  datatype Link = Link(next: nat, prev: nat, cls: Class, stamp: nat)

  type Memory = map<nat, nat>        // 64-bit words by byte address
  type Headers = map<nat, Header>    // every block, including the zero-size sentinels
  type Links = map<nat, Link>        // the blocks that are in some free list
  type Pools = map<nat, nat>         // first block of a pool -> its sentinel

  // ---- The size word ----

  // size | free bit | prev-free bit
  function Tag(size: nat, free: bool, prevFree: bool): nat {
    size + (if free then 1 else 0) + (if prevFree then 2 else 0)
  }

  function BlockSize(w: nat): nat { w - w % 4 }
  function SetSize(w: nat, size: nat): nat { size + w % 4 }
  predicate IsFree(w: nat) { w % 2 == 1 }
  predicate IsPrevFree(w: nat) { w % 4 >= 2 }
  function SetFree(w: nat): nat { if IsFree(w) then w else w + 1 }
  function SetUsed(w: nat): nat { if IsFree(w) then w - 1 else w }
  function SetPrevFree(w: nat): nat { if IsPrevFree(w) then w else w + 2 }
  function SetPrevUsed(w: nat): nat { if IsPrevFree(w) then w - 2 else w }

  // The bit operations act on the fields they name and on nothing else.
  lemma Untag(size: nat, free: bool, prevFree: bool)
    requires size % 8 == 0
    ensures var w := Tag(size, free, prevFree);
      && BlockSize(w) == size && IsFree(w) == free && IsPrevFree(w) == prevFree
      && SetFree(w) == Tag(size, true, prevFree)
      && SetUsed(w) == Tag(size, false, prevFree)
      && SetPrevFree(w) == Tag(size, free, true)
      && SetPrevUsed(w) == Tag(size, free, false)
  {
    var k, flags := size / 8, (if free then 1 else 0) + (if prevFree then 2 else 0);
    assert size == 8 * k;
    LowBits(2 * k, flags);
  }

  lemma LowBits(k: nat, flags: nat)
    requires flags < 4
    ensures (4 * k + flags) % 4 == flags && (4 * k + flags) % 2 == flags % 2
  {
    var x := 4 * k + flags;
    LowRest(x, 4, k, flags);
    var half, bit := flags / 2, flags % 2;
    LowRest(x, 2, 2 * k + half, bit);
  }

  lemma LowRest(x: nat, d: nat, q: nat, r: nat)
    requires (d == 4 || d == 2) && r < d && x == q * d + r
    ensures x % d == r
  {
    var p, s := x / d, x % d;
    if d == 4 {
      assert x == 4 * p + s && x == 4 * q + r;
    } else {
      assert x == 2 * p + s && x == 2 * q + r;
    }
  }

  // Any word is a size word once its size field is set.
  lemma Retag(w: nat, size: nat)
    requires size % 8 == 0
    ensures SetSize(w, size) == Tag(size, IsFree(w), IsPrevFree(w))
  {
    LowBits(w / 4, w % 4);
  }

  // ---- Physical layout ----

  // block_next: the last word of a block's payload is the prev_phys_block field of
  // the block this returns.
  function Next(hdr: Headers, a: nat): nat
    requires a in hdr
  {
    a + HEADER_OVERHEAD + hdr[a].size
  }

  predicate Plain(hdr: Headers, a: nat) { a in hdr && hdr[a].size != 0 }

  ghost predicate InPool(pools: Pools, a: nat) {
    exists p :: p in pools && p <= a <= pools[p]
  }

  // One block: alignment, size limits, and a neighbour to its right.
  predicate GoodBlock(hdr: Headers, a: nat)
    requires a in hdr
  {
    && 0 < a && a % ALIGN_SIZE == 0
    && Next(hdr, a) + HEADER_OVERHEAD <= SIZE_T
    && (hdr[a].size == 0 ==> !hdr[a].free)
    && (hdr[a].size != 0 ==>
          && BLOCK_SIZE_MIN <= hdr[a].size < BLOCK_SIZE_MAX
          && hdr[a].size % ALIGN_SIZE == 0
          && Next(hdr, a) in hdr)
  }

  predicate Apart(hdr: Headers, a: nat, b: nat)
    requires a in hdr
  {
    a < b ==> Next(hdr, a) <= b
  }

  // What follows a sentinel is not its own pool.
  predicate SentinelOk(hdr: Headers, pools: Pools, a: nat)
    requires a in hdr
  {
    hdr[a].size == 0 && Next(hdr, a) in hdr ==> Next(hdr, a) in pools
  }

  ghost predicate Layout(hdr: Headers, pools: Pools) {
    && (forall a {:trigger GoodBlock(hdr, a)} :: a in hdr ==> GoodBlock(hdr, a))
    && (forall a, b {:trigger Apart(hdr, a, b)} :: a in hdr && b in hdr ==> Apart(hdr, a, b))
    && (forall a {:trigger SentinelOk(hdr, pools, a)} :: a in hdr ==> SentinelOk(hdr, pools, a))
  }

  predicate PoolOk(hdr: Headers, pools: Pools, p: nat)
    requires p in pools
  {
    && Plain(hdr, p) && p < pools[p] && pools[p] - p - HEADER_OVERHEAD < BLOCK_SIZE_MAX
    && pools[p] in hdr && hdr[pools[p]].size == 0
  }

  predicate Inside(hdr: Headers, pools: Pools, p: nat, a: nat)
    requires p in pools && a in hdr
  {
    p <= a < pools[p] ==> hdr[a].size != 0
  }

  // Every pool runs from its first block to one sentinel, and pools hold all blocks.
  ghost predicate PoolsOk(hdr: Headers, pools: Pools) {
    && (forall p {:trigger PoolOk(hdr, pools, p)} :: p in pools ==> PoolOk(hdr, pools, p))
    && (forall p, q {:trigger pools[p], pools[q]} :: p in pools && q in pools && p < q ==> pools[p] < q)
    && (forall p, a {:trigger Inside(hdr, pools, p, a)} ::
          p in pools && a in hdr ==> Inside(hdr, pools, p, a))
    && (forall a {:trigger InPool(pools, a)} :: a in hdr ==> InPool(pools, a))
  }

  // ---- Boundary tags ----

  // A block's state is recorded in its right neighbour.
  predicate TagOk(hdr: Headers, a: nat)
    requires Plain(hdr, a)
  {
    Next(hdr, a) in hdr &&
    var n := hdr[Next(hdr, a)];
    n.prevFree == hdr[a].free && (hdr[a].free ==> n.prev == a)
  }

  // A block whose prev-free bit is set has a free left neighbour, and knows it.
  predicate BackOk(hdr: Headers, c: nat)
    requires c in hdr
  {
    hdr[c].prevFree ==>
      Plain(hdr, hdr[c].prev) && hdr[hdr[c].prev].free && Next(hdr, hdr[c].prev) == c
  }

  predicate FirstOk(hdr: Headers, p: nat) { p in hdr ==> !hdr[p].prevFree }

  // The boundary tags agree everywhere, except perhaps between `but` and its
  // right neighbour.
  ghost predicate TagsBut(hdr: Headers, pools: Pools, but: nat) {
    && (forall p {:trigger FirstOk(hdr, p)} :: p in pools ==> FirstOk(hdr, p))
    && (forall a {:trigger TagOk(hdr, a)} :: Plain(hdr, a) && a != but ==> TagOk(hdr, a))
    && (forall c {:trigger BackOk(hdr, c)} ::
          c in hdr && (but in hdr ==> c != Next(hdr, but)) ==> BackOk(hdr, c))
  }

  ghost predicate Tags(hdr: Headers, pools: Pools) {
    && (forall p {:trigger FirstOk(hdr, p)} :: p in pools ==> FirstOk(hdr, p))
    && (forall a {:trigger TagOk(hdr, a)} :: Plain(hdr, a) ==> TagOk(hdr, a))
    && (forall c {:trigger BackOk(hdr, c)} :: c in hdr ==> BackOk(hdr, c))
  }

  // No two adjacent blocks are free, except that those in `but` may follow one.
  ghost predicate CoalescedBut(hdr: Headers, but: set<nat>) {
    forall c :: c in hdr && hdr[c].free && hdr[c].prevFree ==> c in but
  }

  // ---- The header operations ----

  function MarkFree(hdr: Headers, a: nat): Headers
    requires Plain(hdr, a) && Next(hdr, a) in hdr
  {
    var n := Next(hdr, a);
    hdr[n := hdr[n].(prev := a, prevFree := true)][a := hdr[a].(free := true)]
  }

  function MarkUsed(hdr: Headers, a: nat): Headers
    requires Plain(hdr, a) && Next(hdr, a) in hdr
  {
    var n := Next(hdr, a);
    hdr[n := hdr[n].(prevFree := false)][a := hdr[a].(free := false)]
  }

  // Block a keeps `size` bytes; the rest, behind a new header, is free.  The new
  // header's prev and prev-free fields are whatever memory held there.
  function Split(hdr: Headers, a: nat, size: nat, junk: Header): Headers
    requires Plain(hdr, a) && Next(hdr, a) in hdr && size + HEADER_OVERHEAD <= hdr[a].size
  {
    var n := Next(hdr, a);
    var r := a + HEADER_OVERHEAD + size;
    hdr[a := hdr[a].(size := size)]
       [r := Header(junk.prev, hdr[a].size - size - HEADER_OVERHEAD, true, junk.prevFree)]
       [n := hdr[n].(prev := r, prevFree := true)]
  }

  // Block a takes over its right neighbour.
  function Absorb(hdr: Headers, a: nat): Headers
    requires Plain(hdr, a) && Plain(hdr, Next(hdr, a)) && Next(hdr, Next(hdr, a)) in hdr
  {
    var b := Next(hdr, a);
    var n := Next(hdr, b);
    (hdr - {b})[a := hdr[a].(size := hdr[a].size + hdr[b].size + HEADER_OVERHEAD)]
               [n := hdr[n].(prev := a)]
  }

  // ---- Every header operation keeps the layout and repairs the tags ----

  // The layout depends on addresses and sizes only.
  ghost predicate SameShape(hdr: Headers, h: Headers) {
    && h.Keys == hdr.Keys
    && (forall a :: a in h ==> h[a].size == hdr[a].size)
    && (forall a :: a in h && h[a].size == 0 && h[a].free ==> hdr[a].free)
  }

  lemma SameShapeKeeps(hdr: Headers, h: Headers, pools: Pools)
    requires Layout(hdr, pools) && PoolsOk(hdr, pools) && SameShape(hdr, h)
    ensures Layout(h, pools) && PoolsOk(h, pools)
  {
    hide Layout, PoolsOk, SameShape;
    SameShapeLayout(hdr, h, pools);
    SameShapePools(hdr, h, pools);
  }

  lemma SameShapeLayout(hdr: Headers, h: Headers, pools: Pools)
    requires Layout(hdr, pools) && SameShape(hdr, h)
    ensures Layout(h, pools)
  {
    forall a | a in h
      ensures GoodBlock(h, a)
    {
      assert GoodBlock(hdr, a);
    }
    forall a, b | a in h && b in h
      ensures Apart(h, a, b)
    {
      assert Apart(hdr, a, b);
    }
    forall a | a in h
      ensures SentinelOk(h, pools, a)
    {
      assert SentinelOk(hdr, pools, a);
    }
  }

  lemma SameShapePools(hdr: Headers, h: Headers, pools: Pools)
    requires PoolsOk(hdr, pools) && SameShape(hdr, h)
    ensures PoolsOk(h, pools)
  {
    forall p | p in pools
      ensures PoolOk(h, pools, p)
    {
      assert PoolOk(hdr, pools, p);
    }
    forall p, a | p in pools && a in h
      ensures Inside(h, pools, p, a)
    {
      assert Inside(hdr, pools, p, a);
    }
  }

  // Blocks with the same right neighbour are the same block.
  lemma NextInjective(hdr: Headers, pools: Pools, a: nat, b: nat)
    requires Layout(hdr, pools) && a in hdr && b in hdr
    ensures Next(hdr, a) == Next(hdr, b) ==> a == b
  {
    assert Apart(hdr, a, b) && Apart(hdr, b, a);
  }

  // The first block of a pool is no block's right neighbour.
  lemma FirstIsNoNext(hdr: Headers, pools: Pools, a: nat, p: nat)
    requires Layout(hdr, pools) && PoolsOk(hdr, pools) && Plain(hdr, a) && p in pools
    ensures Next(hdr, a) != p
  {
    assert InPool(pools, a);
    var q :| q in pools && q <= a <= pools[q];
    assert PoolOk(hdr, pools, q) && PoolOk(hdr, pools, p);
    assert Apart(hdr, a, pools[q]);
  }

  lemma NextInPool(hdr: Headers, pools: Pools, a: nat)
    requires Layout(hdr, pools) && PoolsOk(hdr, pools) && Plain(hdr, a)
    ensures exists q :: q in pools && q <= a < Next(hdr, a) <= pools[q]
  {
    assert InPool(pools, a);
    var q :| q in pools && q <= a <= pools[q];
    assert PoolOk(hdr, pools, q);
    assert Apart(hdr, a, pools[q]);
  }

  lemma MarkFreeKeeps(hdr: Headers, pools: Pools, a: nat)
    requires Layout(hdr, pools) && PoolsOk(hdr, pools) && Plain(hdr, a) && Next(hdr, a) in hdr
    requires TagsBut(hdr, pools, a)
    ensures var h := MarkFree(hdr, a); Layout(h, pools) && PoolsOk(h, pools) && Tags(h, pools)
  {
    var h := MarkFree(hdr, a);
    assert GoodBlock(hdr, a) && GoodBlock(hdr, Next(hdr, a));
    SameShapeKeeps(hdr, h, pools);
    MarkTags(hdr, h, pools, a);
  }

  lemma MarkUsedKeeps(hdr: Headers, pools: Pools, a: nat)
    requires Layout(hdr, pools) && PoolsOk(hdr, pools) && Plain(hdr, a) && Next(hdr, a) in hdr
    requires TagsBut(hdr, pools, a)
    ensures var h := MarkUsed(hdr, a); Layout(h, pools) && PoolsOk(h, pools) && Tags(h, pools)
  {
    var h := MarkUsed(hdr, a);
    assert GoodBlock(hdr, a) && GoodBlock(hdr, Next(hdr, a));
    SameShapeKeeps(hdr, h, pools);
    MarkTags(hdr, h, pools, a);
  }

  // Changing the state of block a and its record in the neighbour, and nothing
  // else, repairs the tags.
  lemma MarkTags(hdr: Headers, h: Headers, pools: Pools, a: nat)
    requires Layout(hdr, pools) && PoolsOk(hdr, pools) && Plain(hdr, a) && Next(hdr, a) in hdr
    requires TagsBut(hdr, pools, a)
    requires h == MarkFree(hdr, a) || h == MarkUsed(hdr, a)
    ensures Tags(h, pools)
  {
    var n := Next(hdr, a);
    forall b | Plain(h, b)
      ensures TagOk(h, b)
    {
      if b != a {
        assert Plain(hdr, b) && TagOk(hdr, b);
        NextInjective(hdr, pools, a, b);
      }
    }
    forall c | c in h
      ensures BackOk(h, c)
    {
      if c != n {
        assert BackOk(hdr, c);
      }
    }
    forall p | p in pools
      ensures FirstOk(h, p)
    {
      assert FirstOk(hdr, p);
      FirstIsNoNext(hdr, pools, a, p);
    }
  }

  // ---- Splitting and absorbing ----

  lemma SplitGood(hdr: Headers, pools: Pools, a: nat, size: nat, junk: Header, b: nat)
    requires Layout(hdr, pools) && Plain(hdr, a) && Next(hdr, a) in hdr
    requires size % ALIGN_SIZE == 0 && BLOCK_SIZE_MIN <= size && size + HEADER_SIZE <= hdr[a].size
    requires b in Split(hdr, a, size, junk)
    ensures GoodBlock(Split(hdr, a, size, junk), b)
  {
    assert GoodBlock(hdr, a) && GoodBlock(hdr, Next(hdr, a));
    if b in hdr {
      assert GoodBlock(hdr, b);
    }
  }

  lemma SplitApart(hdr: Headers, pools: Pools, a: nat, size: nat, junk: Header, b: nat, c: nat)
    requires Layout(hdr, pools) && Plain(hdr, a) && Next(hdr, a) in hdr
    requires size + HEADER_SIZE <= hdr[a].size
    requires b in Split(hdr, a, size, junk) && c in Split(hdr, a, size, junk)
    ensures Apart(Split(hdr, a, size, junk), b, c)
  {
    if b in hdr {
      assert Apart(hdr, b, a) && Apart(hdr, a, b);
      if c in hdr {
        assert Apart(hdr, b, c);
      }
    } else if c in hdr {
      assert Apart(hdr, a, c);
    }
  }

  // A split block's remainder is a block like any other.
  lemma SplitLayout(hdr: Headers, pools: Pools, a: nat, size: nat, junk: Header)
    requires Layout(hdr, pools) && Plain(hdr, a) && Next(hdr, a) in hdr
    requires size % ALIGN_SIZE == 0 && BLOCK_SIZE_MIN <= size && size + HEADER_SIZE <= hdr[a].size
    ensures Layout(Split(hdr, a, size, junk), pools)
  {
    var h := Split(hdr, a, size, junk);
    var r := a + HEADER_OVERHEAD + size;
    forall b | b in h
      ensures GoodBlock(h, b)
    {
      SplitGood(hdr, pools, a, size, junk, b);
    }
    forall b, c | b in h && c in h
      ensures Apart(h, b, c)
    {
      SplitApart(hdr, pools, a, size, junk, b, c);
    }
    forall b | b in h
      ensures SentinelOk(h, pools, b)
    {
      if b != r {
        assert SentinelOk(hdr, pools, b);
        assert Apart(hdr, b, a) && Apart(hdr, a, b);
      }
    }
  }

  lemma SplitPools(hdr: Headers, pools: Pools, a: nat, size: nat, junk: Header)
    requires Layout(hdr, pools) && PoolsOk(hdr, pools) && Plain(hdr, a) && Next(hdr, a) in hdr
    requires BLOCK_SIZE_MIN <= size && size + HEADER_SIZE <= hdr[a].size
    ensures PoolsOk(Split(hdr, a, size, junk), pools)
  {
    var h := Split(hdr, a, size, junk);
    SplitBlocks(hdr, pools, a, size, junk);
    forall p | p in pools
      ensures PoolOk(h, pools, p)
    {
      assert PoolOk(hdr, pools, p);
    }
    hide PoolOk, Inside, InPool, Split;
    forall p, b | p in pools && b in h
      ensures Inside(h, pools, p, b)
    {
      SplitInside(hdr, pools, a, size, junk, p, b);
    }
    forall b | b in h
      ensures InPool(pools, b)
    {
      SplitInPool(hdr, pools, a, size, junk, b);
    }
  }

  // Splitting adds one block and leaves the sizes of all others but the split one.
  lemma SplitBlocks(hdr: Headers, pools: Pools, a: nat, size: nat, junk: Header)
    requires Layout(hdr, pools) && Plain(hdr, a) && Next(hdr, a) in hdr
    requires BLOCK_SIZE_MIN <= size && size + HEADER_SIZE <= hdr[a].size
    ensures var h, r := Split(hdr, a, size, junk), a + HEADER_OVERHEAD + size;
      && r !in hdr && h.Keys == hdr.Keys + {r} && h[r].size != 0 && h[a].size == size
      && forall b :: b in hdr && b != a ==> h[b].size == hdr[b].size
  {
    var r := a + HEADER_OVERHEAD + size;
    assert r in hdr ==> Apart(hdr, a, r);
  }

  lemma SplitInside(hdr: Headers, pools: Pools, a: nat, size: nat, junk: Header, p: nat, b: nat)
    requires Layout(hdr, pools) && PoolsOk(hdr, pools) && Plain(hdr, a) && Next(hdr, a) in hdr
    requires BLOCK_SIZE_MIN <= size && size + HEADER_SIZE <= hdr[a].size
    requires p in pools && b in Split(hdr, a, size, junk)
    ensures Inside(Split(hdr, a, size, junk), pools, p, b)
  {
    SplitBlocks(hdr, pools, a, size, junk);
    assert b in hdr ==> Inside(hdr, pools, p, b);
  }

  lemma SplitInPool(hdr: Headers, pools: Pools, a: nat, size: nat, junk: Header, b: nat)
    requires Layout(hdr, pools) && PoolsOk(hdr, pools) && Plain(hdr, a) && Next(hdr, a) in hdr
    requires BLOCK_SIZE_MIN <= size && size + HEADER_SIZE <= hdr[a].size
    requires b in Split(hdr, a, size, junk)
    ensures InPool(pools, b)
  {
    SplitBlocks(hdr, pools, a, size, junk);
    if b in hdr {
      assert InPool(pools, b);
    } else {
      NextInPool(hdr, pools, a);
    }
  }

  lemma SplitTags(hdr: Headers, pools: Pools, a: nat, size: nat, junk: Header)
    requires Layout(hdr, pools) && PoolsOk(hdr, pools) && Plain(hdr, a) && Next(hdr, a) in hdr
    requires TagsBut(hdr, pools, a)
    requires size + HEADER_SIZE <= hdr[a].size
    ensures TagsBut(Split(hdr, a, size, junk), pools, a)
  {
    var h := Split(hdr, a, size, junk);
    var r := a + HEADER_OVERHEAD + size;
    var n := Next(hdr, a);
    assert r !in hdr by { assert r in hdr ==> Apart(hdr, a, r); }
    forall b | Plain(h, b) && b != a
      ensures TagOk(h, b)
    {
      if b != r {
        assert Plain(hdr, b) && TagOk(hdr, b);
        NextInjective(hdr, pools, a, b);
        assert Apart(hdr, a, Next(hdr, b));
      }
    }
    forall c | c in h && c != r
      ensures BackOk(h, c)
    {
      if c != n {
        assert BackOk(hdr, c);
      }
    }
    forall p | p in pools
      ensures FirstOk(h, p)
    {
      assert FirstOk(hdr, p);
      FirstIsNoNext(hdr, pools, a, p);
      assert PoolOk(hdr, pools, p);
      assert Apart(hdr, a, p);
    }
  }

  lemma SplitKeeps(hdr: Headers, pools: Pools, a: nat, size: nat, junk: Header)
    requires Layout(hdr, pools) && PoolsOk(hdr, pools) && Plain(hdr, a) && Next(hdr, a) in hdr
    requires TagsBut(hdr, pools, a)
    requires size % ALIGN_SIZE == 0 && BLOCK_SIZE_MIN <= size && size + HEADER_SIZE <= hdr[a].size
    ensures var h := Split(hdr, a, size, junk);
      Layout(h, pools) && PoolsOk(h, pools) && TagsBut(h, pools, a)
  {
    SplitLayout(hdr, pools, a, size, junk);
    SplitPools(hdr, pools, a, size, junk);
    SplitTags(hdr, pools, a, size, junk);
  }

  predicate CanAbsorb(hdr: Headers, a: nat) {
    && Plain(hdr, a) && Plain(hdr, Next(hdr, a))
    && Next(hdr, Next(hdr, a)) in hdr
    && hdr[Next(hdr, a)].free
  }

  // Blocks of one pool never add up to more than the pool, so the sum of two
  // neighbours stays below the largest block size.
  lemma AbsorbFits(hdr: Headers, pools: Pools, a: nat)
    requires Layout(hdr, pools) && PoolsOk(hdr, pools) && CanAbsorb(hdr, a)
    ensures hdr[a].size + HEADER_OVERHEAD + hdr[Next(hdr, a)].size < BLOCK_SIZE_MAX
  {
    var b := Next(hdr, a);
    NextInPool(hdr, pools, a);
    var q :| q in pools && q <= a < b <= pools[q];
    assert PoolOk(hdr, pools, q);
    assert Apart(hdr, b, pools[q]);
  }

  lemma AbsorbLayout(hdr: Headers, pools: Pools, a: nat)
    requires Layout(hdr, pools) && PoolsOk(hdr, pools) && CanAbsorb(hdr, a)
    ensures Layout(Absorb(hdr, a), pools)
  {
    var h := Absorb(hdr, a);
    forall c | c in h
      ensures GoodBlock(h, c)
    {
      AbsorbGood(hdr, pools, a, c);
    }
    forall c, d | c in h && d in h
      ensures Apart(h, c, d)
    {
      AbsorbApart(hdr, pools, a, c, d);
    }
    forall c | c in h
      ensures SentinelOk(h, pools, c)
    {
      assert SentinelOk(hdr, pools, c);
    }
  }

  lemma AbsorbApart(hdr: Headers, pools: Pools, a: nat, c: nat, d: nat)
    requires Layout(hdr, pools) && CanAbsorb(hdr, a) && c in Absorb(hdr, a) && d in Absorb(hdr, a)
    ensures Apart(Absorb(hdr, a), c, d)
  {
    assert Apart(hdr, c, d) && Apart(hdr, a, d) && Apart(hdr, Next(hdr, a), d);
  }

  lemma AbsorbGood(hdr: Headers, pools: Pools, a: nat, c: nat)
    requires Layout(hdr, pools) && PoolsOk(hdr, pools) && CanAbsorb(hdr, a)
    requires c in Absorb(hdr, a)
    ensures GoodBlock(Absorb(hdr, a), c)
  {
    var b := Next(hdr, a);
    AbsorbFits(hdr, pools, a);
    assert GoodBlock(hdr, a) && GoodBlock(hdr, b) && GoodBlock(hdr, c);
    NextInjective(hdr, pools, a, c);
  }

  lemma AbsorbPools(hdr: Headers, pools: Pools, a: nat)
    requires Layout(hdr, pools) && PoolsOk(hdr, pools) && CanAbsorb(hdr, a)
    ensures PoolsOk(Absorb(hdr, a), pools)
  {
    var h := Absorb(hdr, a);
    forall p | p in pools
      ensures PoolOk(h, pools, p)
    {
      assert PoolOk(hdr, pools, p);
      FirstIsNoNext(hdr, pools, a, p);
    }
    forall p, c | p in pools && c in h
      ensures Inside(h, pools, p, c)
    {
      assert Inside(hdr, pools, p, c);
    }
  }

  lemma AbsorbTags(hdr: Headers, pools: Pools, a: nat)
    requires Layout(hdr, pools) && PoolsOk(hdr, pools) && CanAbsorb(hdr, a)
    requires TagsBut(hdr, pools, a)
    ensures TagsBut(Absorb(hdr, a), pools, a)
  {
    var h := Absorb(hdr, a);
    var b := Next(hdr, a);
    forall c | Plain(h, c) && c != a
      ensures TagOk(h, c)
    {
      assert Plain(hdr, c) && TagOk(hdr, c);
      NextInjective(hdr, pools, a, c);
      NextInjective(hdr, pools, b, c);
    }
    forall c | c in h && c != Next(h, a)
      ensures BackOk(h, c)
    {
      assert BackOk(hdr, c);
    }
    forall p | p in pools
      ensures FirstOk(h, p)
    {
      assert FirstOk(hdr, p);
    }
  }

  lemma AbsorbKeeps(hdr: Headers, pools: Pools, a: nat)
    requires Layout(hdr, pools) && PoolsOk(hdr, pools) && CanAbsorb(hdr, a)
    requires TagsBut(hdr, pools, a)
    ensures var h := Absorb(hdr, a);
      && Layout(h, pools) && PoolsOk(h, pools) && TagsBut(h, pools, a)
      && (h[a].free ==> h[Next(h, a)].prev == a)
  {
    AbsorbLayout(hdr, pools, a);
    AbsorbPools(hdr, pools, a);
    AbsorbTags(hdr, pools, a);
  }

  // Two free neighbours become one free block, correctly tagged.
  lemma AbsorbFreeTags(hdr: Headers, pools: Pools, a: nat)
    requires Layout(hdr, pools) && PoolsOk(hdr, pools) && CanAbsorb(hdr, a) && hdr[a].free
    requires Tags(hdr, pools)
    ensures Tags(Absorb(hdr, a), pools)
  {
    var h := Absorb(hdr, a);
    TagsAreTagsBut(hdr, pools, a);
    AbsorbTags(hdr, pools, a);
    assert TagOk(hdr, Next(hdr, a));
    TagsRepaired(h, pools, a);
  }

  lemma TagsAreTagsBut(hdr: Headers, pools: Pools, a: nat)
    requires Tags(hdr, pools)
    ensures TagsBut(hdr, pools, a)
  {
  }

  // The exception disappears once the neighbour's record is right.
  lemma TagsRepaired(hdr: Headers, pools: Pools, a: nat)
    requires TagsBut(hdr, pools, a) && Plain(hdr, a) && TagOk(hdr, a)
    ensures Tags(hdr, pools)
  {
    forall c | c in hdr
      ensures BackOk(hdr, c)
    {
    }
  }

  // ---- The allocated blocks ----

  // The blocks in use, with their sizes: the heap as its clients see it.
  ghost function Used(hdr: Headers): map<nat, nat> {
    map a | a in hdr && !hdr[a].free && hdr[a].size != 0 :: hdr[a].size
  }

  lemma UsedMarkFree(hdr: Headers, a: nat)
    requires Plain(hdr, a) && Next(hdr, a) in hdr
    ensures Used(MarkFree(hdr, a)) == Used(hdr) - {a}
  {
  }

  lemma UsedMarkUsed(hdr: Headers, a: nat)
    requires Plain(hdr, a) && Next(hdr, a) in hdr
    ensures Used(MarkUsed(hdr, a)) == Used(hdr)[a := hdr[a].size]
  {
  }

  lemma UsedSplit(hdr: Headers, a: nat, size: nat, junk: Header)
    requires Plain(hdr, a) && Next(hdr, a) in hdr && size > 0 && size + HEADER_OVERHEAD <= hdr[a].size
    requires a + HEADER_OVERHEAD + size !in hdr
    ensures Used(Split(hdr, a, size, junk)) ==
            if hdr[a].free then Used(hdr) else Used(hdr)[a := size]
  {
  }

  lemma UsedAbsorb(hdr: Headers, a: nat)
    requires CanAbsorb(hdr, a)
    ensures Used(Absorb(hdr, a)) ==
            if hdr[a].free then Used(hdr)
            else Used(hdr)[a := hdr[a].size + HEADER_OVERHEAD + hdr[Next(hdr, a)].size]
  {
  }
}
