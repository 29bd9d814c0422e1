// Pools as a whole: walking their blocks, what their sizes add up to, and adding
// and removing a pool.
module TlsfPools {
  import opened SizeClass
  import opened TlsfHeap
  import opened TlsfLists
  import opened TlsfMemory

  ghost predicate Sound(hdr: Headers, pools: Pools) {
    Layout(hdr, pools) && PoolsOk(hdr, pools)
  }

  // A block that the walk of pool p still has in front of it.
  ghost predicate OnWalk(hdr: Headers, pools: Pools, p: nat, a: nat) {
    Sound(hdr, pools) && p in pools && a in hdr && p <= a <= pools[p]
  }

  lemma WalkStep(hdr: Headers, pools: Pools, p: nat, a: nat)
    requires OnWalk(hdr, pools, p, a) && a != pools[p]
    ensures Plain(hdr, a) && a < Next(hdr, a) && OnWalk(hdr, pools, p, Next(hdr, a))
  {
    assert PoolOk(hdr, pools, p) && Inside(hdr, pools, p, a) && GoodBlock(hdr, a);
    assert Apart(hdr, a, pools[p]);
  }

  lemma FirstOnWalk(hdr: Headers, pools: Pools, p: nat)
    requires Sound(hdr, pools) && Tags(hdr, pools) && p in pools
    ensures OnWalk(hdr, pools, p, p) && !hdr[p].prevFree
  {
    assert PoolOk(hdr, pools, p) && FirstOk(hdr, p);
  }

  lemma SentinelEndsWalk(hdr: Headers, pools: Pools, p: nat, a: nat)
    requires OnWalk(hdr, pools, p, a)
    ensures hdr[a].size == 0 <==> a == pools[p]
  {
    assert PoolOk(hdr, pools, p) && Inside(hdr, pools, p, a);
  }

  // tlsf_walk_pool: the blocks from a up to the sentinel.
  ghost function WalkPool(hdr: Headers, pools: Pools, p: nat, a: nat): seq<nat>
    requires OnWalk(hdr, pools, p, a)
    decreases pools[p] - a
  {
    if a == pools[p] then []
    else
      WalkStep(hdr, pools, p, a);
      [a] + WalkPool(hdr, pools, p, Next(hdr, a))
  }

  // Payload bytes and header words of a list of blocks.
  ghost function Footprint(hdr: Headers, s: seq<nat>): nat
    requires forall a :: a in s ==> a in hdr
  {
    if s == [] then 0 else hdr[s[0]].size + HEADER_OVERHEAD + Footprint(hdr, s[1..])
  }

  ghost predicate Ascending(s: seq<nat>) {
    forall i, j :: 0 <= i < j < |s| ==> s[i] < s[j]
  }

  // The walk meets every block of the pool once, in address order.
  lemma {:induction false} WalkIsExact(hdr: Headers, pools: Pools, p: nat, a: nat)
    requires OnWalk(hdr, pools, p, a)
    ensures forall b :: b in WalkPool(hdr, pools, p, a) <==> b in hdr && a <= b < pools[p]
    decreases pools[p] - a
  {
    if a != pools[p] {
      WalkStep(hdr, pools, p, a);
      WalkIsExact(hdr, pools, p, Next(hdr, a));
      forall b
        ensures b in WalkPool(hdr, pools, p, a) <==> b in hdr && a <= b < pools[p]
      {
        assert b in hdr ==> Apart(hdr, a, b);
      }
    }
  }

  lemma {:induction false} WalkAscends(hdr: Headers, pools: Pools, p: nat, a: nat)
    requires OnWalk(hdr, pools, p, a)
    ensures Ascending(WalkPool(hdr, pools, p, a))
    decreases pools[p] - a
  {
    if a != pools[p] {
      WalkStep(hdr, pools, p, a);
      var t := WalkPool(hdr, pools, p, Next(hdr, a));
      WalkAscends(hdr, pools, p, Next(hdr, a));
      WalkIsExact(hdr, pools, p, Next(hdr, a));
      assert forall j :: 0 <= j < |t| ==> t[j] in t;
    }
  }

  // Conservation: sizes plus header words of all blocks of a pool add up to the
  // extent of the pool, whatever the blocks are.
  lemma {:induction false} PoolConserved(hdr: Headers, pools: Pools, p: nat, a: nat)
    requires OnWalk(hdr, pools, p, a)
    ensures forall b :: b in WalkPool(hdr, pools, p, a) ==> b in hdr
    ensures Footprint(hdr, WalkPool(hdr, pools, p, a)) == pools[p] - a
    decreases pools[p] - a
  {
    WalkIsExact(hdr, pools, p, a);
    if a != pools[p] {
      WalkStep(hdr, pools, p, a);
      PoolConserved(hdr, pools, p, Next(hdr, a));
      assert WalkPool(hdr, pools, p, a)[1..] == WalkPool(hdr, pools, p, Next(hdr, a));
    }
  }

  // Every block that does not start a pool has a left neighbour.
  lemma {:induction false} HasPredecessor(hdr: Headers, pools: Pools, p: nat, a: nat, b: nat) returns (c: nat)
    requires OnWalk(hdr, pools, p, a) && b in hdr && a < b <= pools[p]
    ensures Plain(hdr, c) && Next(hdr, c) == b
    decreases b - a
  {
    WalkStep(hdr, pools, p, a);
    assert Apart(hdr, a, b);
    if Next(hdr, a) == b {
      c := a;
    } else {
      c := HasPredecessor(hdr, pools, p, Next(hdr, a), b);
    }
  }

  lemma StartsPool(hdr: Headers, pools: Pools, b: nat)
    requires Sound(hdr, pools) && b in hdr
    requires forall c :: Plain(hdr, c) ==> Next(hdr, c) != b
    ensures b in pools
  {
    assert InPool(pools, b);
    var p :| p in pools && p <= b <= pools[p];
    assert PoolOk(hdr, pools, p);
    if p < b {
      var c := HasPredecessor(hdr, pools, p, p, b);
    }
  }

  // Once every allocation has been freed, a pool is one free block again: what
  // tlsf_remove_pool asserts.
  lemma AllFreed(hdr: Headers, pools: Pools, p: nat)
    requires Sound(hdr, pools) && Tags(hdr, pools) && CoalescedBut(hdr, {})
    requires Used(hdr) == map[] && p in pools
    ensures Plain(hdr, p) && hdr[p].free && Next(hdr, p) == pools[p]
    ensures pools[p] in hdr && !hdr[pools[p]].free && hdr[pools[p]].size == 0
    ensures hdr[p].size == pools[p] - p - HEADER_OVERHEAD
  {
    assert PoolOk(hdr, pools, p) && TagOk(hdr, p) && GoodBlock(hdr, p) && GoodBlock(hdr, pools[p]);
    var n := Next(hdr, p);
    assert p !in Used(hdr) && n !in Used(hdr);
    assert Apart(hdr, p, pools[p]) && Inside(hdr, pools, p, n);
  }

  // An allocated block: aligned, inside a pool, and apart from every other block.
  lemma Placement(hdr: Headers, pools: Pools, a: nat, b: nat)
    requires Sound(hdr, pools) && a in Used(hdr) && b in Used(hdr) && a != b
    ensures (a + 16) % ALIGN_SIZE == 0
    ensures exists p :: p in pools && p + 16 <= a + 16 && a + 16 + Used(hdr)[a] <= pools[p] + HEADER_OVERHEAD
    ensures a + 16 + Used(hdr)[a] <= b + 8 || b + 16 + Used(hdr)[b] <= a + 8
  {
    assert GoodBlock(hdr, a);
    assert Apart(hdr, a, b) && Apart(hdr, b, a);
    NextInPool(hdr, pools, a);
  }

  // ---- Adding a pool ----

  // The memory of a new pool exists and belongs to nobody, and its first block is not at address 0.
  ghost predicate FreshMemory(mem: Memory, hdr: Headers, nil: nat, start: nat, bytes: nat) {
    && start % 8 == 0 && start > 8 && start + bytes <= SIZE_T
    && (forall w :: start <= w < start + bytes && w % 8 == 0 ==> w in mem)
    && (forall a :: a in hdr ==> a + 16 + hdr[a].size <= start || start + bytes <= a + 8)
    && (start + bytes <= nil || nil + CONTROL_SIZE <= start)
  }

  function AddHeaders(hdr: Headers, first: nat, size: nat): Headers {
    hdr[first := Header(0, size, true, false)]
       [first + HEADER_OVERHEAD + size := Header(first, 0, false, true)]
  }

  ghost predicate AddReady(mem: Memory, hdr: Headers, pools: Pools, nil: nat, start: nat, size: nat) {
    && Sound(hdr, pools) && FreshMemory(mem, hdr, nil, start, size + 16)
    && size % 8 == 0 && BLOCK_SIZE_MIN <= size < BLOCK_SIZE_MAX
  }

  lemma AddApart(mem: Memory, hdr: Headers, pools: Pools, nil: nat, start: nat, size: nat, a: nat)
    requires AddReady(mem, hdr, pools, nil, start, size) && a in hdr
    ensures var first, last := start - HEADER_OVERHEAD, start + size;
      && a != first && a != last
      && (a < first ==> Next(hdr, a) <= first)
      && (a > first ==> a >= last + 8)
      && (a == last + 8 ==> a in pools)
  {
    var last := start + size;
    assert GoodBlock(hdr, a);
    if a == last + 8 && a !in pools {
      forall c | Plain(hdr, c)
        ensures Next(hdr, c) != a
      {
      }
      StartsPool(hdr, pools, a);
    }
  }

  lemma AddGood(mem: Memory, hdr: Headers, pools: Pools, nil: nat, start: nat, size: nat, a: nat)
    requires AddReady(mem, hdr, pools, nil, start, size)
    requires a in AddHeaders(hdr, start - HEADER_OVERHEAD, size)
    ensures GoodBlock(AddHeaders(hdr, start - HEADER_OVERHEAD, size), a)
    ensures SentinelOk(AddHeaders(hdr, start - HEADER_OVERHEAD, size),
                       pools[start - HEADER_OVERHEAD := start + size], a)
  {
    if a in hdr {
      assert GoodBlock(hdr, a) && SentinelOk(hdr, pools, a);
      AddApart(mem, hdr, pools, nil, start, size, a);
    }
    if start + size + 8 in hdr {
      AddApart(mem, hdr, pools, nil, start, size, start + size + 8);
    }
  }

  lemma AddBlocksApart(mem: Memory, hdr: Headers, pools: Pools, nil: nat, start: nat, size: nat, a: nat, b: nat)
    requires AddReady(mem, hdr, pools, nil, start, size)
    requires a in AddHeaders(hdr, start - HEADER_OVERHEAD, size)
    requires b in AddHeaders(hdr, start - HEADER_OVERHEAD, size)
    ensures Apart(AddHeaders(hdr, start - HEADER_OVERHEAD, size), a, b)
  {
    if a in hdr {
      AddApart(mem, hdr, pools, nil, start, size, a);
      assert b in hdr ==> Apart(hdr, a, b);
    }
    if b in hdr {
      AddApart(mem, hdr, pools, nil, start, size, b);
    }
  }

  lemma AddLayout(mem: Memory, hdr: Headers, pools: Pools, nil: nat, start: nat, size: nat)
    requires AddReady(mem, hdr, pools, nil, start, size)
    ensures var first, last := start - HEADER_OVERHEAD, start + size;
      Layout(AddHeaders(hdr, first, size), pools[first := last])
  {
    var first: nat, last: nat := start - HEADER_OVERHEAD, start + size;
    hide AddReady, AddHeaders, GoodBlock, SentinelOk, Apart;
    var h, ps := AddHeaders(hdr, first, size), pools[first := last];
    forall a | a in h
      ensures GoodBlock(h, a) && SentinelOk(h, ps, a)
    {
      AddGood(mem, hdr, pools, nil, start, size, a);
    }
    forall a, b | a in h && b in h
      ensures Apart(h, a, b)
    {
      AddBlocksApart(mem, hdr, pools, nil, start, size, a, b);
    }
  }

  // No other pool reaches into the new one.
  lemma AddPoolApart(mem: Memory, hdr: Headers, pools: Pools, nil: nat, start: nat, size: nat, p: nat)
    requires AddReady(mem, hdr, pools, nil, start, size) && p in pools
    ensures PoolOk(hdr, pools, p) && p != start - HEADER_OVERHEAD && p != start + size
    ensures p < start - HEADER_OVERHEAD ==> pools[p] < start - HEADER_OVERHEAD
    ensures p > start - HEADER_OVERHEAD ==> p > start + size
  {
    var first := start - HEADER_OVERHEAD;
    assert PoolOk(hdr, pools, p);
    AddApart(mem, hdr, pools, nil, start, size, p);
    AddApart(mem, hdr, pools, nil, start, size, pools[p]);
    if p < first && pools[p] > first {
      PoolCovers(mem, hdr, pools, nil, start, size, p, p);
    }
  }

  lemma AddInside(mem: Memory, hdr: Headers, pools: Pools, nil: nat, start: nat, size: nat, p: nat, a: nat)
    requires AddReady(mem, hdr, pools, nil, start, size)
    requires p in pools || p == start - HEADER_OVERHEAD
    requires a in AddHeaders(hdr, start - HEADER_OVERHEAD, size)
    ensures Inside(AddHeaders(hdr, start - HEADER_OVERHEAD, size),
                   pools[start - HEADER_OVERHEAD := start + size], p, a)
  {
    if p in pools {
      AddPoolApart(mem, hdr, pools, nil, start, size, p);
    }
    if a in hdr {
      AddApart(mem, hdr, pools, nil, start, size, a);
      assert p in pools ==> Inside(hdr, pools, p, a);
    }
  }

  lemma AddInPool(mem: Memory, hdr: Headers, pools: Pools, nil: nat, start: nat, size: nat, a: nat)
    requires AddReady(mem, hdr, pools, nil, start, size)
    requires a in AddHeaders(hdr, start - HEADER_OVERHEAD, size)
    ensures InPool(pools[start - HEADER_OVERHEAD := start + size], a)
  {
    var first, last := start - HEADER_OVERHEAD, start + size;
    var ps := pools[first := last];
    if a in hdr {
      assert InPool(pools, a);
      var p :| p in pools && p <= a <= pools[p];
      AddPoolApart(mem, hdr, pools, nil, start, size, p);
      assert p in ps && p <= a <= ps[p];
    } else {
      assert first in ps && first <= a <= ps[first];
    }
  }

  lemma AddPools(mem: Memory, hdr: Headers, pools: Pools, nil: nat, start: nat, size: nat)
    requires AddReady(mem, hdr, pools, nil, start, size)
    ensures var first, last := start - HEADER_OVERHEAD, start + size;
      PoolsOk(AddHeaders(hdr, first, size), pools[first := last])
  {
    var first, last := start - HEADER_OVERHEAD, start + size;
    var h, ps := AddHeaders(hdr, first, size), pools[first := last];
    forall p | p in ps
      ensures PoolOk(h, ps, p)
    {
      if p in pools {
        AddPoolApart(mem, hdr, pools, nil, start, size, p);
      }
    }
    forall p, q | p in ps && q in ps && p < q
      ensures ps[p] < q
    {
      if p in pools {
        AddPoolApart(mem, hdr, pools, nil, start, size, p);
      }
      if q in pools {
        AddPoolApart(mem, hdr, pools, nil, start, size, q);
      }
    }
    hide AddReady, AddHeaders, PoolOk, Inside, InPool;
    forall p, a | p in ps && a in h
      ensures Inside(h, ps, p, a)
    {
      AddInside(mem, hdr, pools, nil, start, size, p, a);
    }
    forall a | a in h
      ensures InPool(ps, a)
    {
      AddInPool(mem, hdr, pools, nil, start, size, a);
    }
  }

  // A pool has no gap that fresh memory could lie in.
  lemma {:induction false} PoolCovers(mem: Memory, hdr: Headers, pools: Pools, nil: nat, start: nat, size: nat,
                                      p: nat, a: nat)
    requires AddReady(mem, hdr, pools, nil, start, size) && OnWalk(hdr, pools, p, a)
    requires a < start - HEADER_OVERHEAD < pools[p]
    ensures false
    decreases pools[p] - a
  {
    WalkStep(hdr, pools, p, a);
    AddApart(mem, hdr, pools, nil, start, size, a);
    AddApart(mem, hdr, pools, nil, start, size, Next(hdr, a));
    PoolCovers(mem, hdr, pools, nil, start, size, p, Next(hdr, a));
  }

  lemma AddTags(mem: Memory, hdr: Headers, pools: Pools, nil: nat, start: nat, size: nat)
    requires AddReady(mem, hdr, pools, nil, start, size) && Tags(hdr, pools) && CoalescedBut(hdr, {})
    ensures var first, last := start - HEADER_OVERHEAD, start + size;
      var h := AddHeaders(hdr, first, size);
      Tags(h, pools[first := last]) && CoalescedBut(h, {}) && Used(h) == Used(hdr)
  {
    var first, last := start - HEADER_OVERHEAD, start + size;
    var h, ps := AddHeaders(hdr, first, size), pools[first := last];
    forall a | a in hdr
      ensures a != first && a != last
    {
      AddApart(mem, hdr, pools, nil, start, size, a);
    }
    forall p | p in ps
      ensures FirstOk(h, p)
    {
      if p in pools {
        assert FirstOk(hdr, p) && PoolOk(hdr, pools, p);
        AddApart(mem, hdr, pools, nil, start, size, p);
      }
    }
    forall a | Plain(h, a)
      ensures TagOk(h, a)
    {
      if a != first {
        assert Plain(hdr, a) && TagOk(hdr, a);
      }
    }
    forall c | c in h
      ensures BackOk(h, c)
    {
      if c in hdr {
        assert BackOk(hdr, c);
      }
    }
  }

  function AddMem(mem: Memory, first: nat, size: nat): Memory {
    var last := first + HEADER_OVERHEAD + size;
    mem[first + 8 := Tag(size, true, false)][last := first][last + 8 := Tag(0, false, true)]
  }

  lemma AddEncodes(mem: Memory, hdr: Headers, links: Links, pools: Pools, nil: nat, start: nat, size: nat)
    requires AddReady(mem, hdr, pools, nil, start, size) && Tags(hdr, pools)
    requires Encodes(mem, hdr, links, pools, nil)
    ensures var first, last := start - HEADER_OVERHEAD, start + size;
      && start in mem && last in mem && last + 8 in mem && first !in links
      && Encodes(AddMem(mem, first, size), AddHeaders(hdr, first, size), links, pools[first := last], nil)
  {
    hide MappingInsert, Tag, AddMem, WordOk;
    var first, last := start - HEADER_OVERHEAD, start + size;
    var m, h, ps := AddMem(mem, first, size), AddHeaders(hdr, first, size), pools[first := last];
    AddFirst(mem, hdr, pools, nil, start, size);
    forall a | a in h
      ensures WordOk(m, h, ps, a) && Backed(m.Keys, h, nil, a)
    {
      if a in hdr {
        AddApart(mem, hdr, pools, nil, start, size, a);
        assert WordOk(mem, hdr, pools, a) && Backed(mem.Keys, hdr, nil, a);
        AddWord(mem, hdr, pools, nil, start, size, a);
      } else {
        AddOwn(mem, hdr, pools, nil, start, size, a);
      }
    }
    forall b | b in links
      ensures LinkWordOk(m, h, links, b) && b != first
    {
      AddLink(mem, hdr, links, pools, nil, start, size, b);
    }
  }

  // The words of the new pool's own two headers.
  lemma AddFirst(mem: Memory, hdr: Headers, pools: Pools, nil: nat, start: nat, size: nat)
    requires AddReady(mem, hdr, pools, nil, start, size)
    ensures start in mem && start + size in mem && start + size + 8 in mem
    ensures AddMem(mem, start - HEADER_OVERHEAD, size).Keys == mem.Keys
  {
  }

  lemma AddOwn(mem: Memory, hdr: Headers, pools: Pools, nil: nat, start: nat, size: nat, a: nat)
    requires AddReady(mem, hdr, pools, nil, start, size)
    requires a == start - HEADER_OVERHEAD || a == start + size
    ensures a in AddHeaders(hdr, start - HEADER_OVERHEAD, size)
    ensures WordOk(AddMem(mem, start - HEADER_OVERHEAD, size), AddHeaders(hdr, start - HEADER_OVERHEAD, size),
                   pools[start - HEADER_OVERHEAD := start + size], a)
    ensures Backed(mem.Keys, AddHeaders(hdr, start - HEADER_OVERHEAD, size), nil, a)
  {
    hide Sound, Tag;
  }

  lemma AddLink(mem: Memory, hdr: Headers, links: Links, pools: Pools, nil: nat, start: nat, size: nat, b: nat)
    requires AddReady(mem, hdr, pools, nil, start, size)
    requires Encodes(mem, hdr, links, pools, nil) && b in links
    ensures var first := start - HEADER_OVERHEAD;
      b != first && LinkWordOk(AddMem(mem, first, size), AddHeaders(hdr, first, size), links, b)
  {
    hide Tag;
    assert LinkWordOk(mem, hdr, links, b) && GoodBlock(hdr, b);
    AddApart(mem, hdr, pools, nil, start, size, b);
  }

  lemma AddWord(mem: Memory, hdr: Headers, pools: Pools, nil: nat, start: nat, size: nat, a: nat)
    requires AddReady(mem, hdr, pools, nil, start, size) && Tags(hdr, pools)
    requires a in hdr && WordOk(mem, hdr, pools, a)
    ensures var first := start - HEADER_OVERHEAD;
      WordOk(AddMem(mem, first, size), AddHeaders(hdr, first, size), pools[first := start + size], a)
  {
    hide Tag;
    AddApart(mem, hdr, pools, nil, start, size, a);
    assert BackOk(hdr, a);
    if hdr[a].prevFree {
      AddApart(mem, hdr, pools, nil, start, size, hdr[a].prev);
    }
  }

  // ---- Removing a pool ----

  ghost predicate Removable(hdr: Headers, pools: Pools, p: nat) {
    && Sound(hdr, pools) && Tags(hdr, pools) && CoalescedBut(hdr, {})
    && p in pools && Plain(hdr, p) && hdr[p].free && Next(hdr, p) == pools[p]
  }

  lemma RemoveApart(hdr: Headers, pools: Pools, p: nat, a: nat)
    requires Removable(hdr, pools, p) && a in hdr && a != p && a != pools[p]
    ensures hdr[a].size != 0 ==> Next(hdr, a) in hdr && Next(hdr, a) != p && Next(hdr, a) != pools[p]
    ensures a < p || a > pools[p]
  {
    assert GoodBlock(hdr, a);
    if hdr[a].size != 0 {
      assert Plain(hdr, a);
      FirstIsNoNext(hdr, pools, a, p);
      NextInjective(hdr, pools, a, p);
    }
    assert Apart(hdr, p, a);
  }

  lemma RemoveLayout(hdr: Headers, pools: Pools, p: nat)
    requires Removable(hdr, pools, p)
    ensures Layout(hdr - {p, pools[p]}, pools - {p})
  {
    var h, ps := hdr - {p, pools[p]}, pools - {p};
    forall a | a in h
      ensures GoodBlock(h, a) && SentinelOk(h, ps, a)
    {
      assert GoodBlock(hdr, a) && SentinelOk(hdr, pools, a);
      RemoveApart(hdr, pools, p, a);
    }
    forall a, b | a in h && b in h
      ensures Apart(h, a, b)
    {
      assert Apart(hdr, a, b);
    }
  }

  lemma RemovePools(hdr: Headers, pools: Pools, p: nat)
    requires Removable(hdr, pools, p)
    ensures PoolsOk(hdr - {p, pools[p]}, pools - {p})
  {
    var h, ps := hdr - {p, pools[p]}, pools - {p};
    assert PoolOk(hdr, pools, p);
    forall q | q in ps
      ensures PoolOk(h, ps, q)
    {
      assert PoolOk(hdr, pools, q);
    }
    forall q, a | q in ps && a in h
      ensures Inside(h, ps, q, a)
    {
      assert Inside(hdr, pools, q, a);
    }
    forall a | a in h
      ensures InPool(ps, a)
    {
      assert InPool(pools, a);
      var q :| q in pools && q <= a <= pools[q];
      RemoveApart(hdr, pools, p, a);
      assert q in ps && q <= a <= ps[q];
    }
  }

  lemma RemoveTags(hdr: Headers, pools: Pools, p: nat)
    requires Removable(hdr, pools, p)
    ensures var h := hdr - {p, pools[p]};
      Tags(h, pools - {p}) && CoalescedBut(h, {}) && Used(h) == Used(hdr)
  {
    var h, ps := hdr - {p, pools[p]}, pools - {p};
    assert PoolOk(hdr, pools, p);
    forall a | Plain(h, a)
      ensures TagOk(h, a)
    {
      assert TagOk(hdr, a);
      RemoveApart(hdr, pools, p, a);
    }
    forall a | a in h
      ensures BackOk(h, a)
    {
      assert BackOk(hdr, a);
    }
    forall q | q in ps
      ensures FirstOk(h, q)
    {
      assert FirstOk(hdr, q);
    }
  }

  lemma RemoveEncodesPool(mem: Memory, hdr: Headers, links: Links, pools: Pools, nil: nat, p: nat)
    requires Encodes(mem, hdr, links, pools, nil) && Sound(hdr, pools) && p in pools && p !in links
    ensures Encodes(mem, hdr - {p, pools[p]}, links, pools - {p}, nil)
  {
    hide MappingInsert, Tag;
    var h, ps := hdr - {p, pools[p]}, pools - {p};
    assert PoolOk(hdr, pools, p);
    forall a | a in h
      ensures WordOk(mem, h, ps, a) && Backed(mem.Keys, h, nil, a)
    {
      assert WordOk(mem, hdr, pools, a) && Backed(mem.Keys, hdr, nil, a);
    }
    forall b | b in links
      ensures LinkWordOk(mem, h, links, b)
    {
      assert LinkWordOk(mem, hdr, links, b);
    }
  }
}
