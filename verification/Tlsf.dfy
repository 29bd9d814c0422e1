// The TLSF allocator: one control structure over word-addressed memory, updated in
// place.  The ghost fields give the meaning of the words: the decoded headers, the
// decoded list links, and the extent of each pool.
module TlsfAllocator {
  import opened Bits
  import opened SizeClass
  import opened Alignment
  import opened Options
  import opened TlsfHeap
  import opened TlsfLists
  import opened TlsfMemory
  import opened TlsfPools

  class Tlsf {
    const blockNull: nat           // address of control->block_null
    var mem: Memory
    var flBitmap: nat
    var slBitmap: seq<nat>
    var blocks: Heads

    ghost var hdr: Headers
    ghost var links: Links
    ghost var pools: Pools
    ghost var clock: nat

    // What holds at every point between two helper calls.
    ghost predicate Consistent()
      reads this
    {
      && blockNull != 0
      && Layout(hdr, pools) && PoolsOk(hdr, pools)
      && Encodes(mem, hdr, links, pools, blockNull)
      && FreeLists(links, blocks, blockNull, clock)
      && Bitmaps(blocks, flBitmap, slBitmap, blockNull)
    }

    // What holds between two calls of the public interface.
    ghost predicate Valid()
      reads this
    {
      Consistent() && Tags(hdr, pools) && CoalescedBut(hdr, {}) && ListedBut({})
    }

    // tlsf_create: control_construct over existing memory.
    constructor (memory: Memory, blockNull: nat)
      requires blockNull != 0 && blockNull + 16 in memory && blockNull + 24 in memory
      ensures Valid() && hdr == map[] && pools == map[] && this.blockNull == blockNull
      ensures mem == memory[blockNull + 16 := blockNull][blockNull + 24 := blockNull]
    {
      this.blockNull := blockNull;
      mem := memory[blockNull + 16 := blockNull][blockNull + 24 := blockNull];
      flBitmap := 0;
      slBitmap := seq(FL_INDEX_COUNT, i => 0);
      blocks := seq(FL_INDEX_COUNT, i => seq(SL_INDEX_COUNT, j => blockNull));
      hdr, links, pools, clock := map[], map[], map[], 0;
      new;
      EmptyBitmaps(blocks, slBitmap, this.blockNull);
    }

    // Between helper calls one free block, if any, is outside the lists.
    ghost predicate ListedBut(but: set<nat>)
      reads this
    {
      forall a :: a in hdr && hdr[a].free && a !in but ==> a in links
    }

    // The state while one free block is checked out of the free lists.
    ghost predicate Holding(block: nat, but: set<nat>)
      reads this
    {
      && Consistent() && Tags(hdr, pools)
      && Plain(hdr, block) && Next(hdr, block) in hdr && hdr[block].free
      && block !in links && ListedBut({block}) && CoalescedBut(hdr, but)
    }

    // ---- Pools ----

    // The two headers of a new pool: one free block over all of it, and the sentinel behind.
    method WritePool(block: nat, poolBytes: nat)
      requires poolBytes % 8 == 0 && block + 8 in mem
      requires block + 8 + poolBytes in mem && block + 16 + poolBytes in mem
      modifies this`mem
      ensures mem == AddMem(old(mem), block, poolBytes)
    {
      FreshTag(mem[block + 8], poolBytes, mem[block + 16 + poolBytes]);
      hide Tag, SetSize, SetFree, SetUsed, SetPrevFree, SetPrevUsed, BlockSize;
      mem := mem[block + 8 := SetPrevUsed(SetFree(SetSize(mem[block + 8], poolBytes)))];
      var next := block + 16 + BlockSize(mem[block + 8]) - HEADER_OVERHEAD;
      mem := mem[next := block];
      mem := mem[next + 8 := SetPrevFree(SetUsed(SetSize(mem[next + 8], 0)))];
    }

    // tlsf_add_pool, for pools below 4 GiB.  The sentinel is written before the list
    // insertion, the original writes it after; the words are distinct.
    method AddPool(start: nat, bytes: nat) returns (pool: Option<nat>)
      requires Valid() && start < SIZE_T && bytes < SIZE_T
      requires PoolBytes(bytes) != BLOCK_SIZE_MAX
      requires start % ALIGN_SIZE == 0 && BLOCK_SIZE_MIN <= PoolBytes(bytes) < BLOCK_SIZE_MAX ==>
        FreshMemory(mem, hdr, blockNull, start, PoolBytes(bytes) + 2 * HEADER_OVERHEAD)
      modifies this
      ensures Valid()
      ensures pool.Some? <==> start % ALIGN_SIZE == 0 && BLOCK_SIZE_MIN <= PoolBytes(bytes) < BLOCK_SIZE_MAX
      ensures pool.None? ==> mem == old(mem) && hdr == old(hdr) && pools == old(pools)
      ensures pool.Some? ==>
        && pool.value == start && Used(hdr) == Used(old(hdr))
        && hdr == AddHeaders(old(hdr), start - HEADER_OVERHEAD, PoolBytes(bytes))
        && pools == old(pools)[start - HEADER_OVERHEAD := start + PoolBytes(bytes)]
      ensures PayloadsKept(old(mem), mem, old(hdr), {})
    {
      hide Layout, PoolsOk, Encodes, FreeLists, Bitmaps, Protects, Kept, Tags, CoalescedBut, Used;
      var poolBytes := PoolBytes(bytes);
      if start % ALIGN_SIZE != 0 {
        return None;
      }
      if poolBytes < BLOCK_SIZE_MIN || poolBytes > BLOCK_SIZE_MAX {
        return None;
      }
      var block := start - HEADER_OVERHEAD;
      AddEncodes(mem, hdr, links, pools, blockNull, start, poolBytes);
      AddLayout(mem, hdr, pools, blockNull, start, poolBytes);
      AddPools(mem, hdr, pools, blockNull, start, poolBytes);
      AddTags(mem, hdr, pools, blockNull, start, poolBytes);
      ghost var mem0, hdr0 := mem, hdr;
      WritePool(block, poolBytes);
      hdr := AddHeaders(hdr, block, poolBytes);
      pools := pools[block := start + poolBytes];
      AddPayloads(mem0, hdr0, blockNull, start, poolBytes);
      PayloadsProtected(mem, hdr, links, pools, blockNull, {});
      label Written:
      ghost var keep := Payloads(mem, hdr, {});
      BlockInsert(block, keep);
      KeptPayloads(old@Written(mem), mem, hdr, {});
      AddKept(mem0, old@Written(mem), mem, hdr0, hdr);
      return Some(start);
    }

    // tlsf_remove_pool; its assertions are the precondition.
    method RemovePool(pool: nat)
      requires Valid() && pool >= HEADER_OVERHEAD && pool - HEADER_OVERHEAD in pools
      requires var b := pool - HEADER_OVERHEAD;
        Plain(hdr, b) && hdr[b].free && Next(hdr, b) == pools[b]
      modifies this
      ensures Valid() && Used(hdr) == Used(old(hdr))
      ensures pools == old(pools) - {pool - HEADER_OVERHEAD}
      ensures hdr == old(hdr) - {pool - HEADER_OVERHEAD, old(pools)[pool - HEADER_OVERHEAD]}
    {
      hide Layout, PoolsOk, Encodes, FreeLists, Bitmaps, Kept, Tags, CoalescedBut, Used, MappingInsert;
      var block := pool - HEADER_OVERHEAD;
      ghost var sentinel := pools[block];
      ReadSize(mem, hdr, links, pools, blockNull, block);
      RemoveLayout(hdr, pools, block);
      RemovePools(hdr, pools, block);
      RemoveTags(hdr, pools, block);
      BlockRemove(block, {});
      RemoveEncodesPool(mem, hdr, links, pools, blockNull, block);
      hdr, pools := hdr - {block, sentinel}, pools - {block};
    }

    // ---- The integrity checks ----

    // tlsf_check: over every list and bitmap.
    method Check() returns (status: int)
      requires Valid()
      ensures status == 0
    {
      hide Layout, PoolsOk, Encodes, FreeLists, Bitmaps, Tags, CoalescedBut, Bit, IsFree, IsPrevFree;
      hide BlockSize, MappingInsert;
      status := 0;
      CheckedTables(blocks, flBitmap, slBitmap, links, blockNull, clock);
      for i := 0 to FL_INDEX_COUNT
        invariant status == 0
      {
        for j := 0 to SL_INDEX_COUNT
          invariant status == 0
        {
          var flMap := Bit(flBitmap, i);
          var slList := slBitmap[i];
          var slMap := Bit(slList, j);
          var block := blocks[i][j];
          CheckedList(blocks, flBitmap, slBitmap, links, blockNull, clock, Class(i, j));
          if !flMap && slMap {
            status := status - 1;
          }
          if !slMap {
            if block != blockNull {
              status := status - 1;
            }
            continue;
          }
          if slList == 0 || block == blockNull {
            status := status - 1;
          }
          while block != blockNull
            invariant status == 0
            invariant block == blockNull || (block in links && links[block].cls == Class(i, j))
            decreases if block == blockNull then 0 else links[block].stamp + 1
          {
            CheckedBlock(mem, hdr, links, pools, blockNull, blocks, clock, block);
            var next := BlockNext(block);
            var w, v := mem[block + 8], mem[next + 8];
            if !IsFree(w) || IsPrevFree(w) || IsFree(v) || !IsPrevFree(v) || BlockSize(w) < BLOCK_SIZE_MIN {
              status := status - 1;
            }
            if MappingInsert(BlockSize(w)) != Class(i, j) {
              status := status - 1;
            }
            block := mem[block + 16];
          }
        }
      }
    }

    // tlsf_check_pool: along the blocks of one pool, each with the status it records
    // for its predecessor.
    method CheckPool(pool: nat) returns (status: int)
      requires Valid() && pool >= HEADER_OVERHEAD && pool - HEADER_OVERHEAD in pools
      ensures status == 0
    {
      hide Layout, PoolsOk, Encodes, FreeLists, Bitmaps, CoalescedBut, IsFree, IsPrevFree, BlockSize, MappingInsert;
      status := 0;
      var block := pool - HEADER_OVERHEAD;
      ghost var first := block;
      FirstOnWalk(hdr, pools, first);
      ReadSize(mem, hdr, links, pools, blockNull, block);
      var prevStatus := false;
      while BlockSize(mem[block + 8]) != 0
        invariant status == 0 && OnWalk(hdr, pools, first, block) && block + 8 in mem
        invariant BlockSize(mem[block + 8]) == hdr[block].size
        invariant IsPrevFree(mem[block + 8]) == hdr[block].prevFree == prevStatus
        decreases pools[first] - block
      {
        ReadSize(mem, hdr, links, pools, blockNull, block);
        SentinelEndsWalk(hdr, pools, first, block);
        WalkStep(hdr, pools, first, block);
        if prevStatus != IsPrevFree(mem[block + 8]) {
          status := status - 1;
        }
        prevStatus := IsFree(mem[block + 8]);
        assert TagOk(hdr, block);
        block := BlockNext(block);
        ReadSize(mem, hdr, links, pools, blockNull, block);
      }
    }

    // ---- Free lists ----

    // The stores of remove_free_block, whatever the rest of memory holds.
    method UnlinkWords(block: nat, fl: nat, sl: nat)
      requires ValidClass(Class(fl, sl)) && Shaped(blocks) && |slBitmap| == FL_INDEX_COUNT
      requires block + 16 in mem && block + 24 in mem && mem[block + 16] != 0 && mem[block + 24] != 0
      modifies `mem, `blocks, `flBitmap, `slBitmap
      ensures var next, prev := old(mem)[block + 16], old(mem)[block + 24];
        mem == RemoveMem(old(mem), next, prev)
      ensures Head(old(blocks), Class(fl, sl)) != block ==>
        blocks == old(blocks) && slBitmap == old(slBitmap) && flBitmap == old(flBitmap)
      ensures Head(old(blocks), Class(fl, sl)) == block ==> var next := old(mem)[block + 16];
        && blocks == SetHead(old(blocks), Class(fl, sl), next)
        && (next != blockNull ==> slBitmap == old(slBitmap) && flBitmap == old(flBitmap))
        && (next == blockNull ==>
             && slBitmap == ClearSl(old(slBitmap), Class(fl, sl))
             && flBitmap == if slBitmap[fl] == 0 then AndNot(old(flBitmap), Pow2(fl)) else old(flBitmap))
    {
      hide AndNot, Pow2;
      var prev := mem[block + 24];
      var next := mem[block + 16];
      assert prev != 0 && next != 0;
      mem := mem[next + 24 := prev];
      mem := mem[prev + 16 := next];
      if blocks[fl][sl] == block {
        var row: seq<nat> := blocks[fl][sl := next];
        blocks := blocks[fl := row];
        if next == blockNull {
          slBitmap := slBitmap[fl := AndNot(slBitmap[fl], Pow2(sl))];
          if slBitmap[fl] == 0 {
            flBitmap := AndNot(flBitmap, Pow2(fl));
          }
        }
      }
    }

    // The stores of insert_free_block likewise.
    method LinkWords(block: nat, fl: nat, sl: nat)
      requires ValidClass(Class(fl, sl)) && Shaped(blocks) && |slBitmap| == FL_INDEX_COUNT
      requires block != 0 && Head(blocks, Class(fl, sl)) != 0
      modifies `mem, `blocks, `flBitmap, `slBitmap
      ensures mem == InsertMem(old(mem), blockNull, block, Head(old(blocks), Class(fl, sl)))
      ensures blocks == SetHead(old(blocks), Class(fl, sl), block)
      ensures flBitmap == Or(old(flBitmap), Pow2(fl))
      ensures slBitmap == old(slBitmap)[fl := Or(old(slBitmap)[fl], Pow2(sl))]
    {
      hide Or, Pow2;
      var current := blocks[fl][sl];
      assert current != 0 && block != 0;
      mem := mem[block + 16 := current];
      mem := mem[block + 24 := blockNull];
      mem := mem[current + 24 := block];
      var row: seq<nat> := blocks[fl][sl := block];
      blocks := blocks[fl := row];
      flBitmap := Or(flBitmap, Pow2(fl));
      slBitmap := slBitmap[fl := Or(slBitmap[fl], Pow2(sl))];
    }

    method RemoveFreeBlock(block: nat, fl: nat, sl: nat, ghost keep: set<nat>)
      requires Consistent() && block in links && links[block].cls == Class(fl, sl)
      requires Protects(keep, hdr, blockNull)
      modifies this
      ensures Consistent() && Kept(old(mem), mem, keep)
      ensures hdr == old(hdr) && pools == old(pools) && links.Keys == old(links.Keys) - {block}
    {
      hide Layout, PoolsOk, Protects, Kept, MappingInsert, Bit, AndNot, Pow2;
      ghost var c := Class(fl, sl);
      assert LinkOk(links, blocks, blockNull, clock, block);
      RemoveEncodes(mem, hdr, links, pools, blockNull, blocks, clock, block);
      RemoveKeeps(links, blocks, blockNull, clock, block);
      RemoveKept(mem, hdr, links, pools, blockNull, keep, block, links[block].next, links[block].prev);
      NeighboursNonNull(hdr, links, pools, blockNull, blocks, clock, mem, block);
      if links[block].next == blockNull {
        BitmapClear(blocks, flBitmap, slBitmap, blockNull, c);
      } else if blocks[fl][sl] == block {
        BitmapSame(blocks, flBitmap, slBitmap, blockNull, c, links[block].next);
      }
      UnlinkWords(block, fl, sl);
      links := RemoveLinks(links, blockNull, block);
    }

    method InsertFreeBlock(block: nat, fl: nat, sl: nat, ghost keep: set<nat>)
      requires Consistent() && Plain(hdr, block) && hdr[block].free && block !in links
      requires MappingInsert(hdr[block].size) == Class(fl, sl)
      requires Protects(keep, hdr, blockNull)
      modifies this
      ensures Consistent() && Kept(old(mem), mem, keep)
      ensures hdr == old(hdr) && pools == old(pools) && links.Keys == old(links.Keys) + {block}
    {
      hide Layout, PoolsOk, Encodes, FreeLists, Bitmaps, Protects, Kept, MappingInsert, Or, Pow2, InsertLinks;
      ghost var c := Class(fl, sl);
      HeadNonNull(mem, hdr, links, pools, blockNull, blocks, clock, block);
      InsertStep(mem, hdr, links, pools, blockNull, blocks, clock, flBitmap, slBitmap, block, c);
      InsertKept(mem, hdr, links, pools, blockNull, keep, block, Head(blocks, c));
      ghost var links' := InsertLinks(links, blocks, blockNull, clock, block, c);
      LinkWords(block, fl, sl);
      InsertLinksKeys(links, old(blocks), blockNull, clock, block, c);
      links, clock := links', clock + 1;
    }

    method BlockRemove(block: nat, ghost keep: set<nat>)
      requires Consistent() && block in links
      requires Protects(keep, hdr, blockNull)
      modifies this
      ensures Consistent() && Kept(old(mem), mem, keep)
      ensures hdr == old(hdr) && pools == old(pools) && links.Keys == old(links.Keys) - {block}
    {
      hide Layout, PoolsOk, FreeLists, Bitmaps, Protects, Kept, MappingInsert;
      assert LinkWordOk(mem, hdr, links, block);
      ReadSize(mem, hdr, links, pools, blockNull, block);
      var c := MappingInsert(BlockSize(mem[block + 8]));
      RemoveFreeBlock(block, c.fl, c.sl, keep);
    }

    method BlockInsert(block: nat, ghost keep: set<nat>)
      requires Consistent() && Plain(hdr, block) && hdr[block].free && block !in links
      requires Protects(keep, hdr, blockNull)
      modifies this
      ensures Consistent() && Kept(old(mem), mem, keep)
      ensures hdr == old(hdr) && pools == old(pools) && links.Keys == old(links.Keys) + {block}
    {
      hide Layout, PoolsOk, FreeLists, Bitmaps, Protects, Kept, MappingInsert;
      ReadSize(mem, hdr, links, pools, blockNull, block);
      var c := MappingInsert(BlockSize(mem[block + 8]));
      InsertFreeBlock(block, c.fl, c.sl, keep);
    }

    method SearchSuitableBlock(fli: nat, sli: nat) returns (block: Option<nat>, fl: nat, sl: nat)
      requires Consistent() && fli < FL_INDEX_COUNT && sli < SL_INDEX_COUNT
      ensures block.None? ==> AllEmpty(blocks, blockNull, Class(fli, sli))
      ensures block.Some? ==>
        && LeastNonEmpty(blocks, blockNull, Class(fli, sli), Class(fl, sl))
        && block.value == Head(blocks, Class(fl, sl))
    {
      hide Layout, PoolsOk, Encodes, FreeLists, Bit, And, OnesFrom, Ffs;
      fl, sl := fli, sli;
      var slMap := And(slBitmap[fl], OnesFrom(sl));
      RowSearch(blocks, flBitmap, slBitmap, blockNull, fl, sl);
      if slMap == 0 {
        var flMap := And(flBitmap, OnesFrom(fl + 1));
        ColumnSearch(blocks, flBitmap, slBitmap, blockNull, fl + 1);
        if flMap == 0 {
          RowsEmpty(blocks, flBitmap, slBitmap, blockNull, fl + 1, FL_INDEX_COUNT);
          return None, fl, sl;
        }
        fl := Ffs(flMap);
        slMap := slBitmap[fl];
        RowsEmpty(blocks, flBitmap, slBitmap, blockNull, fli + 1, fl);
        RowLeast(blocks, flBitmap, slBitmap, blockNull, fl);
      }
      sl := Ffs(slMap);
      block := Some(blocks[fl][sl]);
    }

    method BlockLocateFree(size: nat, ghost keep: set<nat>) returns (block: Option<nat>)
      requires Valid() && size % ALIGN_SIZE == 0
      requires Protects(keep, hdr, blockNull)
      modifies this
      ensures hdr == old(hdr) && pools == old(pools) && Kept(old(mem), mem, keep)
      ensures block.None? ==> Valid() && mem == old(mem)
      ensures block.None? <==> size == 0 || NoFit(hdr, size)
      ensures block.Some? ==> Holding(block.value, {}) && GoodFit(hdr, size, block.value)
    {
      hide Layout, PoolsOk, Encodes, FreeLists, Bitmaps, Protects, Tags, NoFit, MappingSearch, MappingInsert;
      block := None;
      var fl, sl := 0, 0;
      if size != 0 {
        var c := MappingSearch(size);
        fl, sl := c.fl, c.sl;
        SearchClassBounds(size);
        if fl < FL_INDEX_COUNT {
          block, fl, sl := SearchSuitableBlock(fl, sl);
        }
        SearchMeaning(mem, hdr, links, pools, blockNull, blocks, clock, size, block, Class(fl, sl));
      }
      if block.Some? {
        PlainFree(hdr, pools, block.value);
        RemoveFreeBlock(block.value, fl, sl, keep);
      }
    }

    // ---- Boundary tags ----

    // block_next, with its assertion that the block is not a sentinel.
    method BlockNext(block: nat) returns (next: nat)
      requires Consistent() && Plain(hdr, block)
      ensures next == Next(hdr, block) && next in hdr
    {
      hide FreeLists, Bitmaps, MappingInsert, BlockSize, IsFree, IsPrevFree;
      ReadSize(mem, hdr, links, pools, blockNull, block);
      assert GoodBlock(hdr, block);
      var size := BlockSize(mem[block + 8]);
      assert size != 0;
      next := block + 16 + size - HEADER_OVERHEAD;
    }

    method BlockMarkAsFree(block: nat, ghost keep: set<nat>)
      requires Consistent() && Plain(hdr, block) && Next(hdr, block) in hdr && block !in links
      requires TagsBut(hdr, pools, block)
      requires Protects(keep, MarkFree(hdr, block), blockNull)
      modifies this`mem, this`hdr
      ensures Consistent() && Tags(hdr, pools) && Kept(old(mem), mem, keep)
      ensures hdr == MarkFree(old(hdr), block)
    {
      hide FreeLists, Bitmaps, Protects, Kept, TagsBut, Tags, PoolsOk, MappingInsert, SetFree, SetPrevFree;
      var next := BlockNext(block);
      assert WordOk(mem, hdr, pools, block) && WordOk(mem, hdr, pools, next);
      assert GoodBlock(hdr, block);
      MarkFreeKeeps(hdr, pools, block);
      MarkFreeEncodes(mem, hdr, links, pools, blockNull, block);
      MarkFreeKept(mem, hdr, blockNull, keep, block);
      ghost var hdr' := MarkFree(hdr, block);
      mem := mem[next := block];
      mem := mem[next + 8 := SetPrevFree(mem[next + 8])];
      mem := mem[block + 8 := SetFree(mem[block + 8])];
      hdr := hdr';
    }

    method BlockMarkAsUsed(block: nat, ghost keep: set<nat>)
      requires Consistent() && Plain(hdr, block) && Next(hdr, block) in hdr && block !in links
      requires TagsBut(hdr, pools, block)
      requires Protects(keep, hdr, blockNull)
      modifies this`mem, this`hdr
      ensures Consistent() && Tags(hdr, pools) && Kept(old(mem), mem, keep)
      ensures hdr == MarkUsed(old(hdr), block) && Protects(keep, hdr, blockNull)
    {
      hide FreeLists, Bitmaps, Protects, Kept, TagsBut, Tags, PoolsOk, MappingInsert, SetUsed, SetPrevUsed;
      var next := BlockNext(block);
      assert WordOk(mem, hdr, pools, block) && WordOk(mem, hdr, pools, next);
      assert GoodBlock(hdr, block);
      MarkUsedKeeps(hdr, pools, block);
      MarkUsedEncodes(mem, hdr, links, pools, blockNull, block);
      MarkUsedKept(mem, hdr, blockNull, keep, block);
      ghost var hdr' := MarkUsed(hdr, block);
      mem := mem[next + 8 := SetPrevUsed(mem[next + 8])];
      mem := mem[block + 8 := SetUsed(mem[block + 8])];
      hdr := hdr';
    }

    // The remainder's prev-free bit and prev_phys_block are whatever was there.
    method BlockSplit(block: nat, size: nat, ghost keep: set<nat>) returns (remaining: nat)
      requires Consistent() && Plain(hdr, block) && Next(hdr, block) in hdr && block !in links
      requires TagsBut(hdr, pools, block)
      requires size % ALIGN_SIZE == 0 && BLOCK_SIZE_MIN <= size && size + HEADER_SIZE <= hdr[block].size
      requires Protects(keep, Split(hdr, block, size, BLANK), blockNull)
      modifies this`mem, this`hdr
      ensures Consistent() && TagsBut(hdr, pools, block) && Kept(old(mem), mem, keep)
      ensures remaining in hdr && remaining == block + HEADER_OVERHEAD + size
      ensures remaining !in old(hdr)
      ensures Protects(keep, hdr, blockNull)
      ensures exists junk :: hdr == Split(old(hdr), block, size, junk)
      ensures remaining in mem && mem[remaining] == hdr[remaining].prev
    {
      hide Layout, Encodes, FreeLists, Bitmaps, Protects, Kept, TagsBut, PoolsOk, MappingInsert;
      hide SetSize, SetFree, SetPrevFree, BlockSize, IsFree, IsPrevFree, Tag;
      SplitRoom(mem, hdr, links, pools, blockNull, block, size);
      ReadSize(mem, hdr, links, pools, blockNull, block);
      remaining := block + 16 + size - HEADER_OVERHEAD;
      var remainSize := BlockSize(mem[block + 8]) - (size + HEADER_OVERHEAD);
      ghost var junk := Junk(mem, remaining);
      SplitKeeps(hdr, pools, block, size, junk);
      SplitEncodes(mem, hdr, links, pools, blockNull, block, size);
      SplitProtectsAny(hdr, blockNull, keep, block, size, junk);
      SplitKept(mem, hdr, blockNull, keep, block, size, junk);
      ResetSize(mem[remaining + 8], remainSize);
      ghost var hdr' := Split(hdr, block, size, junk);
      assert (remaining + 16) % ALIGN_SIZE == 0;
      mem := mem[remaining + 8 := SetSize(mem[remaining + 8], remainSize)];
      assert remainSize >= BLOCK_SIZE_MIN;
      mem := mem[block + 8 := SetSize(mem[block + 8], size)];
      // block_mark_as_free(remaining)
      var next := remaining + 16 + BlockSize(mem[remaining + 8]) - HEADER_OVERHEAD;
      mem := mem[next := remaining];
      mem := mem[next + 8 := SetPrevFree(mem[next + 8])];
      mem := mem[remaining + 8 := SetFree(mem[remaining + 8])];
      hdr := hdr';
    }

    method BlockAbsorb(prev: nat, block: nat, ghost keep: set<nat>)
      requires Consistent() && CanAbsorb(hdr, prev) && block == Next(hdr, prev)
      requires prev !in links && block !in links && TagsBut(hdr, pools, prev)
      requires Protects(keep, hdr, blockNull)
      modifies this`mem, this`hdr
      ensures Consistent() && TagsBut(hdr, pools, prev) && Kept(old(mem), mem, keep)
      ensures hdr == Absorb(old(hdr), prev) && Protects(keep, hdr, blockNull)
      ensures hdr[prev].free ==> hdr[Next(hdr, prev)].prev == prev
    {
      hide FreeLists, Bitmaps, Protects, Kept, TagsBut, PoolsOk, MappingInsert, BlockSize, IsFree, IsPrevFree;
      ReadSize(mem, hdr, links, pools, blockNull, prev);
      ReadSize(mem, hdr, links, pools, blockNull, block);
      assert BlockSize(mem[prev + 8]) != 0;
      AbsorbKeeps(hdr, pools, prev);
      assert WordOk(mem, hdr, pools, prev);
      AbsorbEncodes(mem, hdr, links, pools, blockNull, prev);
      AbsorbKept(mem, hdr, blockNull, keep, prev);
      ghost var hdr' := Absorb(hdr, prev);
      mem := mem[prev + 8 := mem[prev + 8] + BlockSize(mem[block + 8]) + HEADER_OVERHEAD];
      AbsorbedSize(old(mem), hdr, links, pools, blockNull, prev);
      var next := prev + 16 + BlockSize(mem[prev + 8]) - HEADER_OVERHEAD;
      mem := mem[next := prev];
      hdr := hdr';
    }

    // ---- Coalescing ----

    method BlockMergePrev(block: nat, ghost keep: set<nat>) returns (merged: nat)
      requires Consistent() && Tags(hdr, pools) && Plain(hdr, block) && Next(hdr, block) in hdr
      requires hdr[block].free && block !in links && ListedBut({block})
      requires CoalescedBut(hdr, {block, Next(hdr, block)})
      requires Protects(keep, hdr, blockNull)
      modifies this
      ensures Consistent() && Tags(hdr, pools) && Plain(hdr, merged) && Next(hdr, merged) in hdr
      ensures hdr[merged].free && merged !in links && ListedBut({merged})
      ensures CoalescedBut(hdr, {Next(hdr, merged)})
      ensures Protects(keep, hdr, blockNull) && Kept(old(mem), mem, keep)
      ensures pools == old(pools) && Used(hdr) == Used(old(hdr))
    {
      hide Layout, PoolsOk, FreeLists, Bitmaps, Protects, Kept, MappingInsert, IsFree, IsPrevFree, BlockSize, Used;
      ReadSize(mem, hdr, links, pools, blockNull, block);
      assert BackOk(hdr, block);
      merged := block;
      if IsPrevFree(mem[block + 8]) {
        assert block in pools ==> FirstOk(hdr, block);
        assert WordOk(mem, hdr, pools, block);
        var prev := mem[block];
        ReadSize(mem, hdr, links, pools, blockNull, prev);
        assert IsFree(mem[prev + 8]);
        BlockRemove(prev, keep);
        TagsAreTagsBut(hdr, pools, prev);
        AbsorbFreeTags(hdr, pools, prev);
        UsedAbsorb(hdr, prev);
        label Removed:
        BlockAbsorb(prev, block, keep);
        KeptTrans(old(mem), old@Removed(mem), mem, keep);
        merged := prev;
      } else {
        KeptRefl(mem, keep);
      }
    }

    method BlockMergeNext(block: nat, ghost keep: set<nat>)
      requires Consistent() && Tags(hdr, pools) && Plain(hdr, block) && Next(hdr, block) in hdr
      requires block !in links && ListedBut({block})
      requires CoalescedBut(hdr, {Next(hdr, block)})
      requires Protects(keep, hdr, blockNull)
      modifies this
      ensures Consistent() && TagsBut(hdr, pools, block) && Plain(hdr, block) && Next(hdr, block) in hdr
      ensures hdr[block].free ==> Tags(hdr, pools)
      ensures hdr[block].free == old(hdr)[block].free
      ensures block !in links && ListedBut({block}) && CoalescedBut(hdr, {})
      ensures Protects(keep, hdr, blockNull) && Kept(old(mem), mem, keep)
      ensures pools == old(pools)
      ensures var n := Next(old(hdr), block);
        hdr[block].size == if old(hdr)[n].free then old(hdr)[block].size + HEADER_OVERHEAD + old(hdr)[n].size
                           else old(hdr)[block].size
      ensures Used(hdr) == if hdr[block].free then Used(old(hdr)) else Used(old(hdr))[block := hdr[block].size]
    {
      hide Layout, PoolsOk, FreeLists, Bitmaps, Protects, Kept, MappingInsert, IsFree, IsPrevFree, BlockSize, Used;
      var next := BlockNext(block);
      ReadSize(mem, hdr, links, pools, blockNull, next);
      assert TagOk(hdr, block);
      if IsFree(mem[next + 8]) {
        PlainFree(hdr, pools, next);
        assert TagOk(hdr, next);
        ghost var h := hdr;
        BlockRemove(next, keep);
        TagsAreTagsBut(hdr, pools, block);
        UsedAbsorb(hdr, block);
        label Removed:
        BlockAbsorb(block, next, keep);
        if h[block].free {
          AbsorbFreeTags(h, pools, block);
        }
        KeptTrans(old(mem), old@Removed(mem), mem, keep);
      } else {
        TagsAreTagsBut(hdr, pools, block);
        KeptRefl(mem, keep);
        if !hdr[block].free {
          UsedSame(hdr, block);
        }
      }
    }

    // ---- Trimming ----

    method BlockLinkNext(block: nat, ghost keep: set<nat>) returns (next: nat)
      requires Consistent() && Plain(hdr, block) && hdr[block].free
      requires Protects(keep, hdr, blockNull)
      modifies this`mem, this`hdr
      ensures next == Next(old(hdr), block) && next in old(hdr) && next in mem && mem[next] == block
      ensures hdr == old(hdr)[next := old(hdr)[next].(prev := block)]
      ensures Consistent() && Protects(keep, hdr, blockNull) && Kept(old(mem), mem, keep)
    {
      hide FreeLists, Bitmaps, Protects, MappingInsert, GoodBlock, BackOk, TagOk;
      next := BlockNext(block);
      LinkNextEncodes(mem, hdr, links, pools, blockNull, block);
      ghost var h := hdr[next := hdr[next].(prev := block)];
      RecordProtects(hdr, blockNull, keep, block, h);
      SameShapeKeeps(hdr, h, pools);
      mem := mem[next := block];
      hdr := h;
    }

    method BlockSetPrev(block: nat, next: nat, free: bool, ghost keep: set<nat>)
      requires Consistent() && Plain(hdr, block) && Next(hdr, block) in hdr && next == Next(hdr, block)
      requires free ==> next in mem && mem[next] == hdr[next].prev
      requires Protects(keep, hdr, blockNull)
      modifies this`mem, this`hdr
      ensures hdr == old(hdr)[next := old(hdr)[next].(prevFree := free)]
      ensures Consistent() && Protects(keep, hdr, blockNull) && Kept(old(mem), mem, keep)
    {
      hide FreeLists, Bitmaps, Protects, MappingInsert, GoodBlock, BackOk, TagOk;
      assert WordOk(mem, hdr, pools, next);
      SetPrevEncodes(mem, hdr, links, pools, blockNull, block, free);
      ghost var h := hdr[next := hdr[next].(prevFree := free)];
      RecordProtects(hdr, blockNull, keep, block, h);
      SameShapeKeeps(hdr, h, pools);
      if free {
        mem := mem[next + 8 := SetPrevFree(mem[next + 8])];
      } else {
        mem := mem[next + 8 := SetPrevUsed(mem[next + 8])];
      }
      hdr := h;
    }

    method BlockTrimFree(block: nat, size: nat, ghost keep: set<nat>)
      requires Holding(block, {block}) && size % ALIGN_SIZE == 0 && BLOCK_SIZE_MIN <= size
      requires Protects(keep, hdr, blockNull)
      modifies this
      ensures Plain(hdr, block) && Holding(block, {block, Next(hdr, block)})
      ensures hdr[block].size == if old(hdr)[block].size >= HEADER_SIZE + size then size else old(hdr)[block].size
      ensures Protects(keep, hdr, blockNull) && Kept(old(mem), mem, keep)
      ensures pools == old(pools) && Used(hdr) == Used(old(hdr))
    {
      hide Layout, PoolsOk, Encodes, FreeLists, Bitmaps, Protects, Kept, MappingInsert, Tags, TagsBut;
      hide BlockSize, IsFree, IsPrevFree, Used;
      ReadSize(mem, hdr, links, pools, blockNull, block);
      if BlockSize(mem[block + 8]) >= HEADER_SIZE + size {
        var remaining := BlockDivide(block, size, true, {block}, keep);
        label Recorded:
        BlockInsert(remaining, keep);
        KeptTrans(old(mem), old@Recorded(mem), mem, keep);
      } else {
        KeptRefl(mem, keep);
      }
    }

    // The remainder of a free block learns that the block in front of it is free, and where it is.
    method RecordRemaining(block: nat, remaining: nat, linkFirst: bool, ghost keep: set<nat>)
      requires Consistent() && Plain(hdr, block) && hdr[block].free
      requires remaining == Next(hdr, block) && remaining in hdr
      requires remaining in mem && mem[remaining] == hdr[remaining].prev
      requires Protects(keep, hdr, blockNull)
      modifies this`mem, this`hdr
      ensures hdr == old(hdr)[remaining := old(hdr)[remaining].(prev := block, prevFree := true)]
      ensures Consistent() && Protects(keep, hdr, blockNull) && Kept(old(mem), mem, keep)
    {
      hide Layout, PoolsOk, Encodes, FreeLists, Bitmaps, Protects, Kept;
      if linkFirst {
        var _ := BlockLinkNext(block, keep);
        label Linked:
        BlockSetPrev(block, remaining, true, keep);
        KeptTrans(old(mem), old@Linked(mem), mem, keep);
      } else {
        BlockSetPrev(block, remaining, true, keep);
        label Flagged:
        var _ := BlockLinkNext(block, keep);
        KeptTrans(old(mem), old@Flagged(mem), mem, keep);
      }
    }

    // The common part of block_trim_free and block_trim_free_leading: split, then
    // record the free predecessor, link and flag in the order of the caller.
    method BlockDivide(block: nat, size: nat, linkFirst: bool, ghost but: set<nat>, ghost keep: set<nat>)
      returns (remaining: nat)
      requires Holding(block, but) && but <= {block} && size % ALIGN_SIZE == 0
      requires BLOCK_SIZE_MIN <= size && size + HEADER_SIZE <= hdr[block].size
      requires Protects(keep, hdr, blockNull)
      modifies this`mem, this`hdr
      ensures Consistent() && Tags(hdr, pools) && Plain(hdr, block) && Plain(hdr, remaining)
      ensures remaining == Next(hdr, block) && hdr[block].free && hdr[remaining].free
      ensures Next(hdr, remaining) in hdr && remaining !in links
      ensures hdr[block].size == size && hdr[remaining].size == old(hdr)[block].size - size - HEADER_OVERHEAD
      ensures ListedBut({block, remaining}) && CoalescedBut(hdr, but + {remaining})
      ensures Protects(keep, hdr, blockNull) && Kept(old(mem), mem, keep)
      ensures Used(hdr) == Used(old(hdr))
    {
      hide Layout, PoolsOk, Encodes, FreeLists, Bitmaps, Protects, Kept, Tags, TagsBut, Used, SameElsewhere;
      hide CoalescedBut;
      SplitFreeProtects(hdr, blockNull, keep, block, size, BLANK);
      TagsAreTagsBut(hdr, pools, block);
      ghost var h0 := hdr;
      NewUnlinkedAll(mem, hdr, links, pools, blockNull);
      remaining := BlockSplit(block, size, keep);
      ghost var junk :| hdr == Split(h0, block, size, junk);
      label Divided:
      RecordRemaining(block, remaining, linkFirst, keep);
      KeptTrans(old(mem), old@Divided(mem), mem, keep);
      SplitRecorded(h0, hdr, pools, block, size, junk);
      TrimResult(h0, hdr, links, pools, block, remaining, but);
    }

    method BlockTrimFreeLeading(block: nat, size: nat, ghost keep: set<nat>) returns (remaining: nat)
      requires Holding(block, {}) && size % ALIGN_SIZE == 0 && size >= HEADER_SIZE
      requires Protects(keep, hdr, blockNull)
      modifies this
      ensures Holding(remaining, {remaining})
      ensures pools == old(pools) && Used(hdr) == Used(old(hdr))
      ensures Protects(keep, hdr, blockNull) && Kept(old(mem), mem, keep)
      ensures old(hdr)[block].size < HEADER_SIZE + size ==> remaining == block && hdr == old(hdr)
      ensures old(hdr)[block].size >= HEADER_SIZE + size ==>
        remaining == block + size && hdr[remaining].size == old(hdr)[block].size - size
    {
      hide Layout, PoolsOk, Encodes, FreeLists, Bitmaps, Protects, Kept, MappingInsert, Tags, TagsBut;
      hide BlockSize, IsFree, IsPrevFree, Used;
      ReadSize(mem, hdr, links, pools, blockNull, block);
      remaining := block;
      if BlockSize(mem[block + 8]) >= HEADER_SIZE + size {
        remaining := BlockDivide(block, size - HEADER_OVERHEAD, false, {}, keep);
        label Recorded:
        BlockInsert(block, keep);
        KeptTrans(old(mem), old@Recorded(mem), mem, keep);
      } else {
        KeptRefl(mem, keep);
      }
    }

    method BlockTrimUsed(block: nat, size: nat, ghost keep: set<nat>)
      requires Valid() && block in Used(hdr) && size % ALIGN_SIZE == 0
      requires BLOCK_SIZE_MIN <= size <= hdr[block].size
      requires Protects(keep, hdr, blockNull)
      requires hdr[block].size >= HEADER_SIZE + size ==>
        forall w :: w in keep ==> w < block + 16 + size || w >= block + 16 + hdr[block].size
      modifies this
      ensures Valid() && pools == old(pools) && Kept(old(mem), mem, keep)
      ensures Used(hdr) == Used(old(hdr))[block := Granted(old(hdr)[block].size, size)]
    {
      hide Layout, PoolsOk, Encodes, FreeLists, Bitmaps, Protects, Kept, MappingInsert, Tags, TagsBut;
      hide BlockSize, IsFree, IsPrevFree;
      LiveBlock(hdr, pools, block);
      ReadSize(mem, hdr, links, pools, blockNull, block);
      ListedFree(mem, hdr, links, pools, blockNull, block);
      if BlockSize(mem[block + 8]) >= HEADER_SIZE + size {
        var remaining := BlockDivideUsed(block, size, keep);
        label Divided:
        BlockMergeNext(remaining, keep);
        KeptTrans(old(mem), old@Divided(mem), mem, keep);
        label Merged:
        BlockInsert(remaining, keep);
        KeptTrans(old(mem), old@Merged(mem), mem, keep);
      } else {
        KeptRefl(mem, keep);
      }
    }

    // The first half of block_trim_used: split, then record the used predecessor.
    method BlockDivideUsed(block: nat, size: nat, ghost keep: set<nat>) returns (remaining: nat)
      requires Valid() && Plain(hdr, block) && Next(hdr, block) in hdr && !hdr[block].free && block !in links
      requires size % ALIGN_SIZE == 0 && BLOCK_SIZE_MIN <= size && size + HEADER_SIZE <= hdr[block].size
      requires Protects(keep, hdr, blockNull)
      requires forall w :: w in keep ==> w < block + 16 + size || w >= block + 16 + hdr[block].size
      modifies this`mem, this`hdr
      ensures Consistent() && Tags(hdr, pools) && Plain(hdr, remaining) && Next(hdr, remaining) in hdr
      ensures hdr[remaining].free && remaining !in links
      ensures ListedBut({remaining}) && CoalescedBut(hdr, {Next(hdr, remaining)})
      ensures Protects(keep, hdr, blockNull) && Kept(old(mem), mem, keep)
      ensures Used(hdr) == Used(old(hdr))[block := size]
    {
      hide Layout, PoolsOk, Encodes, FreeLists, Bitmaps, Protects, Kept, Tags, TagsBut, Used, SameElsewhere;
      hide CoalescedBut;
      SplitUsedProtects(hdr, blockNull, keep, block, size, BLANK);
      TagsAreTagsBut(hdr, pools, block);
      ghost var h0 := hdr;
      NewUnlinkedAll(mem, hdr, links, pools, blockNull);
      remaining := BlockSplit(block, size, keep);
      ghost var junk :| hdr == Split(h0, block, size, junk);
      label Divided:
      BlockSetPrev(block, remaining, false, keep);
      KeptTrans(old(mem), old@Divided(mem), mem, keep);
      SplitRecorded(h0, hdr, pools, block, size, junk);
      TrimUsedResult(h0, hdr, links, pools, block, remaining);
    }

    // ---- Freeing ----

    method FreeBlock(block: nat, ghost keep: set<nat>)
      requires Valid() && block in Used(hdr)
      requires Next(hdr, block) in hdr && Protects(keep, MarkFree(hdr, block), blockNull)
      modifies this
      ensures Valid() && pools == old(pools) && Kept(old(mem), mem, keep)
      ensures Used(hdr) == Used(old(hdr)) - {block}
    {
      hide Layout, PoolsOk, FreeLists, Bitmaps, Protects, Kept, MappingInsert, Tags, TagsBut, TagOk, BackOk;
      ListedFree(mem, hdr, links, pools, blockNull, block);
      TagsAreTagsBut(hdr, pools, block);
      UsedMarkFree(hdr, block);
      MarkFreeCoalesced(hdr, pools, block);
      ghost var n := Next(hdr, block);
      BlockMarkAsFree(block, keep);
      assert Next(hdr, block) == n;
      label Marked:
      var merged := BlockMergePrev(block, keep);
      KeptTrans(old(mem), old@Marked(mem), mem, keep);
      label Prev:
      BlockMergeNext(merged, keep);
      KeptTrans(old(mem), old@Prev(mem), mem, keep);
      label Next:
      BlockInsert(merged, keep);
      KeptTrans(old(mem), old@Next(mem), mem, keep);
    }

    // tlsf_free.  The pointer is a block's address plus 16.
    method Free(ptr: Option<nat>)
      requires Valid() && (ptr.Some? ==> ptr.value >= 16 && ptr.value - 16 in Used(hdr))
      modifies this
      ensures Valid() && pools == old(pools)
      ensures ptr.None? ==> mem == old(mem) && hdr == old(hdr)
      ensures ptr.Some? ==> Used(hdr) == Used(old(hdr)) - {ptr.value - 16}
      ensures ptr.Some? ==> PayloadsKept(old(mem), mem, old(hdr), {ptr.value - 16})
    {
      hide Layout, PoolsOk, Encodes, FreeLists, Bitmaps, Protects, Kept, Tags;
      if ptr.Some? {
        var block := ptr.value - 16;
        LiveBlock(hdr, pools, block);
        PayloadsProtectedFree(mem, hdr, links, pools, blockNull, block);
        FreeBlock(block, Payloads(mem, hdr, {block}));
        KeptPayloads(old(mem), mem, old(hdr), {block});
      }
    }
    // ---- Allocation ----

    method BlockPrepareUsed(block: Option<nat>, size: nat, ghost keep: set<nat>) returns (p: Option<nat>)
      requires block.None? ==> Valid()
      requires block.Some? ==>
        && Holding(block.value, {block.value}) && size % ALIGN_SIZE == 0
        && BLOCK_SIZE_MIN <= size
      requires Protects(keep, hdr, blockNull)
      modifies this
      ensures Valid() && pools == old(pools) && Kept(old(mem), mem, keep)
      ensures block.None? ==> p.None? && mem == old(mem) && hdr == old(hdr)
      ensures block.Some? ==>
        && p == Some(block.value + 16)
        && Used(hdr) == Used(old(hdr))[block.value := Granted(old(hdr)[block.value].size, size)]
    {
      hide Layout, PoolsOk, Encodes, FreeLists, Bitmaps, Protects, Kept, MappingInsert, Tags, TagsBut;
      p := None;
      if block.Some? {
        var b := block.value;
        BlockTrimFree(b, size, keep);
        TagsAreTagsBut(hdr, pools, b);
        UsedMarkUsed(hdr, b);
        label Trimmed:
        BlockMarkAsUsed(b, keep);
        KeptTrans(old(mem), old@Trimmed(mem), mem, keep);
        p := Some(b + 16);
      } else {
        KeptRefl(mem, keep);
      }
    }

    // tlsf_malloc
    method Malloc(size: nat) returns (p: Option<nat>)
      requires Valid() && size < SIZE_T
      modifies this
      ensures Valid() && pools == old(pools)
      ensures PayloadsKept(old(mem), mem, old(hdr), {})
      ensures var adjust := AdjustRequestSize(size, ALIGN_SIZE);
        && (p.None? <==> adjust == 0 || NoFit(old(hdr), adjust))
        && (p.None? ==> mem == old(mem) && hdr == old(hdr))
        && (p.Some? ==>
              && p.value >= 16 && GoodFit(old(hdr), adjust, p.value - 16)
              && Used(hdr) == Used(old(hdr))[p.value - 16 := Granted(old(hdr)[p.value - 16].size, adjust)])
    {
      hide Layout, PoolsOk, Encodes, FreeLists, Bitmaps, Protects, Kept, Tags, NoFit, AdjustRequestSize;
      AdjustBounds(size);
      ghost var keep := Payloads(mem, hdr, {});
      PayloadsProtected(mem, hdr, links, pools, blockNull, {});
      var adjust := AdjustRequestSize(size, ALIGN_SIZE);
      var block := BlockLocateFree(adjust, keep);
      label Located:
      p := BlockPrepareUsed(block, adjust, keep);
      KeptTrans(old(mem), old@Located(mem), mem, keep);
      KeptPayloads(old(mem), mem, old(hdr), {});
    }

    // tlsf_memalign.  `from` is the free block the result is carved out of.
    method Memalign(align: nat, size: nat) returns (p: Option<nat>, ghost from: nat, ghost granted: nat)
      requires Valid() && size < SIZE_T && align > 0 && (UsableAlign(align) || align == TOP_ALIGN)
      modifies this
      ensures Valid() && pools == old(pools)
      ensures PayloadsKept(old(mem), mem, old(hdr), {})
      ensures p.None? <==> MemalignNeed(align, size) == 0 || NoFit(old(hdr), MemalignNeed(align, size))
      ensures p.None? ==> mem == old(mem) && hdr == old(hdr)
      ensures p.Some? ==>
        && GoodFit(old(hdr), MemalignNeed(align, size), from)
        && CarvedOut(align, size, from, old(hdr)[from].size, p.value, granted)
        && p.value - 16 !in Used(old(hdr))
        && Used(hdr) == Used(old(hdr))[p.value - 16 := granted]
    {
      hide Layout, PoolsOk, Encodes, FreeLists, Bitmaps, Protects, Kept, Tags, NoFit;
      hide AdjustRequestSize, AlignUp, UsableAlign, Gap, Used, CoalescedBut, MappingInsert, MappingSearch;
      from, granted := 0, 0;
      NeedSizes(align, size);
      ghost var keep := Payloads(mem, hdr, {});
      PayloadsProtected(mem, hdr, links, pools, blockNull, {});
      var adjust := AdjustRequestSize(size, ALIGN_SIZE);
      var sizeWithGap := AdjustRequestSize((adjust + align + HEADER_SIZE) % SIZE_T, align);
      var alignedSize := if adjust != 0 && align > ALIGN_SIZE then sizeWithGap else adjust;
      var block := BlockLocateFree(alignedSize, keep);
      label Located:
      if block.Some? {
        from := block.value;
        PlainFree(hdr, pools, from);
        BlockSpan(hdr, pools, from);
        var ptr := block.value + 16;
        LeadBounds(ptr, align, size, hdr[from].size);
        var gap := Gap(ptr, align);
        HoldingMore(hdr, {from});
        if gap != 0 {
          assert gap >= HEADER_SIZE;
          var remaining := BlockTrimFreeLeading(block.value, gap, keep);
          block := Some(remaining);
        }
        granted := Granted(hdr[block.value].size, adjust);
        InsideFree(old(hdr), old(pools), from, block.value);
      }
      label Led:
      KeptRefl(old@Located(mem), keep);
      KeptTrans(old(mem), old@Located(mem), mem, keep);
      p := BlockPrepareUsed(block, adjust, keep);
      KeptTrans(old(mem), old@Led(mem), mem, keep);
      KeptPayloads(old(mem), mem, old(hdr), {});
    }

    // ---- Reallocation ----

    // A client's store into a block it owns.
    method Store(block: nat, w: nat, v: nat)
      requires Valid() && Payload(hdr, block, w) && w % 8 == 0
      modifies this`mem
      ensures Valid() && w in old(mem) && mem == old(mem)[w := v]
    {
      hide Layout, PoolsOk, Encodes, FreeLists, Bitmaps, Tags;
      PayloadExists(mem, hdr, links, pools, blockNull, block, w);
      PayloadWriteEncodes(mem, hdr, links, pools, blockNull, block, w, v);
      mem := mem[w := v];
    }

    // memcpy between the payloads of two blocks, a word at a time.
    method CopyPayload(to: nat, from: nat, bytes: nat)
      requires Valid() && to in Used(hdr) && from in Used(hdr) && to != from
      requires bytes % 8 == 0 && bytes <= hdr[to].size && bytes <= hdr[from].size
      modifies this`mem
      ensures Valid() && AgreeOutside(old(mem), mem, to + 16, to + 15 + bytes)
      ensures SameContents(old(mem), from + 16, mem, to + 16, bytes)
    {
      hide Layout, Encodes, FreeLists, Bitmaps, Tags, PoolsOk, CoalescedBut, SameContents, AgreeOutside, Used, Payload;
      LiveBlock(hdr, pools, to);
      LiveBlock(hdr, pools, from);
      BlockSpan(hdr, pools, to);
      BlockSpan(hdr, pools, from);
      BlocksApart(hdr, pools, to, from);
      CopyStart(mem, from + 16, to + 16);
      var i := 0;
      while i < bytes
        invariant 0 <= i <= bytes && i % 8 == 0 && Valid()
        invariant AgreeOutside(old(mem), mem, to + 16, to + 15 + i)
        invariant SameContents(old(mem), from + 16, mem, to + 16, i)
      {
        NextWord(i, bytes);
        PayloadWord(mem, hdr, links, pools, blockNull, from, i);
        PayloadWord(mem, hdr, links, pools, blockNull, to, i);
        CopyStep(old(mem), mem, from + 16, to + 16, i, bytes);
        Store(to, to + 16 + i, mem[from + 16 + i]);
        i := i + 8;
      }
    }

    // tlsf_realloc.  `granted` is the size of the resulting block.  A size that rounds to 0 is taken for
    // an in-place resize to nothing, which breaks the heap unless the block is too small to be split.
    method Realloc(ptr: Option<nat>, size: nat) returns (p: Option<nat>, ghost granted: nat)
      requires Valid() && size < SIZE_T
      requires ptr.Some? ==> ptr.value >= 16 && ptr.value - 16 in Used(hdr)
      modifies this
      ensures Valid() <==> !Breaks(Used(old(hdr)), ptr, size)
      ensures !Valid() ==> p == ptr && p.Some? && ReadsAsEnd(mem, p.value - 16)
      ensures pools == old(pools)
      ensures ptr.Some? && size == 0 ==> p.None? && Used(hdr) == Used(old(hdr)) - {ptr.value - 16}
      ensures Valid() ==> PayloadsKept(old(mem), mem, old(hdr), if ptr.Some? then {ptr.value - 16} else {})
      ensures p.None? && size != 0 ==>
        mem == old(mem) && hdr == old(hdr)
      ensures Valid() && p.Some? ==>
        var adjust := AdjustRequestSize(size, ALIGN_SIZE);
        && size != 0 && p.value >= 16 && adjust <= granted < adjust + HEADER_SIZE
        && (p == ptr || p.value - 16 !in Used(old(hdr)))
        && Used(hdr) ==
             (if ptr.Some? then Used(old(hdr)) - {ptr.value - 16} else Used(old(hdr)))[p.value - 16 := granted]
      ensures Valid() && p.Some? && ptr.Some? ==>
        var cursize := Used(old(hdr))[ptr.value - 16];
        SameContents(old(mem), ptr.value, mem, p.value, if cursize < granted then cursize else granted)
      // Without a pointer it is an allocation.
      ensures ptr.None? ==>
        var adjust := AdjustRequestSize(size, ALIGN_SIZE);
        && (p.None? <==> adjust == 0 || NoFit(old(hdr), adjust))
        && (p.Some? ==>
              && GoodFit(old(hdr), adjust, p.value - 16)
              && granted == Granted(old(hdr)[p.value - 16].size, adjust))
      // The block stays exactly if it is large enough, or is together with a free block behind it; otherwise
      // it moves, exactly if there is room.
      ensures ptr.Some? && size != 0 ==>
        var block, adjust := ptr.value - 16, AdjustRequestSize(size, ALIGN_SIZE);
        && block in old(hdr) && Next(old(hdr), block) in old(hdr)
        && var cursize, next := old(hdr)[block].size, old(hdr)[Next(old(hdr), block)];
          var stays := adjust <= cursize || (next.free && adjust <= cursize + 8 + next.size);
          && (p == ptr <==> stays)
          && (p.None? <==> !stays && NoFit(old(hdr), adjust))
          && (Valid() && stays ==>
                granted == Granted(if adjust <= cursize then cursize else cursize + 8 + next.size, adjust))
          && (!stays && p.Some? ==>
                && GoodFit(old(hdr), adjust, p.value - 16)
                && granted == Granted(old(hdr)[p.value - 16].size, adjust))
    {
      hide Layout, PoolsOk, Encodes, FreeLists, Bitmaps, Tags, CoalescedBut, NoFit, GoodFit, Used, Protects, Kept;
      hide PayloadsKept, SameContents, AdjustRequestSize, MappingInsert, MappingSearch;
      p, granted := None, 0;
      if ptr.Some? && size == 0 {
        Free(ptr);
      } else if ptr.None? {
        AdjustBounds(size);
        p := Malloc(size);
        if p.Some? {
          UnfoldFit(old(hdr), AdjustRequestSize(size, ALIGN_SIZE), p.value - 16);
          granted := Granted(old(hdr)[p.value - 16].size, AdjustRequestSize(size, ALIGN_SIZE));
        }
      } else {
        AdjustBounds(size);
        var block := ptr.value - 16;
        LiveBlock(hdr, pools, block);
        var next := BlockNext(block);
        ReadSize(mem, hdr, links, pools, blockNull, block);
        ReadSize(mem, hdr, links, pools, blockNull, next);
        var cursize := BlockSize(mem[block + 8]);
        var combined := cursize + BlockSize(mem[next + 8]) + HEADER_OVERHEAD;
        var adjust := AdjustRequestSize(size, ALIGN_SIZE);
        if adjust > cursize && (!IsFree(mem[next + 8]) || adjust > combined) {
          p, granted := MoveBlock(block, size, adjust);
        } else {
          granted := ResizeInPlace(block, adjust);
          p := ptr;
        }
      }
    }

    // Taking over the free block behind a block in use.
    method GrowBlock(block: nat, ghost keep: set<nat>)
      requires Valid() && Plain(hdr, block) && Next(hdr, block) in hdr && !hdr[block].free && block !in links
      requires hdr[Next(hdr, block)].free && Protects(keep, hdr, blockNull)
      modifies this
      ensures Valid() && pools == old(pools)
      ensures Protects(keep, hdr, blockNull) && Kept(old(mem), mem, keep)
      ensures Used(hdr) == Used(old(hdr))[block :=
                old(hdr)[block].size + HEADER_OVERHEAD + old(hdr)[Next(old(hdr), block)].size]
    {
      hide Layout, PoolsOk, Encodes, FreeLists, Bitmaps, Tags, TagsBut, CoalescedBut, Protects, Kept, Used;
      HoldingMore(hdr, {Next(hdr, block)});
      BlockMergeNext(block, keep);
      label Merged:
      UsedMarkUsed(hdr, block);
      MarkUsedCoalesced(hdr, block);
      BlockMarkAsUsed(block, keep);
      KeptTrans(old(mem), old@Merged(mem), mem, keep);
    }

    // The branch of tlsf_realloc that keeps the block where it is.  It keeps the heap valid exactly if
    // the adjusted size is not 0 or the block is too small to be split.
    method ResizeInPlace(block: nat, adjust: nat) returns (ghost granted: nat)
      requires Valid() && block in Used(hdr) && Next(hdr, block) in hdr
      requires adjust % ALIGN_SIZE == 0 && (adjust == 0 || adjust >= BLOCK_SIZE_MIN)
      requires var n := Next(hdr, block);
        adjust > hdr[block].size ==> hdr[n].free && adjust <= hdr[block].size + HEADER_OVERHEAD + hdr[n].size
      modifies this
      ensures Valid() <==> adjust != 0 || old(hdr)[block].size < HEADER_SIZE
      ensures !Valid() ==> ReadsAsEnd(mem, block)
      ensures pools == old(pools)
      ensures Valid() ==> adjust <= granted < adjust + HEADER_SIZE
      ensures Valid() ==> granted == Granted(ResizeRoom(old(hdr), block, adjust), adjust)
      ensures Valid() ==> Used(hdr) == Used(old(hdr))[block := granted]
      ensures Valid() ==> PayloadsKept(old(mem), mem, old(hdr), {block})
      ensures Valid() ==> var cursize := old(hdr)[block].size;
        SameContents(old(mem), block + 16, mem, block + 16, if cursize < granted then cursize else granted)
    {
      hide Layout, PoolsOk, Encodes, FreeLists, Bitmaps, Tags, CoalescedBut, PayloadsKept, SameContents, Used;
      LiveBlock(hdr, pools, block);
      ReadSize(mem, hdr, links, pools, blockNull, block);
      granted := hdr[block].size;
      if adjust != 0 {
        granted := ResizeToFit(block, adjust);
      } else if BlockSize(mem[block + 8]) >= HEADER_SIZE {
        TrimToNothing(block);
      } else {
        UsedSelf(hdr, block);
        PayloadsSame(mem, hdr, {block});
        SameSelf(mem, block + 16, granted);
      }
    }

    // What block_trim_used does for size 0: it splits the block 8 bytes further on, so that the new
    // header's first word is the block's own size word, and sets the block's size to 0. Merging and listing
    // the remainder do not touch that word.
    method TrimToNothing(block: nat)
      requires Valid() && block in Used(hdr) && hdr[block].size >= HEADER_SIZE
      modifies `mem, `blocks, `flBitmap, `slBitmap
      ensures ReadsAsEnd(mem, block) && !Valid()
    {
      hide Layout, PoolsOk, Encodes, FreeLists, Bitmaps, Tags, CoalescedBut, Used, MappingInsert, Tag;
      hide BlockSize, IsFree;
      hide ReadsAsEnd, SafeHeads, SplitOff, Bit, SetSize;
      LiveBlock(hdr, pools, block);
      ReadSize(mem, hdr, links, pools, blockNull, Next(hdr, block));
      ListedFree(mem, hdr, links, pools, blockNull, block);
      SafeTables(mem, hdr, links, pools, blockNull, blocks, clock, block);
      BitmapRows(blocks, flBitmap, slBitmap, blockNull);
      ghost var m0 := mem;
      var remaining := SplitToNothing(block);
      SplitOffFacts(m0, mem, hdr, pools, block);
      // block_merge_next
      var next := remaining + 16 + BlockSize(mem[remaining + 8]) - HEADER_OVERHEAD;
      if IsFree(mem[next + 8]) {
        AbsorbToNothing(block, next, m0);
      }
      // block_insert
      InsertRange(BlockSize(mem[remaining + 8]));
      var c := MappingInsert(BlockSize(mem[remaining + 8]));
      SafeHead(blocks, block, c);
      ghost var m1, current := mem, Head(blocks, c);
      LinkWords(remaining, c.fl, c.sl);
      EndStays(m1, mem, block, blockNull, current);
      NoEnd(hdr, pools, block);
      if Encodes(mem, hdr, links, pools, blockNull) {
        NoHeap(mem, hdr, links, pools, blockNull, block);
      }
    }

    // block_merge_next, the remainder being in front of a free block
    method AbsorbToNothing(block: nat, next: nat, ghost m0: Memory)
      requires blockNull != 0 && Layout(hdr, pools) && PoolsOk(hdr, pools)
      requires Encodes(m0, hdr, links, pools, blockNull) && FreeLists(links, blocks, blockNull, clock)
      requires Plain(hdr, block) && !hdr[block].free && Next(hdr, block) == next && next in links
      requires SplitOff(m0, mem, hdr, block) && SafeHeads(blocks, block) && |slBitmap| == FL_INDEX_COUNT
      modifies `mem, `blocks, `flBitmap, `slBitmap
      ensures ReadsAsEnd(mem, block) && SafeHeads(blocks, block) && |slBitmap| == FL_INDEX_COUNT
      ensures block + 16 in mem && BLOCK_SIZE_MIN <= BlockSize(mem[block + 16]) < BLOCK_SIZE_MAX
    {
      hide Layout, PoolsOk, Encodes, FreeLists, MappingInsert, Tag, BlockSize, SafeHeads, SplitOff;
      MergeFacts(m0, mem, hdr, links, pools, blockNull, blocks, clock, block);
      var remaining := block + 8;
      var c := MappingInsert(BlockSize(mem[next + 8]));
      ghost var n, heads := mem[next + 16], blocks;
      SafeHead(blocks, block, c);
      UnlinkWords(next, c.fl, c.sl);
      SafeSetHead(heads, c, n, block);
      // block_absorb
      mem := mem[remaining + 8 := mem[remaining + 8] + BlockSize(mem[next + 8]) + HEADER_OVERHEAD];
      var after := remaining + 16 + BlockSize(mem[remaining + 8]) - HEADER_OVERHEAD;
      mem := mem[after := remaining];
    }

    // block_split with size 0 and block_set_prev_used
    method SplitToNothing(block: nat) returns (remaining: nat)
      requires Valid() && block in Used(hdr) && hdr[block].size >= HEADER_SIZE
      modifies `mem
      ensures remaining == block + 8 && SplitOff(old(mem), mem, hdr, block)
    {
      SplitReads(mem, hdr, links, pools, blockNull, block);
      hide Layout, PoolsOk, Encodes, FreeLists, Bitmaps, Tags, CoalescedBut, SplitOff;
      hide SetFree, SetPrevFree, SetPrevUsed, SetSize, BlockSize, Used, Tag;
      ghost var m0 := mem;
      remaining := block + 16 - HEADER_OVERHEAD;
      var remainSize := BlockSize(mem[block + 8]) - HEADER_OVERHEAD;
      ghost var y, z := SetSize(mem[block + 8], 0), SetPrevFree(mem[Next(hdr, block) + 8]);
      ghost var x := SetSize(mem[remaining + 8], remainSize);
      mem := mem[remaining + 8 := SetSize(mem[remaining + 8], remainSize)];
      mem := mem[block + 8 := SetSize(mem[block + 8], 0)];
      var next := remaining + 16 + BlockSize(mem[remaining + 8]) - HEADER_OVERHEAD;
      mem := mem[next := remaining];
      mem := mem[next + 8 := SetPrevFree(mem[next + 8])];
      mem := mem[remaining + 8 := SetFree(mem[remaining + 8])];
      mem := mem[remaining + 8 := SetPrevUsed(mem[remaining + 8])];
      SplitOffWords(m0, mem, hdr, block, x, y, z);
    }

    // The in-place branch for a size that rounds to a block.
    method ResizeToFit(block: nat, adjust: nat) returns (ghost granted: nat)
      requires Valid() && block in Used(hdr) && Next(hdr, block) in hdr
      requires adjust % ALIGN_SIZE == 0 && adjust >= BLOCK_SIZE_MIN
      requires var n := Next(hdr, block);
        adjust > hdr[block].size ==> hdr[n].free && adjust <= hdr[block].size + HEADER_OVERHEAD + hdr[n].size
      modifies this
      ensures Valid() && pools == old(pools)
      ensures adjust <= granted < adjust + HEADER_SIZE
      ensures granted == Granted(ResizeRoom(old(hdr), block, adjust), adjust)
      ensures Used(hdr) == Used(old(hdr))[block := granted]
      ensures PayloadsKept(old(mem), mem, old(hdr), {block})
      ensures var cursize := old(hdr)[block].size;
        SameContents(old(mem), block + 16, mem, block + 16, if cursize < granted then cursize else granted)
    {
      hide Layout, PoolsOk, Encodes, FreeLists, Bitmaps, Tags, TagsBut, CoalescedBut, Protects, Kept;
      hide PayloadsKept, SameContents, MappingInsert, BlockSize, IsFree, IsPrevFree, KeepHead, Used;
      LiveBlock(hdr, pools, block);
      ListedFree(mem, hdr, links, pools, blockNull, block);
      ReadSize(mem, hdr, links, pools, blockNull, block);
      ghost var total := ResizeRoom(hdr, block, adjust);
      granted := Granted(total, adjust);
      ghost var keep := KeepHead(mem, hdr, block, granted);
      HeadProtected(mem, hdr, links, pools, blockNull, block, granted, total);
      var cursize := BlockSize(mem[block + 8]);
      if adjust > cursize {
        GrowBlock(block, keep);
      } else {
        KeptRefl(mem, keep);
      }
      label Sized:
      LiveBlock(hdr, pools, block);
      BlockTrimUsed(block, adjust, keep);
      KeptTrans(old(mem), old@Sized(mem), mem, keep);
      HeadKept(old(mem), mem, old(hdr), old(links), old(pools), blockNull, block, granted);
    }

    // The branch that allocates, copies and frees.
    method MoveBlock(block: nat, size: nat, adjust: nat) returns (p: Option<nat>, ghost granted: nat)
      requires Valid() && block in Used(hdr) && size < SIZE_T
      requires adjust == AdjustRequestSize(size, ALIGN_SIZE) && adjust > hdr[block].size
      modifies this
      ensures Valid() && pools == old(pools)
      ensures PayloadsKept(old(mem), mem, old(hdr), {block})
      ensures p.None? <==> NoFit(old(hdr), adjust)
      ensures p.None? ==> mem == old(mem) && hdr == old(hdr)
      ensures p.Some? ==>
        && p.value >= 16 && adjust <= granted < adjust + HEADER_SIZE
        && GoodFit(old(hdr), adjust, p.value - 16) && granted == Granted(old(hdr)[p.value - 16].size, adjust)
        && p.value - 16 !in Used(old(hdr))
        && Used(hdr) == (Used(old(hdr)) - {block})[p.value - 16 := granted]
        && SameContents(old(mem), block + 16, mem, p.value, old(hdr)[block].size)
    {
      hide Layout, PoolsOk, Encodes, FreeLists, Bitmaps, Tags, CoalescedBut, NoFit, GoodFit, PayloadsKept, SameContents;
      hide AdjustRequestSize, Used, AgreeOutside;
      AdjustBounds(size);
      LiveBlock(hdr, pools, block);
      granted := 0;
      p := Malloc(size);
      label Allocated:
      if p.Some? {
        var to := p.value - 16;
        UnfoldFit(old(hdr), adjust, to);
        granted := Granted(old(hdr)[to].size, adjust);
        UsedNew(old(hdr), hdr, to, granted, block);
        ReadSize(mem, hdr, links, pools, blockNull, block);
        var cursize := BlockSize(mem[block + 8]);
        var minsize := if cursize < size then cursize else size;
        assert minsize == cursize;
        CopyPayload(to, block, minsize);
        label Copied:
        Free(Some(block + 16));
        MoveKept(old(mem), old(hdr), old@Allocated(mem), old@Allocated(hdr), old@Allocated(links),
                 old@Allocated(pools), blockNull, old@Copied(mem), mem, block, to);
      } else {
        PayloadsSame(mem, hdr, {block});
      }
    }
  }

  lemma CheckedTables(heads: Heads, fl: nat, sl: seq<nat>, links: Links, nil: nat, clock: nat)
    requires FreeLists(links, heads, nil, clock) && Bitmaps(heads, fl, sl, nil)
    ensures Shaped(heads) && |sl| == FL_INDEX_COUNT
  {
  }

  // The size word of this block reads as a pool's end.
  ghost predicate ReadsAsEnd(mem: Memory, block: nat) {
    block + 8 in mem && BlockSize(mem[block + 8]) == 0
  }

  // After a split of this block with size 0, from memory m0: its size word is that of an end, the remainder,
  // 8 bytes further on, is a free block up to the next one, and no other word of a block is written.
  ghost predicate SplitOff(m0: Memory, mem: Memory, hdr: Headers, block: nat) {
    && ReadsAsEnd(mem, block) && block in hdr && hdr[block].size >= HEADER_SIZE
    && block + 16 in mem && mem[block + 16] == Tag(hdr[block].size - 8, true, false)
    && var next := Next(hdr, block);
      && next + 8 in mem && next + 8 in m0 && mem[next + 8] == SetPrevFree(m0[next + 8])
      && forall w :: w in m0 && w !in {block + 8, block + 16, next, next + 8} ==> w in mem && mem[w] == m0[w]
  }

  // What the split reads.
  lemma SplitReads(mem: Memory, hdr: Headers, links: Links, pools: Pools, nil: nat, block: nat)
    requires Layout(hdr, pools) && Encodes(mem, hdr, links, pools, nil)
    requires block in Used(hdr) && hdr[block].size >= HEADER_SIZE
    ensures block in hdr && Next(hdr, block) + 8 in mem && block + 16 in mem && block + 8 in mem
    ensures var size := hdr[block].size;
      && BlockSize(mem[block + 8]) == size && BlockSize(SetSize(mem[block + 16], size - 8)) == size - 8
      && SetPrevUsed(SetFree(SetSize(mem[block + 16], size - 8))) == Tag(size - 8, true, false)
      && BlockSize(SetSize(mem[block + 8], 0)) == 0
  {
    hide Layout, Encodes, Tag, SetSize, BlockSize, SetPrevUsed, SetFree;
    LiveBlock(hdr, pools, block);
    ReadSize(mem, hdr, links, pools, nil, block);
    ReadSize(mem, hdr, links, pools, nil, Next(hdr, block));
    BlockSpan(hdr, pools, block);
    PayloadWord(mem, hdr, links, pools, nil, block, 0);
    hide Used;
    ResetSize(mem[block + 16], hdr[block].size - 8);
    RemainderTag(mem[block + 16], hdr[block].size - 8);
    EndOfNothing(mem[block + 8]);
  }

  // The words the split writes, in one piece.
  lemma SplitOffWords(m0: Memory, mem: Memory, hdr: Headers, block: nat, x: nat, y: nat, z: nat)
    requires block in hdr && hdr[block].size >= HEADER_SIZE && Next(hdr, block) + 8 in m0
    requires BlockSize(y) == 0 && z == SetPrevFree(m0[Next(hdr, block) + 8])
    requires SetPrevUsed(SetFree(x)) == Tag(hdr[block].size - 8, true, false)
    requires mem == m0[block + 16 := x][block + 8 := y][Next(hdr, block) := block + 8][Next(hdr, block) + 8 := z]
                      [block + 16 := SetFree(x)][block + 16 := SetPrevUsed(SetFree(x))]
    ensures SplitOff(m0, mem, hdr, block)
  {
  }

  lemma SplitOffFacts(m0: Memory, mem: Memory, hdr: Headers, pools: Pools, block: nat)
    requires Layout(hdr, pools) && Plain(hdr, block) && SplitOff(m0, mem, hdr, block)
    ensures ReadsAsEnd(mem, block) && block + 16 in mem && BlockSize(mem[block + 16]) == hdr[block].size - 8
    ensures BLOCK_SIZE_MIN <= BlockSize(mem[block + 16]) < BLOCK_SIZE_MAX
    ensures Next(hdr, block) + 8 in mem && Next(hdr, block) + 8 in m0
    ensures IsFree(mem[Next(hdr, block) + 8]) == IsFree(m0[Next(hdr, block) + 8])
  {
    hide Tag, BlockSize, IsFree;
    assert GoodBlock(hdr, block);
    Untag(hdr[block].size - 8, true, false);
    FlagApart(m0[Next(hdr, block) + 8]);
  }

  lemma FlagApart(w: nat)
    ensures IsFree(SetPrevFree(w)) == IsFree(w)
  {
  }

  lemma RemainderTag(w: nat, size: nat)
    requires size % 8 == 0
    ensures SetPrevUsed(SetFree(SetSize(w, size))) == Tag(size, true, false)
  {
    Retag(w, size);
    Untag(size, IsFree(w), IsPrevFree(w));
    Untag(size, true, IsPrevFree(w));
  }

  // No list begins at an address whose link words would meet the block's size word.
  ghost predicate SafeHeads(heads: Heads, block: nat) {
    && Shaped(heads)
    && forall c {:trigger Head(heads, c)} :: ValidClass(c) ==> Head(heads, c) != 0 && Head(heads, c) + 24 != block + 8
  }

  lemma SafeHead(heads: Heads, block: nat, c: Class)
    requires SafeHeads(heads, block) && ValidClass(c)
    ensures Shaped(heads) && Head(heads, c) != 0 && Head(heads, c) + 24 != block + 8
  {
  }

  lemma SafeSetHead(heads: Heads, c: Class, a: nat, block: nat)
    requires SafeHeads(heads, block) && ValidClass(c) && a != 0 && a + 24 != block + 8
    ensures Shaped(heads) && SafeHeads(SetHead(heads, c, a), block)
  {
    forall d | ValidClass(d)
      ensures Head(SetHead(heads, c, a), d) == if d == c then a else Head(heads, d)
    {
    }
  }

  // The link words of a listed block, or of the null block, lie outside every other block.
  lemma LinksOutside(mem: Memory, hdr: Headers, links: Links, pools: Pools, nil: nat, x: nat, a: nat)
    requires Layout(hdr, pools) && Encodes(mem, hdr, links, pools, nil) && Plain(hdr, a)
    requires x == nil || (x in links && x != a)
    ensures x + 24 < a + 8 || x + 16 >= a + 16 + hdr[a].size
  {
    hide MappingInsert, Tag;
    assert Backed(mem.Keys, hdr, nil, a);
    if x in links && x != a {
      assert LinkWordOk(mem, hdr, links, x) && GoodBlock(hdr, x);
      assert Apart(hdr, x, a) && Apart(hdr, a, x);
    }
  }

  lemma SafeTables(mem: Memory, hdr: Headers, links: Links, pools: Pools, nil: nat, heads: Heads, clock: nat,
                   block: nat)
    requires Layout(hdr, pools) && Encodes(mem, hdr, links, pools, nil) && FreeLists(links, heads, nil, clock)
    requires nil != 0 && Plain(hdr, block) && block !in links
    ensures SafeHeads(heads, block)
  {
    hide Layout, Encodes;
    forall c | ValidClass(c)
      ensures Head(heads, c) != 0 && Head(heads, c) + 24 != block + 8
    {
      assert HeadOk(links, heads, nil, c);
      LinksOutside(mem, hdr, links, pools, nil, Head(heads, c), block);
      if Head(heads, c) in links {
        LinkedNonNull(mem, hdr, links, pools, nil, Head(heads, c));
      }
    }
  }

  lemma BitmapRows(heads: Heads, fl: nat, sl: seq<nat>, nil: nat)
    requires Bitmaps(heads, fl, sl, nil)
    ensures |sl| == FL_INDEX_COUNT
  {
  }

  // What the merge with the free block behind reads and writes.
  lemma MergeFacts(m0: Memory, mem: Memory, hdr: Headers, links: Links, pools: Pools, nil: nat, heads: Heads,
                   clock: nat, block: nat)
    requires nil != 0 && Layout(hdr, pools) && PoolsOk(hdr, pools) && Encodes(m0, hdr, links, pools, nil)
    requires FreeLists(links, heads, nil, clock) && Plain(hdr, block) && !hdr[block].free
    requires Next(hdr, block) in links && SplitOff(m0, mem, hdr, block)
    ensures ReadsAsEnd(mem, block) && block + 16 in mem
    ensures var next := Next(hdr, block);
      && next + 8 in mem && next + 16 in mem && next + 24 in mem && next in hdr
      && BlockSize(mem[next + 8]) == hdr[next].size && ValidClass(MappingInsert(hdr[next].size))
      && mem[next + 16] != 0 && mem[next + 16] + 24 !in {block + 8, block + 16, next + 8}
      && mem[next + 24] != 0 && mem[next + 24] + 16 !in {block + 8, block + 16, next + 8}
      && BlockSize(mem[block + 16] + hdr[next].size + 8) == hdr[block].size + hdr[next].size
      && BLOCK_SIZE_MIN <= hdr[block].size + hdr[next].size < BLOCK_SIZE_MAX
  {
    hide MappingInsert, Tag, BlockSize, FreeLists, Layout, Encodes;
    var next := Next(hdr, block);
    ListedFree(m0, hdr, links, pools, nil, block);
    MergeSizes(m0, mem, hdr, links, pools, nil, block);
    MergeLinks(m0, hdr, links, pools, nil, heads, clock, next);
    var n, p := links[next].next, links[next].prev;
    LinksOutside(m0, hdr, links, pools, nil, n, block);
    LinksOutside(m0, hdr, links, pools, nil, p, block);
    LinksOutside(m0, hdr, links, pools, nil, n, next);
    LinksOutside(m0, hdr, links, pools, nil, p, next);
    BlockLength(hdr, pools, block);
    BlockLength(hdr, pools, next);
  }

  lemma BlockLength(hdr: Headers, pools: Pools, a: nat)
    requires Layout(hdr, pools) && Plain(hdr, a)
    ensures BLOCK_SIZE_MIN <= hdr[a].size < BLOCK_SIZE_MAX && hdr[a].size % 8 == 0
  {
    assert GoodBlock(hdr, a);
  }

  lemma MergeLinks(mem: Memory, hdr: Headers, links: Links, pools: Pools, nil: nat, heads: Heads, clock: nat, a: nat)
    requires nil != 0 && Layout(hdr, pools) && Encodes(mem, hdr, links, pools, nil)
    requires FreeLists(links, heads, nil, clock) && a in links
    ensures Plain(hdr, a) && hdr[a].free && ValidClass(MappingInsert(hdr[a].size))
    ensures a + 16 in mem && mem[a + 16] == links[a].next && a + 24 in mem && mem[a + 24] == links[a].prev
    ensures links[a].next != 0 && (links[a].next == nil || (links[a].next in links && links[a].next != a))
    ensures links[a].prev != 0 && (links[a].prev == nil || (links[a].prev in links && links[a].prev != a))
  {
    hide MappingInsert, Layout;
    assert LinkWordOk(mem, hdr, links, a) && LinkOk(links, heads, nil, clock, a);
    NeighboursNonNull(hdr, links, pools, nil, heads, clock, mem, a);
    ClassInRange(hdr, pools, a);
  }

  lemma MergeSizes(m0: Memory, mem: Memory, hdr: Headers, links: Links, pools: Pools, nil: nat, block: nat)
    requires Layout(hdr, pools) && PoolsOk(hdr, pools) && Encodes(m0, hdr, links, pools, nil)
    requires Plain(hdr, block) && Next(hdr, block) in links && SplitOff(m0, mem, hdr, block)
    ensures var next := Next(hdr, block);
      && Plain(hdr, next) && hdr[next].free && BlockSize(mem[next + 8]) == hdr[next].size
      && BlockSize(mem[block + 16] + hdr[next].size + 8) == hdr[block].size + hdr[next].size
      && hdr[block].size + hdr[next].size < BLOCK_SIZE_MAX
  {
    hide MappingInsert, BlockSize, IsFree, SetPrevFree;
    var next := Next(hdr, block);
    assert LinkWordOk(m0, hdr, links, next) && WordOk(m0, hdr, pools, next);
    assert GoodBlock(hdr, block) && GoodBlock(hdr, next);
    Untag(hdr[next].size, hdr[next].free, hdr[next].prevFree);
    Untag(hdr[next].size, hdr[next].free, true);
    Untag(hdr[block].size + hdr[next].size, true, false);
    AbsorbFits(hdr, pools, block);
  }

  // Linking the remainder, 8 bytes into the block, leaves the block's size word alone.
  lemma EndStays(m0: Memory, mem: Memory, block: nat, nil: nat, current: nat)
    requires ReadsAsEnd(m0, block) && mem == InsertMem(m0, nil, block + 8, current) && current + 24 != block + 8
    ensures ReadsAsEnd(mem, block)
  {
  }

  // What memalign makes of a free block: the pointer behind the lead, and the size granted there. For an
  // alignment up to 2^62 the pointer is aligned and the request fits.
  ghost predicate CarvedOut(align: nat, size: nat, from: nat, room: nat, p: nat, granted: nat)
    requires align > 0
  {
    var lead, adjust := Lead(from + 16, align, room), AdjustRequestSize(size, ALIGN_SIZE);
    && p == from + 16 + lead && lead <= room && granted == Granted(room - lead, adjust)
    && (UsableAlign(align) ==> Multiple(p, align) && adjust <= granted < adjust + HEADER_SIZE)
  }

  // What a block that stays where it is has room for: itself, or the free block behind it too.
  function ResizeRoom(hdr: Headers, block: nat, adjust: nat): nat
    requires block in hdr && Next(hdr, block) in hdr
  {
    if adjust > hdr[block].size then hdr[block].size + HEADER_OVERHEAD + hdr[Next(hdr, block)].size
    else hdr[block].size
  }

  // A resize that breaks the heap: the size rounds to 0 and the block can be split.
  ghost predicate Breaks(used: map<nat, nat>, ptr: Option<nat>, size: nat) {
    && ptr.Some? && size != 0 && AdjustRequestSize(size, ALIGN_SIZE) == 0
    && ptr.value >= 16 && ptr.value - 16 in used && used[ptr.value - 16] >= HEADER_SIZE
  }

  lemma EndOfNothing(w: nat)
    ensures BlockSize(SetSize(w, 0)) == 0
  {
  }

  // Memory in which a block reads as an end encodes no heap, with whatever blocks, lists and pools, that
  // has the block anywhere but at the end of a pool.
  lemma NoHeap(mem: Memory, hdr: Headers, links: Links, pools: Pools, nil: nat, block: nat)
    requires ReadsAsEnd(mem, block) && Layout(hdr, pools) && PoolsOk(hdr, pools)
    requires Encodes(mem, hdr, links, pools, nil) && block in hdr
    ensures exists p :: p in pools && pools[p] == block
  {
    hide Tag, BlockSize, MappingInsert;
    assert GoodBlock(hdr, block) && WordOk(mem, hdr, pools, block) && InPool(pools, block);
    Untag(hdr[block].size, hdr[block].free, hdr[block].prevFree);
    var p :| p in pools && p <= block <= pools[p];
    assert Inside(hdr, pools, p, block);
  }

  lemma NoEnd(hdr: Headers, pools: Pools, block: nat)
    requires PoolsOk(hdr, pools) && Plain(hdr, block)
    ensures forall p :: p in pools ==> pools[p] != block
  {
    forall p | p in pools
      ensures pools[p] != block
    {
      assert PoolOk(hdr, pools, p);
    }
  }

  lemma UsedSelf(hdr: Headers, a: nat)
    requires a in Used(hdr)
    ensures Used(hdr) == Used(hdr)[a := hdr[a].size]
  {
  }

  lemma SameSelf(mem: Memory, p: nat, bytes: nat)
    ensures SameContents(mem, p, mem, p, bytes)
  {
  }

  // What tlsf_check insists on for one list and its bits.
  lemma CheckedList(heads: Heads, fl: nat, sl: seq<nat>, links: Links, nil: nat, clock: nat, c: Class)
    requires FreeLists(links, heads, nil, clock) && Bitmaps(heads, fl, sl, nil) && ValidClass(c)
    ensures Bit(sl[c.fl], c.sl) <==> Head(heads, c) != nil
    ensures Bit(sl[c.fl], c.sl) ==> Bit(fl, c.fl) && sl[c.fl] != 0
    ensures Head(heads, c) != nil ==> Head(heads, c) in links && links[Head(heads, c)].cls == c
  {
    hide Bit;
    assert SlBit(heads, sl, nil, c.fl, c.sl) && FlBit(fl, sl, c.fl) && HeadOk(links, heads, nil, c);
    BitZero(c.sl);
  }

  // What tlsf_check insists on for one block of a list.
  lemma CheckedBlock(mem: Memory, hdr: Headers, links: Links, pools: Pools, nil: nat, heads: Heads, clock: nat, a: nat)
    requires Layout(hdr, pools) && PoolsOk(hdr, pools) && Tags(hdr, pools) && CoalescedBut(hdr, {})
    requires Encodes(mem, hdr, links, pools, nil) && FreeLists(links, heads, nil, clock) && a in links
    ensures Plain(hdr, a) && Next(hdr, a) in hdr && a + 8 in mem && Next(hdr, a) + 8 in mem && a + 16 in mem
    ensures var w, v := mem[a + 8], mem[Next(hdr, a) + 8];
      && IsFree(w) && !IsPrevFree(w) && !IsFree(v) && IsPrevFree(v)
      && BlockSize(w) == hdr[a].size >= BLOCK_SIZE_MIN && MappingInsert(BlockSize(w)) == links[a].cls
    ensures mem[a + 16] == links[a].next
    ensures links[a].next == nil || (links[a].next in links && links[links[a].next].cls == links[a].cls &&
                                     links[links[a].next].stamp < links[a].stamp)
  {
    hide MappingInsert, IsFree, IsPrevFree, BlockSize;
    assert LinkWordOk(mem, hdr, links, a) && LinkOk(links, heads, nil, clock, a);
    assert GoodBlock(hdr, a) && TagOk(hdr, a);
    ReadSize(mem, hdr, links, pools, nil, a);
    ReadSize(mem, hdr, links, pools, nil, Next(hdr, a));
  }

  // The first `bytes` bytes at p in the one memory are those at q in the other.
  ghost predicate SameContents(m0: Memory, p: nat, m1: Memory, q: nat, bytes: nat) {
    forall i :: 0 <= i < bytes && i % 8 == 0 && p + i in m0 ==> q + i in m1 && m1[q + i] == m0[p + i]
  }

  // align_down(bytes - pool_overhead, ALIGN_SIZE) in size_t arithmetic.
  function PoolBytes(bytes: nat): nat {
    var b := (bytes - 2 * HEADER_OVERHEAD) % SIZE_T;
    b - b % ALIGN_SIZE
  }

  // The bytes between the two headers of a pool, rounded down; fewer than the two headers wrap around to far
  // more than any pool may have.
  lemma PoolBytesMean(bytes: nat)
    requires bytes < SIZE_T
    ensures PoolBytes(bytes) % 8 == 0
    ensures if bytes >= 16 then bytes - 24 < PoolBytes(bytes) <= bytes - 16 else PoolBytes(bytes) > 0x1_0000_0000
  {
  }

  lemma EmptyBitmaps(heads: Heads, sl: seq<nat>, nil: nat)
    requires Shaped(heads) && |sl| == FL_INDEX_COUNT
    requires forall f, i :: 0 <= f < FL_INDEX_COUNT && 0 <= i < SL_INDEX_COUNT ==> heads[f][i] == nil
    requires forall f :: 0 <= f < FL_INDEX_COUNT ==> sl[f] == 0
    ensures Bitmaps(heads, 0, sl, nil)
  {
    forall f: nat, i: nat | f < FL_INDEX_COUNT
      ensures SlBit(heads, sl, nil, f, i)
    {
      BitZero(i);
    }
    forall f: nat
      ensures FlBit(0, sl, f)
    {
      BitZero(f);
    }
  }

  lemma FreshTag(w: nat, size: nat, v: nat)
    requires size % 8 == 0
    ensures SetPrevUsed(SetFree(SetSize(w, size))) == Tag(size, true, false)
    ensures BlockSize(Tag(size, true, false)) == size
    ensures SetPrevFree(SetUsed(SetSize(v, 0))) == Tag(0, false, true)
  {
    hide Tag, SetSize, SetFree, SetUsed, SetPrevFree, SetPrevUsed, BlockSize, IsFree, IsPrevFree;
    Retag(w, size);
    Untag(size, IsFree(w), IsPrevFree(w));
    Untag(size, true, IsPrevFree(w));
    Untag(size, true, false);
    Retag(v, 0);
    Untag(0, IsFree(v), IsPrevFree(v));
    Untag(0, false, IsPrevFree(v));
  }

  // A new pool's words are nobody's payload.
  lemma AddPayloads(mem: Memory, hdr: Headers, nil: nat, start: nat, size: nat)
    requires FreshMemory(mem, hdr, nil, start, size + 16)
    ensures PayloadsKept(mem, AddMem(mem, start - HEADER_OVERHEAD, size), hdr, {})
  {
  }

  lemma AddKept(m0: Memory, m1: Memory, m2: Memory, h0: Headers, h1: Headers)
    requires PayloadsKept(m0, m1, h0, {}) && PayloadsKept(m1, m2, h1, {})
    requires Used(h1) == Used(h0)
    ensures PayloadsKept(m0, m2, h0, {})
  {
    forall a, w | a !in {} && Payload(h0, a, w) && w in m0
      ensures w in m2 && m2[w] == m0[w]
    {
      if h0[a].size != 0 {
        assert a in Used(h0) && a in Used(h1) && Used(h1)[a] == Used(h0)[a];
        assert Payload(h1, a, w);
      }
    }
  }

  lemma PayloadsSame(m: Memory, hdr: Headers, but: set<nat>)
    ensures PayloadsKept(m, m, hdr, but)
  {
  }

  lemma UsedNew(h: Headers, g: Headers, a: nat, size: nat, b: nat)
    requires a in h && h[a].free && b in Used(h) && Used(g) == Used(h)[a := size]
    ensures a != b && a in Used(g) && a in g && !g[a].free && g[a].size == size
    ensures b in Used(g) && b in g && g[b].size == h[b].size
    ensures forall c :: c in h && !h[c].free && h[c].size != 0 ==> c in g && !g[c].free && g[c].size == h[c].size
  {
    assert forall c :: c in Used(h) ==> c in Used(g);
    assert Used(g)[a] == size && Used(g)[b] == Used(h)[b];
    forall c | c in h && !h[c].free && h[c].size != 0
      ensures c in g && !g[c].free && g[c].size == h[c].size
    {
      assert c in Used(h) && c in Used(g) && Used(g)[c] == Used(h)[c];
    }
  }

  // Allocating, copying and freeing keep every other payload and carry the contents over.
  lemma MoveKept(m0: Memory, h0: Headers, m1: Memory, h1: Headers, links: Links, pools: Pools, nil: nat,
                 m2: Memory, m3: Memory, block: nat, to: nat)
    requires Layout(h1, pools) && Encodes(m1, h1, links, pools, nil)
    requires Plain(h0, block) && !h0[block].free && to in h0 && h0[to].free && block != to
    requires PayloadsKept(m0, m1, h0, {})
    requires forall c :: c in h0 && !h0[c].free && h0[c].size != 0 ==>
      c in h1 && !h1[c].free && h1[c].size == h0[c].size
    requires to in h1 && !h1[to].free && h1[to].size >= h0[block].size
    requires AgreeOutside(m1, m2, to + 16, to + 15 + h0[block].size)
    requires SameContents(m1, block + 16, m2, to + 16, h0[block].size)
    requires PayloadsKept(m2, m3, h1, {block})
    ensures PayloadsKept(m0, m3, h0, {block})
    ensures SameContents(m0, block + 16, m3, to + 16, h0[block].size)
  {
    forall a, w | a !in {block} && Payload(h0, a, w) && w in m0
      ensures w in m3 && m3[w] == m0[w]
    {
      assert w in m1 && m1[w] == m0[w];
      assert Payload(h1, a, w);
      PayloadClear(m1, h1, links, pools, nil, a, to, w);
    }
    forall i | 0 <= i < h0[block].size && i % 8 == 0 && block + 16 + i in m0
      ensures to + 16 + i in m3 && m3[to + 16 + i] == m0[block + 16 + i]
    {
      assert Payload(h0, block, block + 16 + i) && Payload(h1, to, to + 16 + i);
    }
  }

  lemma PayloadWord(mem: Memory, hdr: Headers, links: Links, pools: Pools, nil: nat, a: nat, i: nat)
    requires Layout(hdr, pools) && Encodes(mem, hdr, links, pools, nil)
    requires Plain(hdr, a) && !hdr[a].free && a % 8 == 0 && i % 8 == 0 && i < hdr[a].size
    ensures Payload(hdr, a, a + 16 + i) && (a + 16 + i) % 8 == 0 && a + 16 + i in mem
  {
    hide Layout, Encodes;
    PayloadExists(mem, hdr, links, pools, nil, a, a + 16 + i);
  }

  lemma NextWord(i: nat, bytes: nat)
    requires i % 8 == 0 && bytes % 8 == 0 && i < bytes
    ensures i + 8 <= bytes && (i + 8) % 8 == 0
  {
  }

  lemma CopyStart(m: Memory, p: nat, q: nat)
    requires q > 0
    ensures AgreeOutside(m, m, q, q - 1) && SameContents(m, p, m, q, 0)
  {
  }

  lemma CopyStep(m0: Memory, m1: Memory, p: nat, q: nat, i: nat, bytes: nat)
    requires q > 0 && i % 8 == 0 && i + 8 <= bytes && p + i in m1 && q + i in m1
    requires p + bytes <= q || q + bytes <= p
    requires AgreeOutside(m0, m1, q, q + i - 1) && SameContents(m0, p, m1, q, i)
    ensures var m2 := m1[q + i := m1[p + i]];
      AgreeOutside(m0, m2, q, q + (i + 8) - 1) && SameContents(m0, p, m2, q, i + 8)
  {
  }

  lemma BlocksApart(hdr: Headers, pools: Pools, a: nat, b: nat)
    requires Layout(hdr, pools) && a in hdr && b in hdr && a != b
    ensures a + 16 + hdr[a].size <= b + 8 || b + 16 + hdr[b].size <= a + 8
  {
    assert Apart(hdr, a, b) && Apart(hdr, b, a);
  }

  // The payload words to keep when a block is cut down to `granted` bytes.
  ghost function KeepHead(mem: Memory, hdr: Headers, block: nat, granted: nat): set<nat> {
    set w | w in Payloads(mem, hdr, {}) && (w < block + 16 + granted || !Payload(hdr, block, w))
  }

  lemma HeadProtected(mem: Memory, hdr: Headers, links: Links, pools: Pools, nil: nat,
                      block: nat, granted: nat, total: nat)
    requires Layout(hdr, pools) && Encodes(mem, hdr, links, pools, nil)
    requires Plain(hdr, block) && Next(hdr, block) in hdr && !hdr[block].free
    requires total == hdr[block].size ||
      (hdr[Next(hdr, block)].free && total == hdr[block].size + HEADER_OVERHEAD + hdr[Next(hdr, block)].size)
    ensures var keep := KeepHead(mem, hdr, block, granted);
      && Protects(keep, hdr, nil)
      && forall w :: w in keep ==> w < block + 16 + granted || w >= block + 16 + total
  {
    var keep := KeepHead(mem, hdr, block, granted);
    PayloadsProtected(mem, hdr, links, pools, nil, {});
    forall c, w | c in hdr && w in keep
      ensures Clear(hdr, nil, c, w)
    {
      assert w in Payloads(mem, hdr, {});
    }
    forall w | w in keep
      ensures w < block + 16 + granted || w >= block + 16 + total
    {
      var a :| a !in {} && Payload(hdr, a, w);
      PayloadClear(mem, hdr, links, pools, nil, a, block, w);
      PayloadClear(mem, hdr, links, pools, nil, a, Next(hdr, block), w);
    }
  }

  lemma HeadKept(mem: Memory, m: Memory, hdr: Headers, links: Links, pools: Pools, nil: nat, block: nat, granted: nat)
    requires Layout(hdr, pools) && Encodes(mem, hdr, links, pools, nil)
    requires Plain(hdr, block) && !hdr[block].free
    requires Kept(mem, m, KeepHead(mem, hdr, block, granted))
    ensures PayloadsKept(mem, m, hdr, {block})
    ensures SameContents(mem, block + 16, m, block + 16, if hdr[block].size < granted then hdr[block].size else granted)
  {
    var keep := KeepHead(mem, hdr, block, granted);
    forall a, w | a !in {block} && Payload(hdr, a, w) && w in mem
      ensures w in m && m[w] == mem[w]
    {
      PayloadClear(mem, hdr, links, pools, nil, a, block, w);
      assert w in Payloads(mem, hdr, {}) && w in keep;
    }
    var n := if hdr[block].size < granted then hdr[block].size else granted;
    forall i | 0 <= i < n && i % 8 == 0 && block + 16 + i in mem
      ensures block + 16 + i in m && m[block + 16 + i] == mem[block + 16 + i]
    {
      assert Payload(hdr, block, block + 16 + i);
      assert block + 16 + i in Payloads(mem, hdr, {}) && block + 16 + i in keep;
    }
  }

  lemma MarkUsedCoalesced(hdr: Headers, a: nat)
    requires Plain(hdr, a) && Next(hdr, a) in hdr && CoalescedBut(hdr, {})
    ensures CoalescedBut(MarkUsed(hdr, a), {})
  {
  }

  lemma UnfoldFit(hdr: Headers, size: nat, b: nat)
    requires GoodFit(hdr, size, b)
    ensures b in hdr && hdr[b].free && size <= hdr[b].size && b !in Used(hdr)
  {
  }

  // What is left of a block after trimming it to a request: the request, or up to
  // one header more when the rest would be too small for a block.
  function Granted(block: nat, size: nat): nat {
    if block >= HEADER_SIZE + size then size else block
  }

  lemma BlockSpan(hdr: Headers, pools: Pools, a: nat)
    requires Layout(hdr, pools) && a in hdr
    ensures a % 8 == 0 && a + 16 + hdr[a].size <= SIZE_T
  {
    assert GoodBlock(hdr, a);
  }

  // No allocated block starts inside a free one.
  lemma InsideFree(hdr: Headers, pools: Pools, from: nat, a: nat)
    requires Layout(hdr, pools) && from in hdr && hdr[from].free
    requires from <= a < Next(hdr, from)
    ensures a !in Used(hdr)
  {
    assert a in hdr ==> Apart(hdr, from, a);
  }

  lemma HoldingMore(hdr: Headers, but: set<nat>)
    requires CoalescedBut(hdr, {})
    ensures CoalescedBut(hdr, but)
  {
  }

  lemma LiveBlock(hdr: Headers, pools: Pools, a: nat)
    requires Layout(hdr, pools) && a in Used(hdr)
    ensures Plain(hdr, a) && Next(hdr, a) in hdr && !hdr[a].free && Used(hdr)[a] == hdr[a].size
    ensures hdr[a].size >= BLOCK_SIZE_MIN && hdr[a].size % 8 == 0
  {
    assert GoodBlock(hdr, a);
  }

  lemma ListedFree(mem: Memory, hdr: Headers, links: Links, pools: Pools, nil: nat, a: nat)
    requires Encodes(mem, hdr, links, pools, nil) && a in hdr && !hdr[a].free
    ensures a !in links
  {
    hide MappingInsert;
    assert a in links ==> LinkWordOk(mem, hdr, links, a);
  }

  lemma MarkFreeCoalesced(hdr: Headers, pools: Pools, a: nat)
    requires Plain(hdr, a) && Next(hdr, a) in hdr && CoalescedBut(hdr, {})
    ensures CoalescedBut(MarkFree(hdr, a), {a, Next(hdr, a)})
  {
  }

  // Apart from the remainder r, the blocks are in the state they were in.
  ghost predicate SameElsewhere(h: Headers, g: Headers, a: nat, r: nat)
    requires a in h
  {
    forall c :: c in g && c != r ==>
      c in h && g[c].free == h[c].free && (c != Next(h, a) ==> g[c].prevFree == h[c].prevFree)
  }

  // g is the split of h at a, once the remainder's record of its predecessor is set.
  ghost predicate Recorded(h: Headers, g: Headers, pools: Pools, a: nat, size: nat, junk: Header) {
    && Plain(h, a) && Next(h, a) in h && size > 0 && size + HEADER_SIZE <= h[a].size
    && a + HEADER_OVERHEAD + size !in h && PoolsOk(h, pools)
    && var r, s := a + HEADER_OVERHEAD + size, Split(h, a, size, junk);
      && TagsBut(s, pools, a) && Layout(s, pools)
      && r in g && g == s[r := g[r]]
      && g[r].size == s[r].size && g[r].free && g[r].prevFree == h[a].free
      && (h[a].free ==> g[r].prev == a)
  }

  lemma RecordedTags(h: Headers, g: Headers, pools: Pools, a: nat, size: nat, junk: Header)
    requires Recorded(h, g, pools, a, size, junk)
    ensures Tags(g, pools)
  {
    var r, s := a + HEADER_OVERHEAD + size, Split(h, a, size, junk);
    forall c | Plain(g, c)
      ensures TagOk(g, c)
    {
      assert c != a ==> TagOk(s, c);
      NextInjective(s, pools, a, c);
    }
    forall c | c in g
      ensures BackOk(g, c)
    {
      assert c != r ==> BackOk(s, c);
    }
    forall p | p in pools
      ensures FirstOk(g, p)
    {
      assert FirstOk(s, p) && PoolOk(h, pools, p);
    }
  }

  lemma SplitRecorded(h: Headers, g: Headers, pools: Pools, a: nat, size: nat, junk: Header)
    requires Recorded(h, g, pools, a, size, junk)
    ensures Tags(g, pools)
    ensures Used(g) == if h[a].free then Used(h) else Used(h)[a := size]
    ensures SameElsewhere(h, g, a, a + HEADER_OVERHEAD + size)
  {
    var s := Split(h, a, size, junk);
    RecordedTags(h, g, pools, a, size, junk);
    UsedSplit(h, a, size, junk);
    assert Used(g) == Used(s);
  }

  lemma NewUnlinkedAll(mem: Memory, hdr: Headers, links: Links, pools: Pools, nil: nat)
    requires Encodes(mem, hdr, links, pools, nil)
    ensures links.Keys <= hdr.Keys
  {
    hide MappingInsert;
    forall r | r in links
      ensures r in hdr
    {
      assert LinkWordOk(mem, hdr, links, r);
    }
  }

  lemma TrimResult(h: Headers, g: Headers, links: Links, pools: Pools, a: nat, r: nat, but: set<nat>)
    requires Plain(h, a) && h[a].free && Tags(h, pools) && CoalescedBut(h, but) && but <= {a}
    requires forall c :: c in h && h[c].free && c != a ==> c in links
    requires SameElsewhere(h, g, a, r)
    ensures CoalescedBut(g, but + {r})
    ensures forall c :: c in g && g[c].free && c != a && c != r ==> c in links
  {
    assert TagOk(h, a);
  }

  lemma TrimUsedResult(h: Headers, g: Headers, links: Links, pools: Pools, a: nat, r: nat)
    requires Plain(h, a) && !h[a].free && CoalescedBut(h, {})
    requires forall c :: c in h && h[c].free ==> c in links
    requires SameElsewhere(h, g, a, r) && r in g && !g[r].prevFree
    ensures CoalescedBut(g, {Next(h, a)})
    ensures forall c :: c in g && g[c].free && c != r ==> c in links
  {
  }

  lemma PlainFree(hdr: Headers, pools: Pools, a: nat)
    requires Layout(hdr, pools) && a in hdr && hdr[a].free
    ensures Plain(hdr, a) && Next(hdr, a) in hdr
  {
    assert GoodBlock(hdr, a);
  }

  lemma UsedSame(hdr: Headers, a: nat)
    requires Plain(hdr, a) && !hdr[a].free
    ensures Used(hdr)[a := hdr[a].size] == Used(hdr)
  {
  }

  lemma KeptTrans(m0: Memory, m1: Memory, m2: Memory, keep: set<nat>)
    requires Kept(m0, m1, keep) && Kept(m1, m2, keep)
    ensures Kept(m0, m2, keep)
  {
  }

  lemma KeptRefl(m: Memory, keep: set<nat>)
    ensures Kept(m, m, keep)
  {
  }

  // Adding sizes leaves the flag bits of the size word alone.
  lemma AbsorbedSize(mem: Memory, hdr: Headers, links: Links, pools: Pools, nil: nat, a: nat)
    requires Layout(hdr, pools) && Encodes(mem, hdr, links, pools, nil) && CanAbsorb(hdr, a)
    ensures a + 8 in mem
    ensures var size := hdr[Next(hdr, a)].size + HEADER_OVERHEAD;
      BlockSize(mem[a + 8] + size) == hdr[a].size + size
  {
    hide MappingInsert;
    assert WordOk(mem, hdr, pools, a) && GoodBlock(hdr, a) && GoodBlock(hdr, Next(hdr, a));
    var size := hdr[Next(hdr, a)].size + HEADER_OVERHEAD;
    Untag(hdr[a].size + size, hdr[a].free, hdr[a].prevFree);
  }

  // Every free block is in a class below the one the search starts from.
  ghost predicate NoFit(hdr: Headers, size: nat) {
    forall a :: a in hdr && hdr[a].free ==> Before(MappingInsert(hdr[a].size), MappingSearch(size))
  }

  // A free block that is large enough, of the least class that the search looks at
  // and that has a block.
  ghost predicate GoodFit(hdr: Headers, size: nat, b: nat) {
    && b in hdr && hdr[b].free && size <= hdr[b].size
    && !Before(MappingInsert(hdr[b].size), MappingSearch(size))
    && (forall a :: a in hdr && hdr[a].free && Before(MappingInsert(hdr[a].size), MappingInsert(hdr[b].size)) ==>
          Before(MappingInsert(hdr[a].size), MappingSearch(size)))
  }

  lemma SearchMeaning(mem: Memory, hdr: Headers, links: Links, pools: Pools, nil: nat,
                      heads: Heads, clock: nat, size: nat, block: Option<nat>, c: Class)
    requires Layout(hdr, pools) && Encodes(mem, hdr, links, pools, nil)
    requires FreeLists(links, heads, nil, clock) && size % ALIGN_SIZE == 0
    requires forall a :: a in hdr && hdr[a].free ==> a in links
    requires var from := MappingSearch(size);
      && (block.None? && from.fl < FL_INDEX_COUNT ==> AllEmpty(heads, nil, from))
      && (block.Some? ==> LeastNonEmpty(heads, nil, from, c) && block.value == Head(heads, c))
    ensures block.None? <==> NoFit(hdr, size)
    ensures block.Some? ==>
      && GoodFit(hdr, size, block.value)
      && block.value in links && links[block.value].cls == c
  {
    hide MappingInsert, MappingSearch;
    forall a | a in links
      ensures Plain(hdr, a) && hdr[a].free && links[a].cls == MappingInsert(hdr[a].size)
      ensures ValidClass(links[a].cls) && Head(heads, links[a].cls) != nil
    {
      assert LinkWordOk(mem, hdr, links, a);
      HeadOfLinked(links, heads, nil, clock, a);
    }
    if block.Some? {
      assert HeadOk(links, heads, nil, c);
      SearchSound(size, hdr[block.value].size);
    }
  }

  // No pointer of the free lists is null.
  lemma LinkedNonNull(mem: Memory, hdr: Headers, links: Links, pools: Pools, nil: nat, b: nat)
    requires Layout(hdr, pools) && Encodes(mem, hdr, links, pools, nil) && b in links
    ensures b != 0
  {
    hide MappingInsert;
    assert LinkWordOk(mem, hdr, links, b) && GoodBlock(hdr, b);
  }

  lemma NeighboursNonNull(hdr: Headers, links: Links, pools: Pools, nil: nat, heads: Heads, clock: nat,
                          mem: Memory, b: nat)
    requires Layout(hdr, pools) && Encodes(mem, hdr, links, pools, nil) && nil != 0
    requires Shaped(heads) && b in links && LinkOk(links, heads, nil, clock, b)
    ensures links[b].next != 0 && links[b].prev != 0
  {
    hide Layout, Encodes;
    var n, p := links[b].next, links[b].prev;
    if n in links {
      LinkedNonNull(mem, hdr, links, pools, nil, n);
    }
    if p in links {
      LinkedNonNull(mem, hdr, links, pools, nil, p);
    }
  }

  lemma HeadNonNull(mem: Memory, hdr: Headers, links: Links, pools: Pools, nil: nat, heads: Heads, clock: nat, a: nat)
    requires Layout(hdr, pools) && PoolsOk(hdr, pools) && Encodes(mem, hdr, links, pools, nil) && nil != 0
    requires FreeLists(links, heads, nil, clock) && a in hdr && hdr[a].free
    ensures a != 0
    ensures forall c: Class :: ValidClass(c) ==> Head(heads, c) != 0
  {
    assert GoodBlock(hdr, a);
    forall c: Class | ValidClass(c)
      ensures Head(heads, c) != 0
    {
      assert HeadOk(links, heads, nil, c);
      if Head(heads, c) in links {
        LinkedNonNull(mem, hdr, links, pools, nil, Head(heads, c));
      }
    }
  }

  lemma InsertLinksKeys(links: Links, heads: Heads, nil: nat, clock: nat, a: nat, c: Class)
    requires Shaped(heads) && ValidClass(c)
    requires Head(heads, c) == nil || Head(heads, c) in links
    ensures InsertLinks(links, heads, nil, clock, a, c).Keys == links.Keys + {a}
  {
  }

  lemma InsertStep(mem: Memory, hdr: Headers, links: Links, pools: Pools, nil: nat, heads: Heads, clock: nat,
                   fl: nat, sl: seq<nat>, a: nat, c: Class)
    requires Layout(hdr, pools) && Encodes(mem, hdr, links, pools, nil)
    requires FreeLists(links, heads, nil, clock) && Bitmaps(heads, fl, sl, nil)
    requires Plain(hdr, a) && hdr[a].free && a !in links && c == MappingInsert(hdr[a].size)
    ensures ValidClass(c) && Shaped(heads) && |sl| == FL_INDEX_COUNT
    ensures var h := Head(heads, c);
      && a + 16 in mem && a + 24 in mem && h + 24 in mem && (h == nil || h in links)
      && Encodes(InsertMem(mem, nil, a, h), hdr, InsertLinks(links, heads, nil, clock, a, c), pools, nil)
    ensures FreeLists(InsertLinks(links, heads, nil, clock, a, c), SetHead(heads, c, a), nil, clock + 1)
    ensures Bitmaps(SetHead(heads, c, a), Or(fl, Pow2(c.fl)), sl[c.fl := Or(sl[c.fl], Pow2(c.sl))], nil)
  {
    hide MappingInsert, Bit, Or, Pow2;
    ClassInRange(hdr, pools, a);
    assert HeadOk(links, heads, nil, c);
    assert Backed(mem.Keys, hdr, nil, a);
    InsertEncodes(mem, hdr, links, pools, nil, heads, clock, a, c);
    InsertKeeps(links, heads, nil, clock, a, c);
    BitmapInsert(heads, fl, sl, nil, c, a);
  }

  lemma ResetSize(w: nat, size: nat)
    requires size % 8 == 0
    ensures BlockSize(SetSize(w, size)) == size
  {
    Retag(w, size);
    Untag(size, IsFree(w), IsPrevFree(w));
  }

  // The size word of a block, read back.
  lemma ReadSize(mem: Memory, hdr: Headers, links: Links, pools: Pools, nil: nat, a: nat)
    requires Layout(hdr, pools) && Encodes(mem, hdr, links, pools, nil) && a in hdr
    ensures a + 8 in mem
    ensures BlockSize(mem[a + 8]) == hdr[a].size
    ensures IsFree(mem[a + 8]) == hdr[a].free && IsPrevFree(mem[a + 8]) == hdr[a].prevFree
  {
    hide MappingInsert, Tag, BlockSize, IsFree, IsPrevFree;
    assert WordOk(mem, hdr, pools, a) && GoodBlock(hdr, a);
    Untag(hdr[a].size, hdr[a].free, hdr[a].prevFree);
  }

  lemma ClassInRange(hdr: Headers, pools: Pools, a: nat)
    requires Layout(hdr, pools) && a in hdr
    ensures ValidClass(MappingInsert(hdr[a].size))
  {
    hide MappingInsert;
    assert GoodBlock(hdr, a);
    InsertRange(hdr[a].size);
  }
}
