# EFI wrapper: a Dafny model

The repository implements EFI boot services on top of an ordinary process. This project models the parts
of it that carry real invariants, in the shape the code has (classes with fields the methods update, loops
with invariants, functions for what only computes), and proves what they guarantee.

| File | Models |
|---|---|
| `Options.dfy` | the option type for null pointers and results |
| `Bits.dfy`, `SizeClass.dfy`, `Alignment.dfy` | the arithmetic of the TLSF allocator: bit operations and scans, size classes, request rounding, the alignment gap |
| `TlsfHeap.dfy`, `TlsfLists.dfy`, `TlsfMemory.dfy`, `TlsfPools.dfy` | the abstract heap (blocks, boundary tags, free lists, bitmaps), its encoding in memory words, its pools |
| `Tlsf.dfy`, `TlsfRuns.dfy` | the allocator itself as a class over memory words, and whole runs of requests |
| `EventQueue.dfy` | the TPL-ordered notification queue with re-entrant dispatch (section 7.1 of the UEFI Specification, version 2.7) |
| `ServiceStart.dfy` | the dependency scheduler of services |
| `ProtocolOpen.dfy` | OpenProtocol and CloseProtocol (section 7.3 of the UEFI Specification, version 2.7) |
| `PoolArithmetic.dfy`, `Bytes.dfy`, `MemHeader.dfy`, `MemPool.dfy` | memory pools with checksummed descriptors: their 64-bit arithmetic, the layout of a descriptor and the damage its checksum finds, and the pool itself |
| `Crc32.dfy` | the table-driven CRC-32 (section 8 of RFC 1952) |
| `DevicePath.dfy` | device paths (sections 10.3.1 and 10.5 of the UEFI Specification, version 2.7) |
| `ListSort.dfy`, `PathResolve.dfy` | the list sort and the path normaliser |

## How the TLSF model fits together

The allocator's state is the words of memory (`mem`), the table of list heads (`blocks`) and the two bitmap
levels. Beside them stand ghost maps: `hdr` (every block with its size and flags), `links` (every free block
with its neighbours in its list) and `pools` (first block to sentinel). `Valid` says that

* blocks are 8-aligned, at least 24 bytes, apart from each other, and tile each pool up to a sentinel of size 0;
* every block's state is recorded in its right neighbour, and no two adjacent blocks are free;
* the lists hold exactly the free blocks, each in the list of its size class;
* both bitmap levels agree with which lists are empty;
* the memory words encode all of this, `prev_phys_block` only where the block in front is free.

Every method reads and writes words, and its contract states the new abstract heap and which words of other
blocks are kept. `Used(hdr)`, the allocated blocks with their sizes, is what a client sees of a heap; `TlsfRuns`
adds the words clients store and shows that any run of malloc, memalign, free, realloc and stores behaves like an
ideal memory that maps pointers to contents. The links
of the null block are scribbled on by insertion and removal and are outside the invariant. Sizes, addresses and
bit masks are natural numbers; wrap-around of `size_t` is written out wherever a computation can reach it.

## Where the code does not keep a promise

These are proved as they are, with the exact condition under which the promise holds.

* `TlsfRuns.GrantCovers`: a block covers its request exactly when the size is at most 2^64 - 8; a request of
  2^64 - 1 bytes is rounded to 24.
* `TlsfAllocator.Tlsf.Realloc`: a resize leaves a valid heap exactly unless the size rounds to 0 and the block
  has at least 32 bytes. By `TlsfRuns.ReallocRange` that is for sizes above 2^32 - 8 and up to 2^64 - 8. The
  block's size word is then left 0, as only the end of a pool may have it (`TlsfAllocator.NoHeap`);
  `TlsfRuns.ResizeTooFar` is the least such size. Sizes above 2^64 - 8 round to 24 and shrink the block.
* `TlsfRuns.LargestPoolOutOfRange`: a pool of exactly 2^32 bytes passes the range test but has no size class.
* `TlsfRuns.MemalignRange`: memalign asks for enough room exactly for alignments up to 2^62. For 2^63 the sum
  wraps around and the smallest block is looked for: the heap stays valid, but the pointer is aligned only under
  the condition of `TlsfRuns.TopAligned`, and the block may be smaller than the request.
* `MemPool.Pool.Allocate` and `Reallocate`: the size plus 88 is computed modulo 2^64 and not looked at. What is
  asked for has room for descriptor, buffer and footer, or is nothing, exactly for sizes up to 2^64 - 88
  (`PoolArithmetic.PlainFits`). From there to 2^64 - 9 the descriptor itself does not fit. From 2^64 - 8 on the
  footer comes to lie over the end of the descriptor, which is written later; for 2^64 - 1, which is granted 87
  bytes, `MemPool.Pool.FreeLargest` shows that freeing the untouched buffer aborts.
* `MemPool.Pool.AlignedAllocate`: a request that asks for anything is served soundly wherever the platform puts it
  exactly when none of its sums wraps (`PoolArithmetic.AlignedExact`), for powers of two and all other alignments
  up to a third of 2^64.
* The offset and the alignment are kept in 16 bits, so among powers of two from 8 on exactly those up to
  2^16 - 80 leave a sound pool (`PoolArithmetic.AlignmentStored`). Larger ones fail in one of two ways, both shown
  for 2^16 by `PoolArithmetic.LostAlignment`. If the offset is too large, `MemPool.Pool.Free` aborts. If it is
  small, `Free` returns, but the stored alignment is 0 and `MemPool.Pool.Reallocate` takes the block for an
  unaligned one; the books are then wrong unless the descriptor was at the start of the raw memory.
* `MemPool.Pool.Reallocate`: when the first block of a pool moves, the pool goes on pointing at its old place
  (the update in lib/mem.c:176 assigns the field to itself); a resize without that, whose sum does not wrap, keeps
  a sound pool sound. A refusal by the platform's allocator aborts the process.
* `EventQueue.Context.RestoreTpl`: every event that waits above the final TPL when it is called is notified, but
  an event that joins meanwhile may not be. For an event above the TPL that one notification signals, outside all
  groups and neither signalled nor queued before, while no other call is made: it is left in the queue exactly if it
  is not above the node being notified and comes in front of the node behind that one, or there is none behind
  (`Missed`); otherwise it is notified and gone. `EventQueue.LateJoiner` is the case without a node behind, with A
  and B at TPL 8, and `EventQueue.Overtaken` the case with one, A and B at TPL 16 and C at TPL 8; both leave B queued
  at TPL 4. For any notifications, what is queued above the final TPL joined during the call, or was notified and
  stayed because its event was not signalled when its function returned.
* `ServiceStart.RunContext.AutoStart`: for services without condition the loop ends exactly if the least fixed
  point holds no instance with a restart flag whose start fails. With or without conditions it never ends if at the
  beginning an instance could be started whose starts all fail and that has a restart flag, or a condition that
  always holds.
* `ServiceStart.OrderMatters`: with conditions the outcome depends on the order of the list. A failed condition
  lets through what comes after the service, but is no start, so that the loop may end in the same round.
* `ProtocolOpen.InterfaceEntry.Open`: a successful open is recorded exactly if its list node could be allocated or
  the same open was listed before; otherwise, as in `ProtocolOpen.InterfaceEntry.TwoDrivers`, two agents can both
  get the interface as its driver.
* `DevicePath.InstanceNext`: a node that ends an instance may have a body for the validity test, but then no
  copy of the instance is made although a size is returned.
* `PathResolve.Resolve`: reading goes past the end of the path exactly when its last component is `.` or `..`.

## Model

| member | source | states |
|---|---|---|
| Bits.FfsLeast | libs/tlsf/tlsf.c:63-66 | tlsf_ffs returns the least set bit of a nonzero word |
| Bits.FlsLog | libs/tlsf/tlsf.c:70-74 | tlsf_fls is the integer logarithm: 2^fls <= x < 2^(fls+1) |
| Bits.FlsUnique | libs/tlsf/tlsf.c:70-74 | tlsf_fls is the only exponent with that property |
| Bits.FlsHalves | libs/tlsf/tlsf.c:180-194 | the 64-bit scan from its two 32-bit halves agrees with the scan of the whole word |
| Bits.MaskFrom | libs/tlsf/tlsf.c:553 | masking with ones from bit k up keeps exactly the bits at or above k |
| Bits.SetBit | libs/tlsf/tlsf.c:622-623 | setting a bit changes that bit and no other |
| Bits.ClearBit | libs/tlsf/tlsf.c:594-600 | clearing a bit changes that bit and no other |
| Bits.ShrQuotient | libs/tlsf/tlsf.c:526-528 | a right shift is the quotient by a power of two |
| SizeClass.InsertRange | libs/tlsf/tlsf.c:514-531 | every size below 2^32 falls in a class inside the table whose range of sizes contains it |
| SizeClass.RangesIncrease | libs/tlsf/tlsf.c:514-531 | classes in table order have disjoint, increasing ranges of sizes |
| SizeClass.ClassOrder | libs/tlsf/tlsf.c:514-531 | a size's class is before or after a given class exactly as the size is below or above its range |
| SizeClass.SlackSmall | libs/tlsf/tlsf.c:534-542 | the rounding of a search adds at most a 32nd part |
| SizeClass.SearchClassBounds | libs/tlsf/tlsf.c:534-542 | the class searched from starts at or above the size, by less than the rounding slack |
| SizeClass.SearchSound | libs/tlsf/tlsf.c:534-542 | every block in a class at or above the searched one is large enough |
| SizeClass.SearchTight | libs/tlsf/tlsf.c:534-542 | every block in a class below the searched one is smaller than the size plus its 32nd part, or than the size itself below 256 |
| Alignment.AlignUpBounds | libs/tlsf/tlsf.c:469-473 | align_up gives the least multiple at or above, unless the sum wraps |
| Alignment.AdjustBounds | libs/tlsf/tlsf.c:493-507 | a rounded request is 0 or an aligned size in range; when it is 0, and when it covers the request |
| Alignment.AdjustKnown | libs/tlsf/tlsf.c:493-507 | what known requests are rounded to: 24 at least, multiples of 8, nothing from 2^32 - 7 on |
| Alignment.GapSmall | libs/tlsf/tlsf.c:1147-1167 | alignments up to 8 need no gap |
| Alignment.GapShape | libs/tlsf/tlsf.c:1147-1167 | the gap is nothing exactly at an aligned address, and else a whole block header or more, at most 24 bytes more than the alignment; it leads to an aligned address |
| Alignment.GapFits | libs/tlsf/tlsf.c:1124-1179 | in the room asked for, the gap can be split off and the request still fits behind it |
| Alignment.NeedBounds | libs/tlsf/tlsf.c:1124-1143 | the size memalign searches for is 0 or at least the rounded request |
| Alignment.NeedFromAbove | libs/tlsf/tlsf.c:1124-1143 | that size is the rounded request for alignments up to 8 and less than request, twice the alignment and 32 together for larger ones; it is 0 only for nothing or where that bound exceeds 2^32 |
| Alignment.NeedCovers | libs/tlsf/tlsf.c:1124-1179 | in any block of the searched size, at any address, gap and request fit and the result is aligned |
| TlsfHeap.Untag | libs/tlsf/tlsf.c:366-410 | size and flag operations on a size word act on the field they name and on nothing else |
| TlsfHeap.Retag | libs/tlsf/tlsf.c:371-375 | setting the size keeps both flags |
| TlsfHeap.MarkFreeKeeps | libs/tlsf/tlsf.c:454-460 | marking a block free keeps tiling, pools and boundary tags |
| TlsfHeap.MarkUsedKeeps | libs/tlsf/tlsf.c:462-467 | marking a block used keeps them too |
| TlsfHeap.SplitKeeps | libs/tlsf/tlsf.c:648-667 | splitting keeps tiling and pools, and all boundary tags but those of the split block |
| TlsfHeap.AbsorbKeeps | libs/tlsf/tlsf.c:670-677 | absorbing the right neighbour keeps them likewise |
| TlsfHeap.AbsorbFits | libs/tlsf/tlsf.c:670-677 | two neighbours together stay below the largest block size |
| TlsfHeap.NextInjective | libs/tlsf/tlsf.c:438-444 | no two blocks have the same right neighbour |
| TlsfHeap.UsedSplit | libs/tlsf/tlsf.c:648-667 | splitting changes nothing a client sees but the split block's own size |
| TlsfHeap.UsedAbsorb | libs/tlsf/tlsf.c:670-677 | absorbing changes nothing a client sees but the growing block's own size |
| TlsfLists.InsertKeeps | libs/tlsf/tlsf.c:606-624 | inserting at the head of a list keeps all lists doubly linked and ending in the null block |
| TlsfLists.RemoveKeeps | libs/tlsf/tlsf.c:577-603 | unlinking from anywhere in a list keeps them so |
| TlsfLists.ListsAreExact | libs/tlsf/tlsf.c:577-624 | walking a class's list meets every free block of that class, each once, and no other |
| TlsfLists.BitmapInsert | libs/tlsf/tlsf.c:616-623 | the bits set on insertion make both levels agree with list emptiness again |
| TlsfLists.BitmapClear | libs/tlsf/tlsf.c:586-602 | the bits cleared on emptying a list make both levels agree again |
| TlsfLists.RowSearch | libs/tlsf/tlsf.c:544-574 | the second-level scan finds the first nonempty list of the row at or above the start, or says there is none |
| TlsfLists.ColumnSearch | libs/tlsf/tlsf.c:544-574 | the first-level scan finds the first nonempty row at or above the start, or says there is none |
| TlsfMemory.MarkFreeEncodes | libs/tlsf/tlsf.c:454-460 | the words written when a block is marked free encode the new heap |
| TlsfMemory.MarkUsedEncodes | libs/tlsf/tlsf.c:462-467 | likewise when it is marked used |
| TlsfMemory.SplitEncodes | libs/tlsf/tlsf.c:648-667 | likewise for a split, whatever the payload held where the new header goes |
| TlsfMemory.AbsorbEncodes | libs/tlsf/tlsf.c:670-677 | likewise for absorbing a neighbour |
| TlsfMemory.InsertEncodes | libs/tlsf/tlsf.c:606-624 | likewise for list insertion, including the scribbling on the null block |
| TlsfMemory.RemoveEncodes | libs/tlsf/tlsf.c:577-603 | likewise for list removal |
| TlsfMemory.PayloadClear | libs/tlsf/tlsf.c:293-333 | no payload word of an allocated block is a word the allocator uses, although the next header begins inside the payload |
| TlsfMemory.PayloadWriteEncodes | libs/tlsf/tlsf.c:293-333 | a client that writes its own payload disturbs no structure |
| TlsfPools.WalkIsExact | libs/tlsf/tlsf.c:905-920 | walking a pool visits exactly its blocks |
| TlsfPools.WalkAscends | libs/tlsf/tlsf.c:905-920 | it visits them in ascending order, hence each once |
| TlsfPools.SentinelEndsWalk | libs/tlsf/tlsf.c:377-380 | on a walk, size 0 marks the sentinel and nothing else |
| TlsfPools.PoolConserved | libs/tlsf/tlsf.c:669-708 | sizes plus header overheads of a pool's blocks add up to the pool, in every valid heap |
| TlsfPools.AllFreed | libs/tlsf/tlsf.c:1030-1043 | with nothing allocated, a pool is a single free block of all its bytes |
| TlsfPools.Placement | libs/tlsf/tlsf.c:784-795 | an allocated block is 8-aligned, inside a pool and disjoint from every other |
| TlsfPools.AddEncodes | libs/tlsf/tlsf.c:981-1028 | the words written for a new pool encode it beside the old ones |
| TlsfPools.RemoveEncodesPool | libs/tlsf/tlsf.c:1030-1043 | after a pool is taken out, memory still encodes the rest |
| TlsfAllocator.Tlsf.constructor | libs/tlsf/tlsf.c:798-814 | an empty control structure is a valid heap without pools |
| TlsfAllocator.Tlsf.AddPool | libs/tlsf/tlsf.c:981-1028 | a pool is accepted exactly when aligned and in range; the heap stays valid, allocated blocks and payloads as before |
| TlsfAllocator.PoolBytesMean | libs/tlsf/tlsf.c:986-1004 | the bytes between the headers of a pool, rounded down to a multiple of 8; below 16 bytes the difference wraps and is out of range |
| TlsfAllocator.Tlsf.RemovePool | libs/tlsf/tlsf.c:1030-1043 | a pool that is one free block can be taken out; everything else stays |
| TlsfAllocator.Tlsf.Check | libs/tlsf/tlsf.c:845-895 | every test of tlsf_check passes on a valid heap |
| TlsfAllocator.Tlsf.CheckPool | libs/tlsf/tlsf.c:933-940 | so does every test of tlsf_check_pool |
| TlsfAllocator.Tlsf.RemoveFreeBlock | libs/tlsf/tlsf.c:577-603 | the block leaves its list; lists, bitmaps and encoding stay consistent; protected words are kept |
| TlsfAllocator.Tlsf.InsertFreeBlock | libs/tlsf/tlsf.c:606-624 | the block enters its list, with the same guarantees |
| TlsfAllocator.Tlsf.SearchSuitableBlock | libs/tlsf/tlsf.c:544-574 | it returns the head of the lexicographically least nonempty list at or above the start, or null exactly if all are empty |
| TlsfAllocator.Tlsf.BlockLocateFree | libs/tlsf/tlsf.c:754-782 | null exactly if no free block is in a class at or above the searched one; else a large enough block of the least such class, taken off its list |
| TlsfAllocator.SearchMeaning | libs/tlsf/tlsf.c:754-773 | what the list found by the search says about all free blocks of the heap |
| TlsfAllocator.Tlsf.BlockSplit | libs/tlsf/tlsf.c:648-667 | the new heap is the split one, the remainder sits right behind, protected words are kept |
| TlsfAllocator.Tlsf.BlockAbsorb | libs/tlsf/tlsf.c:670-677 | the new heap is the merged one, protected words are kept |
| TlsfAllocator.Tlsf.BlockMergePrev | libs/tlsf/tlsf.c:680-692 | a free block and its free left neighbour become one unlisted block |
| TlsfAllocator.Tlsf.BlockMergeNext | libs/tlsf/tlsf.c:695-708 | a block swallows its right neighbour exactly when that is free |
| TlsfAllocator.Tlsf.BlockTrimFree | libs/tlsf/tlsf.c:711-721 | a free block is cut to size exactly when the rest can be a block, and the rest is listed |
| TlsfAllocator.Tlsf.BlockTrimUsed | libs/tlsf/tlsf.c:724-736 | likewise for a used block, whose rest also merges to the right |
| TlsfAllocator.Tlsf.BlockTrimFreeLeading | libs/tlsf/tlsf.c:738-752 | the front of a free block is cut off and listed exactly when both parts can be blocks |
| TlsfAllocator.Tlsf.BlockPrepareUsed | libs/tlsf/tlsf.c:784-795 | the block becomes used, trimmed to what is granted, and its payload address is returned |
| TlsfAllocator.Tlsf.Malloc | libs/tlsf/tlsf.c:1116-1122 | success and failure decided exactly; the block is a good fit; one allocated block more; no other payload word changes; the heap stays valid |
| TlsfAllocator.Tlsf.Memalign | libs/tlsf/tlsf.c:1124-1179 | the same for every power of two: from which block the pointer is carved out, how far into it, and the size granted; up to 2^62 the result is aligned and the request fits |
| TlsfAllocator.Tlsf.Free | libs/tlsf/tlsf.c:1181-1194 | exactly the freed block disappears; neighbours are merged; no other payload word changes |
| TlsfAllocator.Tlsf.Realloc | libs/tlsf/tlsf.c:1209-1265 | for every size, the heap stays valid exactly unless the size rounds to 0 and the block can be split; then the pointer stays exactly if the block or, with a free neighbour, both together are large enough, and it is null exactly if they are not and no free block would do; a null pointer is a malloc; the first min(old, new) bytes are preserved whether the block grows, shrinks or moves, on failure nothing changes, and no other payload word changes |
| TlsfAllocator.Tlsf.ResizeInPlace | libs/tlsf/tlsf.c:1247-1261 | the in-place branch keeps the heap valid exactly if the rounded size is not 0 or the block is below 32 bytes; the block then has exactly the size that trimming leaves and keeps its bytes; otherwise its size word is left 0 |
| TlsfAllocator.Tlsf.TrimToNothing | libs/tlsf/tlsf.c:648-736 | trimming a block of 32 bytes or more to size 0, merging and listing the remainder included, leaves its size word 0, and the heap is broken |
| TlsfAllocator.LinksOutside | libs/tlsf/tlsf.c:577-624 | the list links of a free block or of the null block lie outside every other block |
| TlsfAllocator.NoHeap | libs/tlsf/tlsf.c:377-380 | memory in which a block reads as an end encodes no heap, whatever its lists and pools, with that block anywhere but at the end of a pool |
| TlsfAllocator.Tlsf.MoveBlock | libs/tlsf/tlsf.c:1236-1246 | the moving branch: a new block that is a good fit, copy, old block freed; or nothing changed, exactly if no free block would do |
| TlsfAllocator.Tlsf.Store | libs/tlsf/tlsf.c:293-333 | a client's write to its own payload keeps the heap valid |
| TlsfRuns.GrantCovers | libs/tlsf/tlsf.c:493-507 | a granted block covers the request exactly when the size is at most 2^64 - 8 |
| TlsfRuns.FailureBound | libs/tlsf/tlsf.c:754-773 | when malloc fails, every free block is smaller than the rounded request plus its 32nd part, or than the request itself below 256 |
| TlsfRuns.ReallocRange | libs/tlsf/tlsf.c:1229-1261 | resizing rounds to at least the size exactly up to 2^32 - 8; it breaks the heap exactly from there up to 2^64 - 8 for a block of 32 bytes or more; beyond, the size rounds to 24 |
| TlsfRuns.ResizeTooFar | libs/tlsf/tlsf.c:1229-1261 | a resize to 2^32 - 7 bytes returns the pointer and breaks the heap of any block of 32 bytes or more |
| TlsfRuns.LargestPoolOutOfRange | libs/tlsf/tlsf.c:981-1028 | a pool of 2^32 bytes would get a class outside the table |
| TlsfRuns.MemalignRange | libs/tlsf/tlsf.c:1124-1143 | memalign asks for enough room exactly for alignments up to 2^62 |
| TlsfRuns.TopAligned | libs/tlsf/tlsf.c:1145-1176 | for 2^63 the pointer is aligned exactly if the block's payload begins there or the block is large enough for the gap |
| TlsfRuns.ServesGained | libs/tlsf/tlsf.c:1116-1179 | after an allocation the heap still holds every word a client stored, and one block more |
| TlsfRuns.ServesLost | libs/tlsf/tlsf.c:1181-1194 | after a free it holds every word stored in the other blocks |
| TlsfRuns.ServesMoved | libs/tlsf/tlsf.c:1209-1265 | after a resize it holds them too, and the resized block's words below the new size at its new address |
| TlsfRuns.Serve | libs/tlsf/tlsf.c:1116-1265 | every request, of any size and any power of two, is answered as by an ideal memory and the heap stays valid, exactly unless it is a resize that breaks the heap; it is refused exactly if the heap has no room for it |
| TlsfRuns.Run | libs/tlsf/tlsf.c:1116-1265 | every run refines a run of an ideal memory up to the first resize that breaks the heap, whose place is returned; a request is refused exactly if the heap at that point has no room for it; once everything is given back, in any order, each pool is one free block |
| EventQueue.DeleteKeeps | efi-wrapper/efi/tables/event.c:14 | removing a node keeps the queue sorted by TPL, in order of arrival among equals, and free of duplicates |
| EventQueue.InsertKeeps | efi-wrapper/efi/tables/event.c:24-31 | so does inserting behind the events of the same TPL or above |
| EventQueue.DeleteFrames | efi-wrapper/efi/tables/event.c:10-16 | a removal never takes away what a suspended dispatch will touch again |
| EventQueue.PushFrame | efi-wrapper/efi/tables/event.c:7-12 | starting a notification puts a strictly higher TPL on the dispatch stack, with its node and the next one in the queue |
| EventQueue.PopFrame | efi-wrapper/efi/tables/event.c:12-16 | when a notification returns, its node and its saved next node are still in the queue |
| EventQueue.Context.RunEventQueue | efi-wrapper/efi/tables/event.c:3-17 | whatever the notifications do: the invariant holds, every node queued at the start above the final TPL has been notified, what is then queued above it joined meanwhile or stayed unsignalled, nodes at or below the TPL stay, and the TPL ends higher only if a notification left it above its own; when they make no call, exactly the events above the TPL are notified, in order, the signalled ones leave the queue, and of the signals exactly those of notified EVT_NOTIFY_SIGNAL events are taken back; when one of them signals a fresh event above the TPL, that is left in the queue exactly if it joins in front of the node the dispatch goes on with |
| EventQueue.Context.Dispatch | efi-wrapper/efi/tables/event.c:6-16 | the event is notified, its signal is taken back if it is of type EVT_NOTIFY_SIGNAL, the next node of the start is the one to go on with and is still queued, and the TPL is the old one again unless the function left it above the event's; exactly what happens, signals included, when the function makes no call, or signals one fresh event |
| EventQueue.Context.Notify | efi-wrapper/efi/tables/event.c:12 | whatever calls the function makes, the queue and the dispatch stack stay sound, and no node leaves the queue without being notified above the event's TPL |
| EventQueue.Context.AddEventQueue | efi-wrapper/efi/tables/event.c:19-33 | when an event joins the queue, where (behind its equals), that it waits there while the TPL is not below its own, and that it waits or has been notified otherwise |
| EventQueue.Context.SignalEvent | efi-wrapper/efi/tables/event.c:157-189 | nothing for a signalled event; otherwise it, or its whole group, is signalled unless notified since, and waits in the queue or has been notified, and waits if it is not above the TPL |
| EventQueue.Context.TargetMeans | efi-wrapper/efi/tables/event.c:168-187 | which events a signal is for: a whole group, or the event alone |
| EventQueue.SignalTwice | efi-wrapper/efi/tables/event.c:15-17 | signalled twice above the TPL, a fresh EVT_NOTIFY_SIGNAL event is notified twice, any other once |
| EventQueue.Context.RaiseTpl | efi-wrapper/efi/tables/event.c:307-322 | the TPL becomes the request, at most 31; the old one is returned |
| EventQueue.ClampMeans | efi-wrapper/efi/tables/event.c:307-322 | a TPL is cut off at 31 |
| EventQueue.Context.RestoreTpl | efi-wrapper/efi/tables/event.c:324-340 | every node that waited above the final TPL has been notified, whatever the notifications do, and what is queued above it joined meanwhile or stayed unsignalled; the TPL becomes the request unless a notification left it above its own; when they make no call, exactly what waits above it is notified, in order, and exactly the signals of the EVT_NOTIFY_SIGNAL events among them are taken back; which fresh event signalled by one of them is left, exactly |
| EventQueue.LateJoiner | efi-wrapper/efi/tables/event.c:3-17 | an event at TPL 8 that joins while the last node is notified is still queued when the TPL is back at 4 |
| EventQueue.Overtaken | efi-wrapper/efi/tables/event.c:3-33 | an event at TPL 16 that joins behind the node being notified, in front of one at TPL 8, is still queued when the TPL is back at 4 |
| EventQueue.PendingStart | efi-wrapper/efi/tables/event.c:7-12 | where a new node stands relative to the saved next node decides whether the dispatch passes it or comes to it |
| EventQueue.PendingStep | efi-wrapper/efi/tables/event.c:6-16 | a node that is passed is never come to later, and one that is not is notified and leaves the queue |
| EventQueue.ComeNext | efi-wrapper/efi/tables/event.c:6-16 | a dispatch that goes on with the node saved before the notification leaves out no node of the start, and leaves behind it only newcomers and nodes that stayed unsignalled |
| ServiceStart.ReadyMonotone | efi-wrapper/efi/service.c:113-123 | an instance that may start still may when more instances have been tried |
| ServiceStart.StartedMeans | efi-wrapper/efi/service.c:74-111 | a GUID counts as started exactly if a valid started instance has it or offers it, and as tried exactly if one that is not stopped does |
| ServiceStart.OfferedIsEnough | efi-wrapper/efi/service.c:113-123 | an instance whose dependencies a started instance merely offers may start |
| ServiceStart.StepClosed | efi-wrapper/efi/service.c:113-163 | a start keeps the set of started instances closed under dependencies |
| ServiceStart.StartStep | efi-wrapper/efi/service.c:182-196 | starting by the rule keeps the tried set inside every closed set |
| ServiceStart.OrderIrrelevant | efi-wrapper/efi/service.c:279-293 | the least fixed point, and so the final statuses, do not depend on the order of the list |
| ServiceStart.VisitTracked | efi-wrapper/efi/service.c:182-196 | an instance without condition is started exactly if the rule says so and it was not started yet, or failed and is repeated |
| ServiceStart.VisitWaits | efi-wrapper/efi/service.c:182-196 | an instance that waits and fails whenever started goes on waiting, whatever else is visited |
| ServiceStart.EndsExactly | efi-wrapper/efi/service.c:279-293 | the loop ends exactly if no instance of the least fixed point fails and is repeated |
| ServiceStart.OrderMatters | efi-wrapper/efi/service.c:279-293 | with a failed condition the same services end differently for two orders of the list |
| ServiceStart.RunContext.RunInstanceCondition | efi-wrapper/efi/service.c:125-142 | when the condition is asked, and what status and answer follow from what it says |
| ServiceStart.RunContext.RunInstanceStart | efi-wrapper/efi/service.c:144-163 | exactly when a start begins, what it records, and what status and answer it leaves |
| ServiceStart.RunContext.CanInstanceStart | efi-wrapper/efi/service.c:182-196 | the exact answer and the status left, with or without condition and restart; a yes means enabled and dependencies done in the state the start will see |
| ServiceStart.RunContext.Round | efi-wrapper/efi/service.c:280-292 | a round that starts nothing leaves nothing startable; one with an instance that waits and always fails starts something; for fixed answers it is the composition of the visits |
| ServiceStart.RunContext.AutoStart | efi-wrapper/efi/service.c:269-296 | every start happened with dependencies started and predecessors tried; started is never lost; without conditions it reaches the least fixed point, and ends exactly if no failing start is repeated there, then after one start per instance; it never ends if an instance that could be started fails every time and is repeated |
| ProtocolOpen.RemainsKeeps | efi-wrapper/efi/tables/protocol.c:386-388 | removing entries keeps single ownership, distinctness and positive counts |
| ProtocolOpen.ArgumentsMean | efi-wrapper/efi/tables/protocol.c:263-292 | which arguments are accepted, attribute by attribute |
| ProtocolOpen.BlockedMeans | efi-wrapper/efi/tables/protocol.c:302-315 | which listed opens stand in the way of an open, attribute by attribute; none does for a plain one |
| ProtocolOpen.AlreadyMeans | efi-wrapper/efi/tables/protocol.c:302-310 | an open is already there exactly if it is for a driver and the agent has one with the same attributes |
| ProtocolOpen.OpensRecorded | efi-wrapper/efi/tables/protocol.c:328-350 | recording an open counts one more of the same agent, controller and attributes, and no other |
| ProtocolOpen.OpensClosed | efi-wrapper/efi/tables/protocol.c:379-390 | after a close that agent has nothing open for that controller, and every other open is counted as before |
| ProtocolOpen.NoOwnerLeft | efi-wrapper/efi/tables/protocol.c:302-327 | an open that would own the interface and passes the checks finds no owner |
| ProtocolOpen.RecordKeeps | efi-wrapper/efi/tables/protocol.c:328-350 | counting such an open keeps single ownership and distinctness |
| ProtocolOpen.WithoutRemains | efi-wrapper/efi/tables/protocol.c:379-390 | closing removes exactly the entries of that agent and controller |
| ProtocolOpen.InterfaceEntry.DisconnectDrivers | efi-wrapper/efi/tables/protocol.c:316-327 | the disconnect loop terminates, reports busy exactly if one of its Stop calls refused, and otherwise leaves no driver |
| ProtocolOpen.InterfaceEntry.Open | efi-wrapper/efi/tables/protocol.c:245-354 | exactly when each result is returned, among them the denials attribute by attribute, also after a refused Stop, and the lack of memory, and the new list, with exactly when a successful open is recorded; at most one owner, no duplicates; nothing is stopped but for an exclusive open that passed the checks before |
| ProtocolOpen.InterfaceEntry.TwoDrivers | efi-wrapper/efi/tables/protocol.c:328-350 | without memory for the list nodes two agents both get the interface as its driver |
| ProtocolOpen.InterfaceEntry.Close | efi-wrapper/efi/tables/protocol.c:356-392 | when each result is returned, and the new list |
| ProtocolOpen.InterfaceEntry.RemoveOpens | efi-wrapper/efi/tables/protocol.c:379-390 | the removal loop computes the list without those entries |
| ProtocolOpen.InterfaceEntry.Run | efi-wrapper/efi/tables/protocol.c:245-392 | after any sequence of opens and closes at most one entry owns and no two are for the same open |
| Crc32.TableRight | lib/general/crc32.c:4-37 | every table entry is eight bit steps with polynomial 0xEDB88320 |
| Crc32.TableStepRight | lib/general/crc32.c:42-43 | one table step is the byte-at-a-time step of the bitwise definition |
| Crc32.SCrc32 | lib/general/crc32.c:39-45 | the loop computes the bitwise CRC-32 of any buffer |
| Crc32.CheckValue | lib/general/crc32.c:39-45 | the checksum of the digits 1 to 9 is 0xCBF43926, the check value of CRC-32, and that of nothing is 0 |
| Crc32.RegisterInjective | lib/general/crc32.c:39-45 | different register values stay different over any common rest |
| Crc32.BurstDetected | lib/general/crc32.c:39-45 | buffers of equal length that differ only within four consecutive bytes have different checksums |
| ListSort.First | lib/general/list.c:172-183 | from any node it reaches the first |
| ListSort.SwapNeighbor | lib/general/list.c:103-111 | the list stays doubly linked with exactly the two nodes exchanged |
| ListSort.InversionsSwap | lib/general/list.c:332-349 | swapping an out-of-order pair lowers the number of inversions by one |
| ListSort.SwapStable | lib/general/list.c:340-344 | a swap keeps the order of nodes the sorter does not object to |
| ListSort.Pass | lib/general/list.c:338-347 | a pass lowers the inversions or finds no adjacent out-of-order pair |
| ListSort.Sort | lib/general/list.c:332-349 | it terminates for every asymmetric sorter with a stable permutation without adjacent out-of-order pair |
| ListSort.Sorted | lib/general/list.c:332-349 | without adjacent out-of-order pair the list is sorted, if the sorter's negation is transitive |
| PathResolve.NormalComponents | lib/general/path.c:11-41 | the normal form has no empty, `.` or `..` component but possibly the last of the input |
| PathResolve.Idempotent | lib/general/path.c:11-41 | normalising twice is normalising once |
| PathResolve.SplitRender | lib/general/path.c:11-41 | splitting undoes joining components by separators |
| PathResolve.ParentLaw | lib/general/path.c:27-33 | `..` takes away the component in front of it: the path with both is resolved like the path without them, wherever they stand |
| PathResolve.SkipLaw | lib/general/path.c:17-26 | an empty component or `.` makes no difference anywhere |
| PathResolve.RootLaw | lib/general/path.c:27-35 | nor does `..` in front of everything |
| PathResolve.CleanLaw | lib/general/path.c:11-41 | a path without such components in front of a separator is its own normal form, with `/` for every separator: nothing is dropped |
| PathResolve.NormalClean | lib/general/path.c:11-41 | every normal form is of that kind and has `/` only |
| PathResolve.LastMeans | lib/general/path.c:11-41 | the last component, on which reading past the end depends, is what follows the last separator |
| PathResolve.PopComponent | lib/general/path.c:27-33 | backing up in the output buffer removes exactly the last component, so that the buffer holds the rest of the stack |
| PathResolve.Resolve | lib/general/path.c:11-41 | the output is the normal form the laws above determine; reading passes the end exactly for a last component `.` or `..` |
| DevicePath.NodesExact | lib/efi/device_path.c:59-76 | reading inverts writing: memory reads as a list of nodes exactly if it spells their bytes |
| DevicePath.KnownPaths | lib/efi/device_path.c:59-76 | what known bytes read as: the empty path, a wrong end node, and every node of six bytes, of which only a file path must end in a zero char16 |
| DevicePath.Valid | lib/efi/device_path.c:59-76 | true exactly for a well-formed path of at most the given size; with a limit, nothing beyond it is read, whatever the bytes |
| DevicePath.GetSize | lib/efi/device_path.c:83-89 | the byte size of a well-formed path, 0 otherwise |
| DevicePath.Dup | lib/efi/device_path.c:99-102 | a fresh copy exactly of a well-formed path |
| DevicePath.Append | lib/efi/device_path.c:104-122 | the concatenated node list in fresh memory of exactly its size; null pointers stand for the empty path |
| DevicePath.NodeAppend | lib/efi/device_path.c:124-140 | the path with the node at its end; what an end node or a malformed node does |
| DevicePath.AppendBothWays | lib/efi/device_path.c:104-122 | appending is associative byte for byte, with size s1 + s2 + s3 - 8 |
| DevicePath.InstanceAppend | lib/efi/device_path.c:142-161 | the two node lists with an end-instance node between them |
| DevicePath.CutAt | lib/efi/device_path.c:174-180 | closing memory at the end of the first instance gives a valid path exactly when that end node has no body |
| DevicePath.InstanceNext | lib/efi/device_path.c:163-182 | a copy of the first instance and its size, the cursor on what follows or null, the memory unchanged |
| DevicePath.InstancesJoin | lib/efi/device_path.c:142-161 | instances of a joined path are those of the first, then those of the second |
| DevicePath.SplitJoined | lib/efi/device_path.c:142-182 | splitting undoes joining for any number of instances |
| DevicePath.AllInstances | lib/efi/device_path.c:163-182 | iterating yields every instance in order and ends with a null cursor |
| DevicePath.JoinAndSplit | lib/efi/device_path.c:142-182 | iterating over an appended path yields the instances of both |
| PoolArithmetic.RoundUpBounds | lib/mem.c:198-201 | rounding up stays within one alignment for every alignment, or wraps to something smaller |
| PoolArithmetic.AlignedFits | lib/mem.c:197-203 | when no sum wraps, descriptor, aligned buffer and footer fit the raw allocation, wherever it lies, and not more than the size, four times the alignment and 88 is asked for |
| PoolArithmetic.BufferAligned | lib/mem.c:201-202 | for a power of two the buffer is aligned |
| PoolArithmetic.PlainFits | lib/mem.c:118-143 | descriptor, buffer and footer fit what is asked for, or it is nothing, exactly for sizes up to 2^64 - 88 |
| PoolArithmetic.LargestRequest | lib/mem.c:124-128 | for 2^64 - 1 bytes 87 are asked for and the footer begins on the last byte of the descriptor |
| PoolArithmetic.WrappedMisses | lib/mem.c:199-203 | when a sum wraps, the rounded size is below the request or the footer does not fit, wherever the raw memory lies |
| PoolArithmetic.AlignedExact | lib/mem.c:199-203 | an aligned request that asks for anything is served soundly at every place exactly when no sum wraps |
| PoolArithmetic.AlignmentStored | lib/mem.c:206-209 | a power of two from 8 on survives in 16 bits, and so does every offset it can lead to, exactly when it is at most 2^16 - 80 |
| PoolArithmetic.LostAlignment | lib/mem.c:201-209 | for 2^16, a place where only the alignment is lost and one where the offset is cut off |
| Bytes.ValueLe | include/mem.h:45-56 | little-endian bytes read back as the number they were written from |
| Bytes.SpellKnown | include/mem.h:45-56 | the low byte comes first |
| MemHeader.HeaderLayout | include/mem.h:45-56 | the 80 bytes of a descriptor hold each field, little-endian, at its offset |
| MemHeader.HeaderInjective | include/mem.h:45-56 | different descriptors have different bytes |
| MemHeader.DamageFound | lib/mem.c:48-69 | a header damaged within four consecutive bytes outside its stored checksum, within or across fields, never passes the checksum test |
| MemHeader.FieldDamageFound | lib/mem.c:48-69 | so does none in which one field other than the checksum has been changed in at most four consecutive bytes |
| MemHeader.SizeOverwritten | lib/mem.c:53-55 | as when a size of 16 has become 24 |
| MemPool.ImageLayout | lib/mem.c:128-141 | what stands in memory for a block of a pool, field by field |
| MemPool.AppendRepresents | lib/mem.c:138-141 | after an allocation every descriptor, links and checksums included, is what it must be |
| MemPool.RemoveRepresents | lib/mem.c:236-239 | likewise after a free |
| MemPool.MoveRepresents | lib/mem.c:160-185 | likewise after a block moved |
| MemPool.RealFits | lib/mem.c:135 | the sum of the raw sizes of disjoint blocks never wraps |
| MemPool.Pool.Search | lib/general/list.c:351-358 | the search finds a descriptor exactly if it is in the list |
| MemPool.Pool.ListAdd | lib/general/list.c:254-259 | the new node is last, everything else as before |
| MemPool.Pool.Strip | lib/general/list.c:298-309 | the node is out, its neighbours linked to each other, the head right |
| MemPool.Pool.CheckBuffer | lib/mem.c:48-69 | accepts exactly a header with the magic, the checksum of its bytes, its own address, buffer, pool and offset, and sizes within the pool's; it changes nothing it accepts |
| MemPool.Pool.DamageRefused | lib/mem.c:48-69 | a sealed header in which one field was then changed in at most four consecutive bytes is refused |
| MemPool.Pool.LiveHeader | lib/mem.c:48-69 | a live header passes the check exactly when its offset fits 16 bits and the sizes' sum has not wrapped below its own |
| MemPool.Pool.SoundHeader | lib/mem.c:48-69 | in a sound pool every live header passes the check |
| MemPool.Pool.Allocate | lib/mem.c:118-143 | every outcome for every size: one block more at the end of the list, with counters, links, checksums and footer right, or a refusal, or a descriptor that does not fit; the pool stays sound exactly if the sum does not wrap |
| MemPool.Pool.AlignedAllocate | lib/mem.c:191-222 | the same for every alignment and size; the pool stays sound exactly if the offset is below 2^16 and the alignment no multiple of it, which for powers of two from 8 on means an alignment up to 2^16 - 80 |
| MemPool.Pool.Free | lib/mem.c:224-247 | it aborts exactly on a cut-off offset, a wrapped sum of sizes or a broken footer, in a sound pool on a broken footer only; otherwise one block less, everything right |
| MemPool.Pool.FreeLargest | lib/mem.c:118-143 | freeing the untouched buffer of a request for 2^64 - 1 bytes aborts |
| MemPool.Pool.Reallocate | lib/mem.c:145-189 | every outcome for every size and every live block; the block is replaced in its place; a sound pool stays sound exactly if the sum does not wrap and the first block does not move |
| MemPool.Pool.Serve | lib/mem.c:113-247 | one request of any size keeps count, sizes, links, checksums and footers, or is a resize the platform refuses, or has a sum that wraps, an alignment above 2^16 - 80, or moves the first block |
| MemPool.Pool.Run | lib/mem.c:113-247 | so does every run, up to the first request that is refused or harmful, whose place is returned; an emptied pool holds nothing and has given everything back |

## Left out

- TlsfAllocator.Tlsf.AddPool: requires a pool size different from 2^32, which has no size class, and a start above 8, so that no block has address 0; it writes the sentinel before the free block enters its list where the code does it after; the words are distinct.
- TlsfAllocator.Tlsf.TrimToNothing: of the broken heap only the block's size word is described.
- TlsfAllocator.Tlsf.Memalign: requires a power of two; other alignments trip the assertion of align_up.
- TlsfAllocator.Tlsf.Check: proves that the checks pass on valid heaps, not that they catch every damaged one.
- Memory of the TLSF model is a map of 8-byte words, and the tables are sequences; bytes inside a word and the layout of the control structure are not modelled.
- tlsf_create, tlsf_destroy, the walkers' callbacks and the size queries: they only wrap what is modelled.
- EventQueue.Context.Notify: notification functions are arbitrary sequences of signal, raise and restore calls; requests below the notification's own TPL are passed over, since UEFI forbids them.
- EventQueue.Context.RestoreTpl: timers and the wall clock are not part of the model, so the timer scan is left out.
- Creating, closing, checking and waiting for events: they return early or only register the event.
- EventQueue.Context.SignalEvent: the queue is a sequence of nodes with identities rather than linked cells; links of a sorted list are modelled in ListSort and MemPool.
- ServiceStart.RunContext.AutoStart: takes a bound on the rounds, because the loop need not end; the result says whether it ended within the bound.
- Conditions and start functions are oracles that may answer differently at every call but do not change other services.
- efi_service_auto_stop, service installation and logging.
- ProtocolOpen.InterfaceEntry.DisconnectDrivers: the driver's Stop is an oracle that on success closes that driver's opens and opens nothing, and on failure changes nothing; the open list is a sequence.
- ProtocolOpen.InterfaceEntry.Open: handle and protocol lookup are parameters; the interface pointer written back is not modelled.
- Installing and uninstalling protocols, and locating handles.
- PathResolve.Resolve: separator '/' and an output buffer longer than the path; other separators and short buffers are not covered.
- DevicePath.NodeAppend: requires a node length of at least 4; a shorter one makes the code read memory it never wrote.
- DevicePath.Valid: without a limit it requires that the walk ends inside memory, which the code takes for granted.
- Conversion of device paths to and from text, and lookup of a handle's path.
- MemPool.Pool.Allocate: where stores would go past the raw memory the outcome says so and the model ends; what those stores hit is not modelled.
- MemPool.Pool.Reallocate: the payload copied by the platform's realloc is not modelled.
- PoolArithmetic.AlignedExact: alignments above a third of 2^64 other than 2^63 are not covered, and a request whose sum comes to 0 is refused.
- MemPool: the magic of the pool object itself is taken as intact; the platform's allocator is modelled as handing out any free region.
- MemPool.Pool.Free: of pointers that are not live.
- Loading of images, page tables, crash dumps, graphics, networking, file systems and the instruction emulation: calls into other systems.
