// What the allocator guarantees its clients, call by call and over whole runs.
module TlsfRuns {
  import opened Bits
  import opened SizeClass
  import opened Alignment
  import opened Options
  import opened TlsfHeap
  import opened TlsfLists
  import opened TlsfMemory
  import opened TlsfPools
  import opened TlsfAllocator

  // A granted block covers the request exactly when rounding the request up to a
  // multiple of 8 does not wrap around: tlsf_malloc(2^64 - 1) hands out 24 bytes.
  lemma GrantCovers(size: nat, block: nat)
    requires size < SIZE_T
    requires var adjust := AdjustRequestSize(size, ALIGN_SIZE); adjust != 0 && adjust <= block
    ensures size <= Granted(block, AdjustRequestSize(size, ALIGN_SIZE)) <==> size <= SIZE_T - 8
    ensures AdjustRequestSize(SIZE_T - 1, ALIGN_SIZE) == BLOCK_SIZE_MIN
  {
    AdjustBounds(size);
  }

  // When tlsf_malloc fails, no free block exceeds the adjusted request by a 32nd
  // part, and for small requests none even reaches it.
  lemma FailureBound(hdr: Headers, size: nat, a: nat)
    requires size < SIZE_T && a in hdr && hdr[a].free
    requires NoFit(hdr, AdjustRequestSize(size, ALIGN_SIZE))
    ensures var adjust := AdjustRequestSize(size, ALIGN_SIZE);
      && (adjust < SMALL_BLOCK_SIZE ==> hdr[a].size < adjust)
      && (adjust >= SMALL_BLOCK_SIZE ==>
            hdr[a].size < adjust + Slack(adjust) && hdr[a].size < adjust + adjust / 32)
  {
    hide MappingInsert, MappingSearch, AdjustRequestSize;
    AdjustBounds(size);
    SearchTight(AdjustRequestSize(size, ALIGN_SIZE), hdr[a].size);
  }

  // tlsf_realloc rounds a size to at least itself exactly up to 2^32 - 8.  Above, up to 2^64 - 8, the
  // rounded size is 0, and the heap breaks exactly if the block can be split; beyond, it is 24, and the
  // block shrinks in a valid heap.
  lemma ReallocRange(used: map<nat, nat>, p: nat, size: nat)
    requires 0 < size < SIZE_T && p >= 16 && p - 16 in used
    ensures size <= AdjustRequestSize(size, ALIGN_SIZE) <==> size <= BLOCK_SIZE_MAX - ALIGN_SIZE
    ensures Breaks(used, Some(p), size) <==>
      (BLOCK_SIZE_MAX - ALIGN_SIZE < size <= SIZE_T - ALIGN_SIZE && used[p - 16] >= HEADER_SIZE)
    ensures size > SIZE_T - ALIGN_SIZE ==> AdjustRequestSize(size, ALIGN_SIZE) == BLOCK_SIZE_MIN
  {
    AdjustBounds(size);
  }

  // The least size that breaks the heap: any block of 32 bytes or more is left with a size word of 0, which
  // only the end of a pool may have.
  method ResizeTooFar(heap: Tlsf, ptr: nat) returns (p: Option<nat>)
    requires heap.Valid() && ptr >= 16 && ptr - 16 in Used(heap.hdr) && heap.hdr[ptr - 16].size >= HEADER_SIZE
    modifies heap
    ensures p == Some(ptr) && ReadsAsEnd(heap.mem, ptr - 16) && !heap.Valid()
  {
    ReallocRange(Used(heap.hdr), ptr, BLOCK_SIZE_MAX - ALIGN_SIZE + 1);
    ghost var granted;
    p, granted := heap.Realloc(Some(ptr), BLOCK_SIZE_MAX - ALIGN_SIZE + 1);
  }

  // A pool of exactly 2^32 bytes is accepted by the range test of tlsf_add_pool, but
  // its class is outside the table.
  lemma LargestPoolOutOfRange()
    ensures MappingInsert(BLOCK_SIZE_MAX).fl == FL_INDEX_COUNT
  {
    hide Pow2, Shr, Fls;
    PowersOfTwo();
    InsertLarge(BLOCK_SIZE_MAX, 32);
  }

  // tlsf_memalign looks for room for the gap exactly for alignments below 2^63; for
  // 2^63 the sum wraps around and it looks for the smallest block.
  lemma MemalignRange(k: nat, size: nat)
    requires k <= 63 && Pow2(k) > ALIGN_SIZE && size < SIZE_T
    requires AdjustRequestSize(size, ALIGN_SIZE) != 0
    ensures var need := MemalignNeed(Pow2(k), size);
      (need == 0 || need >= AdjustRequestSize(size, ALIGN_SIZE) + Pow2(k)) <==> k <= 62
    ensures k == 63 ==> MemalignNeed(Pow2(k), size) == BLOCK_SIZE_MIN
  {
    hide AlignUp, Pow2;
    var adjust := AdjustRequestSize(size, ALIGN_SIZE);
    AdjustBounds(size);
    if k <= 62 {
      assert UsableAlign(Pow2(k));
      AlignBig(Pow2(k));
      SmallMod(adjust + Pow2(k) + HEADER_SIZE);
      if MemalignNeed(Pow2(k), size) != 0 {
        RoomIsEnough(Pow2(k), adjust);
      }
    } else {
      TopPower();
      TopNeed(size);
    }
  }

  // For 2^63 the pointer is aligned exactly if the block begins there, or is large enough for the gap.
  lemma TopAligned(from: nat, size: nat)
    requires from % 8 == 0 && BLOCK_SIZE_MIN <= size && from + 16 + size <= SIZE_T
    ensures var ptr := from + 16;
      (ptr + Lead(ptr, TOP_ALIGN, size)) % TOP_ALIGN == 0 <==>
        ptr == TOP_ALIGN || Gap(ptr, TOP_ALIGN) + HEADER_SIZE <= size
  {
    hide Gap;
    TopGap(from + 16, size);
  }

  // ---- Whole runs ----

  // A client's request; k selects one of the pointers it holds.
  datatype Request =
    | DoMalloc(size: nat)
    | DoMemalign(log: nat, size: nat)
    | DoFree(k: nat)
    | DoRealloc(k: nat, size: nat)
    | DoStore(k: nat, index: nat, value: nat)

  // Sizes and alignments that a size_t can hold.
  predicate InSizeT(r: Request) {
    match r
    case DoMalloc(size) => size < SIZE_T
    case DoMemalign(log, size) => log <= 63 && size < SIZE_T
    case DoRealloc(_, size) => size < SIZE_T
    case _ => true
  }

  // The resizes that break the heap: the size rounds to 0, and the block can be split.
  predicate Fatal(c: Client, r: Request) {
    && r.DoRealloc? && r.k < |c.held| && c.held[r.k] in c.contents
    && BLOCK_SIZE_MAX - ALIGN_SIZE < r.size <= SIZE_T - ALIGN_SIZE
    && c.contents[c.held[r.k]].size >= HEADER_SIZE
  }

  // The pointers held are exactly the allocated blocks, each once.
  ghost predicate Holds(held: seq<nat>, used: map<nat, nat>) {
    && (forall p {:trigger p in held} :: p in held <==> p >= 16 && p - 16 in used)
    && (forall i, j :: 0 <= i < j < |held| ==> held[i] != held[j])
  }

  lemma HoldsAdd(held: seq<nat>, used: map<nat, nat>, p: nat, size: nat)
    requires Holds(held, used) && p >= 16 && p - 16 !in used
    ensures Holds(held + [p], used[p - 16 := size])
  {
    assert p !in held;
    forall q
      ensures q in held + [p] <==> q >= 16 && q - 16 in used[p - 16 := size]
    {
      assert q in held + [p] <==> q in held || q == p;
    }
  }

  lemma HoldsRemove(held: seq<nat>, used: map<nat, nat>, k: nat)
    requires Holds(held, used) && k < |held|
    ensures held[k] >= 16 && held[k] - 16 in used
    ensures Holds(held[..k] + held[k + 1..], used - {held[k] - 16})
  {
    var rest := held[..k] + held[k + 1..];
    assert held[k] in held;
    forall q
      ensures q in rest <==> q >= 16 && q - 16 in used - {held[k] - 16}
    {
      assert held == held[..k] + [held[k]] + held[k + 1..];
      assert q in held <==> q in rest || q == held[k];
      assert held[k] !in rest;
    }
  }

  // ---- The client's memory ----

  // What a client knows: the pointers it holds, and for each the size of the block and the words it has
  // stored there, by offset.
  datatype Words = Words(size: nat, at: map<nat, nat>)

  type Contents = map<nat, Words>

  datatype Client = Client(held: seq<nat>, contents: Contents)

  // The words before an offset, in a block of another size.
  function Cut(w: Words, bytes: nat, size: nat): Words {
    Words(size, map o | o in w.at && o < bytes && o < size :: w.at[o])
  }

  function Put(w: Words, o: nat, value: nat): Words {
    var at: map<nat, nat> := w.at[o := value];
    Words(w.size, at)
  }

  function Without(held: seq<nat>, k: nat): (left: seq<nat>)
    requires k < |held|
    ensures |left| == |held| - 1
  {
    held[..k] + held[k + 1..]
  }

  // How an ideal memory answers a request: a new block has no contents yet, a freed one is gone, a
  // resized one keeps its words up to the new size, and nothing else ever changes. Blocks cover what was
  // asked for unless the size, or for alignment 2^63 the room, was computed too small. A request is refused
  // exactly if the heap it finds has no room for it.
  ghost predicate Answers(hdr: Headers, a: Client, r: Request, b: Client) {
    match r
    case DoMalloc(size) =>
      if NoRoom(hdr, AdjustRequestSize(size, ALIGN_SIZE)) then b == a else Gained(a, size, b)
    case DoMemalign(log, size) =>
      if NoRoom(hdr, MemalignNeed(Pow2(log), size)) then b == a
      else Gained(a, if log <= 62 then size else 0, b) && (log <= 62 ==> Multiple(b.held[|a.held|], Pow2(log)))
    case DoFree(k) => if k < |a.held| then Lost(a, k, b) else b == a
    case DoRealloc(k, size) =>
      if k >= |a.held| then b == a
      else if size == 0 then Lost(a, k, b)
      else
        var adjust := AdjustRequestSize(size, ALIGN_SIZE);
        if Stays(hdr, a.held[k], adjust) then Moved(a, k, size, b) && b.held[|a.held| - 1] == a.held[k]
        else if NoFit(hdr, adjust) then b == a
        else Moved(a, k, size, b) && b.held[|a.held| - 1] != a.held[k]
    case DoStore(k, index, value) =>
      if k >= |a.held| then b == a
      else
        && a.held[k] in a.contents
        && var w := a.contents[a.held[k]];
          b == if 8 * index < w.size then Client(a.held, a.contents[a.held[k] := Put(w, 8 * index, value)]) else a
  }

  ghost predicate NoRoom(hdr: Headers, need: nat) {
    need == 0 || NoFit(hdr, need)
  }

  // A block that is large enough for a resize, by itself or together with a free block behind it.
  predicate Stays(hdr: Headers, p: nat, adjust: nat) {
    && p >= 16 && p - 16 in hdr && Next(hdr, p - 16) in hdr
    && var cursize, next := hdr[p - 16].size, hdr[Next(hdr, p - 16)];
      adjust <= cursize || (next.free && adjust <= cursize + 8 + next.size)
  }

  // One pointer more, to a block that covers the request unless rounding that up wraps around.
  predicate Gained(a: Client, size: nat, b: Client) {
    && |b.held| == |a.held| + 1 && b.held[..|a.held|] == a.held
    && var p := b.held[|a.held|];
      && p !in a.contents && p in b.contents && (size <= SIZE_T - 8 ==> b.contents[p].size >= size)
      && b.contents == a.contents[p := Words(b.contents[p].size, map[])]
  }

  function Grown(c: Client, p: nat, size: nat): (d: Client)
    ensures d.held == c.held + [p]
  {
    Client(c.held + [p], c.contents[p := Words(size, map[])])
  }

  predicate Lost(a: Client, k: nat, b: Client)
    requires k < |a.held|
  {
    b == Client(Without(a.held, k), a.contents - {a.held[k]})
  }

  predicate Moved(a: Client, k: nat, size: nat, b: Client)
    requires k < |a.held|
  {
    && |b.held| == |a.held| && b.held[..|a.held| - 1] == Without(a.held, k) && a.held[k] in a.contents
    && var q := b.held[|a.held| - 1];
      && (q == a.held[k] || q !in a.contents) && q in b.contents
      && (size <= BLOCK_SIZE_MAX - ALIGN_SIZE ==> b.contents[q].size >= size)
      && b.contents == (a.contents - {a.held[k]})[q := Cut(a.contents[a.held[k]], size, b.contents[q].size)]
  }

  // The words stored behind one pointer are in memory.
  ghost predicate HoldsAt(w: Words, p: nat, mem: Memory, used: map<nat, nat>) {
    && p >= 16 && p - 16 in used && used[p - 16] == w.size
    && forall o :: o in w.at ==> o % 8 == 0 && o < w.size && p + o in mem && mem[p + o] == w.at[o]
  }

  // The heap is a faithful store for a client.
  ghost predicate Serves(mem: Memory, used: map<nat, nat>, c: Client) {
    && Holds(c.held, used)
    && (forall p :: p in c.contents <==> p in c.held)
    && (forall p :: p in c.contents ==> HoldsAt(c.contents[p], p, mem, used))
  }

  // Words of a block that a call does not touch are still there after it.
  lemma StillThere(w: Words, p: nat, m0: Memory, h0: Headers, m1: Memory, h1: Headers, but: set<nat>)
    requires HoldsAt(w, p, m0, Used(h0)) && PayloadsKept(m0, m1, h0, but) && p - 16 !in but
    requires p - 16 in Used(h1) && Used(h1)[p - 16] == Used(h0)[p - 16]
    ensures HoldsAt(w, p, m1, Used(h1))
  {
    forall o | o in w.at
      ensures p + o in m1 && m1[p + o] == w.at[o]
    {
      assert Payload(h0, p - 16, p + o);
    }
  }

  lemma ServesGained(m0: Memory, h0: Headers, m1: Memory, h1: Headers, c: Client,
                     asked: nat, p: nat, size: nat)
    requires Serves(m0, Used(h0), c) && PayloadsKept(m0, m1, h0, {})
    requires p >= 16 && p - 16 !in Used(h0) && Used(h1) == Used(h0)[p - 16 := size]
    requires asked <= SIZE_T - 8 ==> size >= asked
    ensures var d := Grown(c, p, size);
      Serves(m1, Used(h1), d) && Gained(c, asked, d)
  {
    var d := Client(c.held + [p], c.contents[p := Words(size, map[])]);
    HoldsAdd(c.held, Used(h0), p, size);
    assert p !in c.held;
    forall q | q in d.contents
      ensures HoldsAt(d.contents[q], q, m1, Used(h1))
    {
      if q != p {
        StillThere(c.contents[q], q, m0, h0, m1, h1, {});
      }
    }
  }

  lemma ServesLost(m0: Memory, h0: Headers, m1: Memory, h1: Headers, c: Client, k: nat)
    requires Serves(m0, Used(h0), c) && k < |c.held| && c.held[k] >= 16
    requires PayloadsKept(m0, m1, h0, {c.held[k] - 16}) && Used(h1) == Used(h0) - {c.held[k] - 16}
    ensures Serves(m1, Used(h1), Client(Without(c.held, k), c.contents - {c.held[k]}))
  {
    var p := c.held[k];
    HoldsRemove(c.held, Used(h0), k);
    WithoutMembers(c.held, Used(h0), k);
    OthersRest(m0, h0, m1, h1, c, p);
    hide Used, Without, Holds, HoldsAt, PayloadsKept;
    LostKeys(c.contents, c.held, Without(c.held, k), p);
  }

  lemma OthersRest(m0: Memory, h0: Headers, m1: Memory, h1: Headers, c: Client, p: nat)
    requires Serves(m0, Used(h0), c) && p >= 16 && PayloadsKept(m0, m1, h0, {p - 16})
    requires Used(h1) == Used(h0) - {p - 16}
    ensures forall r :: r in c.contents && r != p ==> HoldsAt(c.contents[r], r, m1, Used(h1))
  {
    hide PayloadsKept;
    forall r | r in c.contents && r != p
      ensures HoldsAt(c.contents[r], r, m1, Used(h1))
    {
      assert HoldsAt(c.contents[r], r, m0, Used(h0));
      StillThere(c.contents[r], r, m0, h0, m1, h1, {p - 16});
    }
  }

  lemma LostKeys(contents: map<nat, Words>, held: seq<nat>, rest: seq<nat>, p: nat)
    requires forall r :: r in contents <==> r in held
    requires forall r :: r in rest <==> r in held && r != p
    ensures forall r :: r in contents - {p} <==> r in rest
    ensures forall r :: r in contents - {p} ==> r in contents && r != p && (contents - {p})[r] == contents[r]
  {
  }

  lemma WithoutMembers(held: seq<nat>, used: map<nat, nat>, k: nat)
    requires Holds(held, used) && k < |held|
    ensures forall q :: q in Without(held, k) <==> q in held && q != held[k]
  {
    assert held == held[..k] + [held[k]] + held[k + 1..];
  }

  lemma MovedWords(w: Words, p: nat, q: nat, m0: Memory, u0: map<nat, nat>, m1: Memory, u1: map<nat, nat>, size: nat)
    requires HoldsAt(w, p, m0, u0) && q >= 16 && q - 16 in u1
    requires SameContents(m0, p, m1, q, if u0[p - 16] < u1[q - 16] then u0[p - 16] else u1[q - 16])
    ensures HoldsAt(Cut(w, size, u1[q - 16]), q, m1, u1)
  {
  }

  // The blocks a resize does not concern.
  lemma OthersStay(m0: Memory, h0: Headers, m1: Memory, h1: Headers, c: Client, p: nat, q: nat, granted: nat)
    requires Serves(m0, Used(h0), c) && p >= 16 && PayloadsKept(m0, m1, h0, {p - 16})
    requires p - 16 in Used(h0) && q >= 16 && (q == p || q - 16 !in Used(h0))
    requires Used(h1) == (Used(h0) - {p - 16})[q - 16 := granted]
    ensures forall r :: r in c.contents && r != p ==> r != q && HoldsAt(c.contents[r], r, m1, Used(h1))
  {
    forall r | r in c.contents && r != p
      ensures r != q && HoldsAt(c.contents[r], r, m1, Used(h1))
    {
      StillThere(c.contents[r], r, m0, h0, m1, h1, {p - 16});
    }
  }

  lemma MovedServes(m1: Memory, u0: map<nat, nat>, u1: map<nat, nat>, c: Client, k: nat, q: nat, w: Words)
    requires Holds(c.held, u0) && k < |c.held| && (forall r :: r in c.contents <==> r in c.held)
    requires var p := c.held[k];
      && p >= 16 && p - 16 in u0 && q >= 16 && (q == p || q - 16 !in u0)
      && u1 == (u0 - {p - 16})[q - 16 := w.size]
      && (forall r :: r in c.contents && r != p ==> HoldsAt(c.contents[r], r, m1, u1))
    requires HoldsAt(w, q, m1, u1)
    ensures Serves(m1, u1, Client(Without(c.held, k) + [q], (c.contents - {c.held[k]})[q := w]))
  {
    var p := c.held[k];
    HoldsRemove(c.held, u0, k);
    WithoutMembers(c.held, u0, k);
    HoldsAdd(Without(c.held, k), u0 - {p - 16}, q, w.size);
    hide Holds, Without;
    MovedKeys(c.contents, c.held, Without(c.held, k), p, q, w);
  }

  lemma MovedKeys(contents: map<nat, Words>, held: seq<nat>, rest: seq<nat>, p: nat, q: nat, w: Words)
    requires forall r :: r in contents <==> r in held
    requires forall r :: r in rest <==> r in held && r != p
    ensures forall r :: r in (contents - {p})[q := w] <==> r in rest + [q]
    ensures forall r :: r in (contents - {p})[q := w] ==> r == q || (r in contents && r != p)
  {
  }

  lemma ServesMoved(m0: Memory, h0: Headers, m1: Memory, h1: Headers, c: Client, k: nat, size: nat,
                    q: nat, granted: nat)
    requires Serves(m0, Used(h0), c) && k < |c.held| && c.held[k] >= 16
    requires PayloadsKept(m0, m1, h0, {c.held[k] - 16})
    requires var p := c.held[k];
      && p - 16 in Used(h0) && q >= 16 && (q == p || q - 16 !in Used(h0))
      && (size <= BLOCK_SIZE_MAX - ALIGN_SIZE ==> size <= granted)
      && Used(h1) == (Used(h0) - {p - 16})[q - 16 := granted]
      && SameContents(m0, p, m1, q, if Used(h0)[p - 16] < granted then Used(h0)[p - 16] else granted)
    ensures var p := c.held[k];
      p in c.contents &&
      var d := Client(Without(c.held, k) + [q], (c.contents - {p})[q := Cut(c.contents[p], size, granted)]);
      Serves(m1, Used(h1), d) && Moved(c, k, size, d)
  {
    var p := c.held[k];
    assert p in c.held && HoldsAt(c.contents[p], p, m0, Used(h0));
    var w := Cut(c.contents[p], size, granted);
    hide Used, SameContents, PayloadsKept;
    OthersStay(m0, h0, m1, h1, c, p, q, granted);
    MovedWords(c.contents[p], p, q, m0, Used(h0), m1, Used(h1), size);
    hide HoldsAt, Cut;
    MovedServes(m1, Used(h0), Used(h1), c, k, q, w);
    MovedShape(c, k, size, q, w);
  }

  lemma MovedShape(c: Client, k: nat, size: nat, q: nat, w: Words)
    requires k < |c.held| && c.held[k] in c.contents && (q == c.held[k] || q !in c.contents)
    requires size <= BLOCK_SIZE_MAX - ALIGN_SIZE ==> size <= w.size
    requires w == Cut(c.contents[c.held[k]], size, w.size)
    ensures Moved(c, k, size, Client(Without(c.held, k) + [q], (c.contents - {c.held[k]})[q := w]))
  {
  }

  lemma ServesStored(mem: Memory, used: map<nat, nat>, c: Client, k: nat, o: nat, value: nat)
    requires Serves(mem, used, c) && k < |c.held| && o % 8 == 0 && c.held[k] >= 16 && c.held[k] - 16 in used
    requires o < used[c.held[k] - 16] && c.held[k] + o in mem
    requires forall b :: b in used && b != c.held[k] - 16 ==>
      b + 16 + used[b] <= c.held[k] - 8 || c.held[k] + used[c.held[k] - 16] <= b + 8
    ensures var p := c.held[k];
      && p in c.contents
      && Serves(mem[p + o := value], used, Client(c.held, c.contents[p := Put(c.contents[p], o, value)]))
  {
    var p := c.held[k];
    assert p in c.held;
    var d := Client(c.held, c.contents[p := Put(c.contents[p], o, value)]);
    forall q | q in d.contents
      ensures HoldsAt(d.contents[q], q, mem[p + o := value], used)
    {
      assert HoldsAt(c.contents[q], q, mem, used);
      if q != p {
        assert q - 16 in used && q - 16 != p - 16;
      }
    }
  }

  // One request, served by the call of the interface it stands for, is answered as by an ideal memory,
  // unless it is a resize that breaks the heap.
  method Serve(heap: Tlsf, held: seq<nat>, r: Request, ghost c: Client)
    returns (left: seq<nat>, ok: bool, ghost d: Client)
    requires heap.Valid() && c.held == held && Serves(heap.mem, Used(heap.hdr), c) && InSizeT(r)
    modifies heap
    ensures (ok <==> heap.Valid()) && (ok <==> !Fatal(c, r)) && heap.pools == old(heap.pools)
    ensures ok ==> d.held == left && Serves(heap.mem, Used(heap.hdr), d) && Answers(old(heap.hdr), c, r, d)
  {
    hide Layout, PoolsOk, Encodes, FreeLists, Bitmaps, Tags, CoalescedBut, GoodFit, NoFit, PayloadsKept, SameContents;
    hide Used, Holds, AdjustRequestSize, MemalignNeed, Serves, Gained, Without, Moved;
    left, ok, d := held, true, c;
    ghost var m, h := heap.mem, heap.hdr;
    match r
    case DoMalloc(size) =>
      var p := heap.Malloc(size);
      if p.Some? {
        UnfoldFit(h, AdjustRequestSize(size, ALIGN_SIZE), p.value - 16);
        ghost var granted := Granted(h[p.value - 16].size, AdjustRequestSize(size, ALIGN_SIZE));
        AdjustBounds(size);
        ServesGained(m, h, heap.mem, heap.hdr, c, size, p.value, granted);
        left, d := held + [p.value], Grown(c, p.value, granted);
      }
    case DoMemalign(log, size) =>
      left, d := ServeMemalign(heap, held, log, size, c);
    case DoFree(k) =>
      if k < |held| {
        ServesHolds(m, Used(h), c, k);
        heap.Free(Some(held[k]));
        ServesLost(m, h, heap.mem, heap.hdr, c, k);
        left, d := Without(held, k), Client(Without(c.held, k), c.contents - {c.held[k]});
      }
    case DoRealloc(k, size) =>
      if k < |held| {
        left, ok, d := ServeRealloc(heap, held, k, size, c);
      }
    case DoStore(k, index, value) =>
      if k < |held| {
        d := ServeStore(heap, held, k, index, value, c);
      }
  }

  // A store into a block the client holds; one outside it is passed over.
  method ServeStore(heap: Tlsf, held: seq<nat>, k: nat, index: nat, value: nat, ghost c: Client)
    returns (ghost d: Client)
    requires heap.Valid() && c.held == held && Serves(heap.mem, Used(heap.hdr), c) && k < |held|
    modifies heap
    ensures heap.Valid() && heap.pools == old(heap.pools)
    ensures d.held == held && Serves(heap.mem, Used(heap.hdr), d)
    ensures Answers(old(heap.hdr), c, DoStore(k, index, value), d)
  {
    hide Layout, PoolsOk, Encodes, FreeLists, Bitmaps, Tags, CoalescedBut, Used, Holds, Serves;
    d := c;
    ghost var m, h := heap.mem, heap.hdr;
    ServesHolds(m, Used(h), c, k);
    var block := held[k] - 16;
    LiveBlock(heap.hdr, heap.pools, block);
    BlockSpan(heap.hdr, heap.pools, block);
    ReadSize(heap.mem, heap.hdr, heap.links, heap.pools, heap.blockNull, block);
    if 8 * index < BlockSize(heap.mem[block + 8]) {
      UsedApart(heap.hdr, heap.pools, block);
      heap.Store(block, block + 16 + 8 * index, value);
      ServesStored(m, Used(h), c, k, 8 * index, value);
      d := Client(c.held, c.contents[held[k] := Put(c.contents[held[k]], 8 * index, value)]);
    }
  }

  lemma PowerAligns(log: nat, size: nat)
    requires log <= 63 && size < SIZE_T
    ensures UsableAlign(Pow2(log)) || Pow2(log) == TOP_ALIGN
    ensures log <= 62 ==> UsableAlign(Pow2(log))
    ensures AdjustRequestSize(size, ALIGN_SIZE) == 0 ==> MemalignNeed(Pow2(log), size) == 0
  {
    TopPower();
    NeedSizes(Pow2(log), size);
  }

  lemma RoundedCovers(size: nat, granted: nat)
    requires size < SIZE_T && granted >= AdjustRequestSize(size, ALIGN_SIZE) != 0
    ensures size <= SIZE_T - 8 ==> size <= granted
  {
    AdjustBounds(size);
  }

  method ServeMemalign(heap: Tlsf, held: seq<nat>, log: nat, size: nat, ghost c: Client)
    returns (left: seq<nat>, ghost d: Client)
    requires heap.Valid() && c.held == held && Serves(heap.mem, Used(heap.hdr), c) && log <= 63 && size < SIZE_T
    modifies heap
    ensures heap.Valid() && heap.pools == old(heap.pools)
    ensures d.held == left && Serves(heap.mem, Used(heap.hdr), d) && Answers(old(heap.hdr), c, DoMemalign(log, size), d)
  {
    hide *;
    PowerAligns(log, size);
    left, d := held, c;
    ghost var m, h := heap.mem, heap.hdr;
    var p, from, granted := heap.Memalign(Pow2(log), size);
    if p.Some? {
      CarvedFacts(h, log, size, from, p.value, granted);
      RoomFor(h, MemalignNeed(Pow2(log), size));
      MemalignServes(m, h, heap.mem, heap.hdr, c, log, size, p.value, granted);
      left, d := held + [p.value], Grown(c, p.value, granted);
    } else {
      RoomFor(h, MemalignNeed(Pow2(log), size));
      NothingAnswers(h, c, log, size);
    }
  }

  lemma MemalignServes(m0: Memory, h0: Headers, m1: Memory, h1: Headers, c: Client, log: nat, size: nat,
                       p: nat, granted: nat)
    requires Serves(m0, Used(h0), c) && PayloadsKept(m0, m1, h0, {}) && size < SIZE_T
    requires p >= 16 && p - 16 !in Used(h0) && Used(h1) == Used(h0)[p - 16 := granted]
    requires log <= 62 ==> Multiple(p, Pow2(log)) && granted >= AdjustRequestSize(size, ALIGN_SIZE) != 0
    requires !NoRoom(h0, MemalignNeed(Pow2(log), size))
    ensures Serves(m1, Used(h1), Grown(c, p, granted))
    ensures Answers(h0, c, DoMemalign(log, size), Grown(c, p, granted))
  {
    hide NoRoom, MemalignNeed, Serves, Used, PayloadsKept, AdjustRequestSize, Gained, Multiple, Pow2, Grown;
    if log <= 62 {
      RoundedCovers(size, granted);
    }
    ServesGained(m0, h0, m1, h1, c, if log <= 62 then size else 0, p, granted);
  }

  lemma CarvedFacts(hdr: Headers, log: nat, size: nat, from: nat, p: nat, granted: nat)
    requires GoodFit(hdr, MemalignNeed(Pow2(log), size), from)
    requires CarvedOut(Pow2(log), size, from, hdr[from].size, p, granted)
    ensures p >= 16
    ensures log <= 62 ==> Multiple(p, Pow2(log)) && granted >= AdjustRequestSize(size, ALIGN_SIZE)
  {
    assert log <= 62 ==> UsableAlign(Pow2(log));
    hide Pow2, UsableAlign, Lead, AdjustRequestSize, Granted, Multiple;
  }

  lemma RoomFor(hdr: Headers, need: nat)
    ensures NoRoom(hdr, need) <==> need == 0 || NoFit(hdr, need)
  {
  }

  lemma NothingAnswers(hdr: Headers, c: Client, log: nat, size: nat)
    requires NoRoom(hdr, MemalignNeed(Pow2(log), size))
    ensures Answers(hdr, c, DoMemalign(log, size), c)
  {
  }

  // The resize of a block the client holds.
  method ServeRealloc(heap: Tlsf, held: seq<nat>, k: nat, size: nat, ghost c: Client)
    returns (left: seq<nat>, ok: bool, ghost d: Client)
    requires heap.Valid() && c.held == held && Serves(heap.mem, Used(heap.hdr), c) && k < |held| && size < SIZE_T
    modifies heap
    ensures (ok <==> heap.Valid()) && (ok <==> !Fatal(c, DoRealloc(k, size))) && heap.pools == old(heap.pools)
    ensures ok ==> d.held == left && Serves(heap.mem, Used(heap.hdr), d)
    ensures ok ==> Answers(old(heap.hdr), c, DoRealloc(k, size), d)
  {
    hide Layout, PoolsOk, Encodes, FreeLists, Bitmaps, Tags, CoalescedBut, PayloadsKept, SameContents;
    hide Used, Holds, AdjustRequestSize, Serves, Without, Moved;
    left, d := held, c;
    ghost var m, h := heap.mem, heap.hdr;
    ServesHolds(m, Used(h), c, k);
    AdjustBounds(size);
    var block := held[k] - 16;
    LiveBlock(heap.hdr, heap.pools, block);
    ReadSize(heap.mem, heap.hdr, heap.links, heap.pools, heap.blockNull, block);
    ok := !(BLOCK_SIZE_MAX - ALIGN_SIZE < size <= SIZE_T - ALIGN_SIZE && BlockSize(heap.mem[block + 8]) >= HEADER_SIZE);
    var p, granted := heap.Realloc(Some(held[k]), size);
    if ok {
      if p.Some? {
        ServesMoved(m, h, heap.mem, heap.hdr, c, k, size, p.value, granted);
        left := Without(held, k) + [p.value];
        d := Client(left, (c.contents - {held[k]})[p.value := Cut(c.contents[held[k]], size, granted)]);
        assert d.held[|c.held| - 1] == p.value;
      } else if size == 0 {
        ServesLost(m, h, heap.mem, heap.hdr, c, k);
        left, d := Without(held, k), Client(Without(c.held, k), c.contents - {c.held[k]});
      }
    }
  }

  lemma ServesHolds(mem: Memory, used: map<nat, nat>, c: Client, k: nat)
    requires Serves(mem, used, c) && k < |c.held|
    ensures c.held[k] >= 16 && c.held[k] - 16 in used && c.held[k] in c.contents
    ensures c.contents[c.held[k]].size == used[c.held[k] - 16]
  {
    assert c.held[k] in c.held;
  }

  lemma UsedApart(hdr: Headers, pools: Pools, a: nat)
    requires Sound(hdr, pools) && a in Used(hdr)
    ensures forall b :: b in Used(hdr) && b != a ==>
      b + 16 + Used(hdr)[b] <= a + 8 || a + 16 + Used(hdr)[a] <= b + 8
  {
    forall b | b in Used(hdr) && b != a
      ensures b + 16 + Used(hdr)[b] <= a + 8 || a + 16 + Used(hdr)[a] <= b + 8
    {
      Placement(hdr, pools, a, b);
    }
  }

  lemma HoldsNothing(used: map<nat, nat>)
    requires Holds([], used)
    ensures used == map[]
  {
    forall b
      ensures b !in used
    {
      var none: seq<nat> := [];
      assert b + 16 !in none;
    }
  }

  // The states an ideal memory goes through on a sequence of requests, and the heaps that hold them.
  ghost predicate IdealRun(heaps: seq<Headers>, trace: seq<Client>, requests: seq<Request>) {
    && |heaps| == |trace| == |requests| + 1 && trace[0] == Client([], map[])
    && (forall i :: 0 <= i < |heaps| ==> Holds(trace[i].held, Used(heaps[i])))
    && forall i :: 0 <= i < |requests| ==> Answers(heaps[i], trace[i], requests[i], trace[i + 1])
  }

  lemma IdealStep(heaps: seq<Headers>, trace: seq<Client>, requests: seq<Request>, i: nat, h: Headers, d: Client)
    requires i < |requests| && IdealRun(heaps, trace, requests[..i]) && Answers(heaps[i], trace[i], requests[i], d)
    requires Holds(d.held, Used(h))
    ensures IdealRun(heaps + [h], trace + [d], requests[..i + 1])
  {
    hide Answers, Used, Holds;
    var more, done, on := trace + [d], requests[..i + 1], heaps + [h];
    forall j | 0 <= j < |done|
      ensures Answers(on[j], more[j], done[j], more[j + 1])
    {
      if j < i {
        assert requests[..i][j] == done[j];
      }
    }
  }

  // Every run of requests refines a run of an ideal memory: the heap stays valid and holds what the
  // client has stored, up to the first resize that breaks the heap, if there is one. Whenever the client has
  // given everything back, in whatever order, every pool is one free block again.
  method Run(heap: Tlsf, requests: seq<Request>)
    returns (held: seq<nat>, at: nat, ghost heaps: seq<Headers>, ghost trace: seq<Client>)
    requires heap.Valid() && Used(heap.hdr) == map[]
    requires forall r :: r in requests ==> InSizeT(r)
    modifies heap
    ensures at <= |requests| && heap.pools == old(heap.pools) && (heap.Valid() <==> at == |requests|)
    ensures IdealRun(heaps, trace, requests[..at]) && forall i :: 0 <= i < at ==> !Fatal(trace[i], requests[i])
    ensures heaps[0] == old(heap.hdr) && (at == |requests| ==> heaps[at] == heap.hdr)
    ensures at < |requests| ==> Fatal(trace[at], requests[at])
    ensures at == |requests| ==> trace[at].held == held && Serves(heap.mem, Used(heap.hdr), trace[at])
    ensures at == |requests| && held == [] ==> forall p :: p in heap.pools ==>
      Plain(heap.hdr, p) && heap.hdr[p].free && Next(heap.hdr, p) == heap.pools[p]
  {
    hide Layout, PoolsOk, Encodes, FreeLists, Bitmaps, Tags, CoalescedBut, Serves, Answers, IdealRun, Fatal;
    held, at := [], 0;
    ghost var c := Client([], map[]);
    heaps, trace := [heap.hdr], [c];
    StartServes(heap.mem, heap.hdr, c);
    assert requests[..0] == [];
    while at < |requests|
      invariant at <= |requests| && heap.Valid() && heap.pools == old(heap.pools)
      invariant c.held == held && Serves(heap.mem, Used(heap.hdr), c)
      invariant |trace| == |heaps| == at + 1 && trace[at] == c && IdealRun(heaps, trace, requests[..at])
      invariant heaps[0] == old(heap.hdr) && heaps[at] == heap.hdr
      invariant forall i :: 0 <= i < at ==> !Fatal(trace[i], requests[i])
    {
      var ok;
      ghost var d;
      held, ok, d := Serve(heap, held, requests[at], c);
      if !ok {
        return;
      }
      ServesHeld(heap.mem, Used(heap.hdr), d);
      IdealStep(heaps, trace, requests, at, heap.hdr, d);
      heaps, trace, c, at := heaps + [heap.hdr], trace + [d], d, at + 1;
    }
    assert requests[..|requests|] == requests;
    if held == [] {
      ServesNothing(heap.mem, Used(heap.hdr), c);
      forall p | p in heap.pools
        ensures Plain(heap.hdr, p) && heap.hdr[p].free && Next(heap.hdr, p) == heap.pools[p]
      {
        AllFreed(heap.hdr, heap.pools, p);
      }
    }
  }

  lemma StartServes(mem: Memory, hdr: Headers, c: Client)
    requires Used(hdr) == map[] && c == Client([], map[])
    ensures Serves(mem, Used(hdr), c) && IdealRun([hdr], [c], [])
  {
    hide Used;
  }

  lemma ServesHeld(mem: Memory, used: map<nat, nat>, c: Client)
    requires Serves(mem, used, c)
    ensures Holds(c.held, used)
  {
  }

  lemma ServesNothing(mem: Memory, used: map<nat, nat>, c: Client)
    requires Serves(mem, used, c) && c.held == []
    ensures used == map[]
  {
    HoldsNothing(used);
  }
}
