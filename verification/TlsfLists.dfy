// The segregated free lists and the two levels of bitmaps that index them.
module TlsfLists {
  import opened Bits
  import opened SizeClass
  import opened TlsfHeap

  type Heads = seq<seq<nat>>

  predicate Shaped(heads: Heads) {
    |heads| == FL_INDEX_COUNT && forall i :: 0 <= i < |heads| ==> |heads[i]| == SL_INDEX_COUNT
  }

  function Head(heads: Heads, c: Class): nat
    requires Shaped(heads) && ValidClass(c)
  {
    heads[c.fl][c.sl]
  }

  function SetHead(heads: Heads, c: Class, a: nat): Heads
    requires Shaped(heads) && ValidClass(c)
  {
    var row: seq<nat> := heads[c.fl][c.sl := a];
    heads[c.fl := row]
  }

  predicate NextOk(links: Links, nil: nat, a: nat)
    requires a in links
  {
    var l := links[a];
    l.next != nil ==>
      && l.next in links && links[l.next].prev == a
      && links[l.next].cls == l.cls && links[l.next].stamp < l.stamp
  }

  predicate PrevOk(links: Links, heads: Heads, nil: nat, a: nat)
    requires a in links && Shaped(heads) && ValidClass(links[a].cls)
  {
    var l := links[a];
    && (l.prev == nil <==> Head(heads, l.cls) == a)
    && (l.prev != nil ==>
          && l.prev in links && links[l.prev].next == a
          && links[l.prev].cls == l.cls && links[l.prev].stamp > l.stamp)
  }

  predicate LinkOk(links: Links, heads: Heads, nil: nat, clock: nat, a: nat)
    requires a in links && Shaped(heads)
  {
    && a != nil && ValidClass(links[a].cls) && links[a].stamp < clock
    && NextOk(links, nil, a) && PrevOk(links, heads, nil, a)
  }

  predicate HeadOk(links: Links, heads: Heads, nil: nat, c: Class)
    requires Shaped(heads) && ValidClass(c)
  {
    Head(heads, c) != nil ==> Head(heads, c) in links && links[Head(heads, c)].cls == c
  }

  // Doubly linked, null-terminated lists, one a class; empty lists point at the null block.
  ghost predicate FreeLists(links: Links, heads: Heads, nil: nat, clock: nat) {
    && Shaped(heads)
    && (forall a {:trigger LinkOk(links, heads, nil, clock, a)} ::
          a in links ==> LinkOk(links, heads, nil, clock, a))
    && (forall c {:trigger HeadOk(links, heads, nil, c)} ::
          ValidClass(c) ==> HeadOk(links, heads, nil, c))
  }

  // ---- Insertion and removal ----

  function InsertLinks(links: Links, heads: Heads, nil: nat, clock: nat, a: nat, c: Class): Links
    requires Shaped(heads) && ValidClass(c)
    requires Head(heads, c) == nil || Head(heads, c) in links
  {
    var h := Head(heads, c);
    var m := if h == nil then links else links[h := links[h].(prev := a)];
    m[a := Link(h, nil, c, clock)]
  }

  function RemoveLinks(links: Links, nil: nat, a: nat): Links
    requires a in links
    requires NextOk(links, nil, a)
    requires links[a].prev == nil || links[a].prev in links
  {
    var l := links[a];
    var m := if l.next == nil then links else links[l.next := links[l.next].(prev := l.prev)];
    var k := if l.prev == nil then m else m[l.prev := m[l.prev].(next := l.next)];
    k - {a}
  }

  function RemoveHeads(heads: Heads, links: Links, a: nat, c: Class): Heads
    requires Shaped(heads) && ValidClass(c) && a in links
  {
    if Head(heads, c) == a then SetHead(heads, c, links[a].next) else heads
  }

  lemma SetHeadGets(heads: Heads, c: Class, a: nat, d: Class)
    requires Shaped(heads) && ValidClass(c) && ValidClass(d)
    ensures Shaped(SetHead(heads, c, a))
    ensures Head(SetHead(heads, c, a), d) == if c == d then a else Head(heads, d)
  {
  }

  lemma InsertKeeps(links: Links, heads: Heads, nil: nat, clock: nat, a: nat, c: Class)
    requires FreeLists(links, heads, nil, clock)
    requires ValidClass(c) && a !in links && a != nil
    requires Head(heads, c) == nil || Head(heads, c) in links
    ensures FreeLists(InsertLinks(links, heads, nil, clock, a, c), SetHead(heads, c, a), nil, clock + 1)
  {
    var h := Head(heads, c);
    var m := InsertLinks(links, heads, nil, clock, a, c);
    var hs := SetHead(heads, c, a);
    SetHeadGets(heads, c, a, c);
    assert HeadOk(links, heads, nil, c);
    assert h != nil ==> LinkOk(links, heads, nil, clock, h);
    forall b | b in m
      ensures LinkOk(m, hs, nil, clock + 1, b)
    {
      if b != a {
        assert LinkOk(links, heads, nil, clock, b);
        SetHeadGets(heads, c, a, links[b].cls);
      }
    }
    forall d | ValidClass(d)
      ensures HeadOk(m, hs, nil, d)
    {
      assert HeadOk(links, heads, nil, d);
      SetHeadGets(heads, c, a, d);
    }
  }

  lemma RemoveKeeps(links: Links, heads: Heads, nil: nat, clock: nat, a: nat)
    requires FreeLists(links, heads, nil, clock)
    requires a in links && LinkOk(links, heads, nil, clock, a)
    ensures FreeLists(RemoveLinks(links, nil, a), RemoveHeads(heads, links, a, links[a].cls), nil, clock)
  {
    var c := links[a].cls;
    var m := RemoveLinks(links, nil, a);
    var hs := RemoveHeads(heads, links, a, c);
    forall b | b in m
      ensures LinkOk(m, hs, nil, clock, b)
    {
      assert LinkOk(links, heads, nil, clock, b);
      SetHeadGets(heads, c, links[a].next, links[b].cls);
    }
    forall d | ValidClass(d)
      ensures HeadOk(m, hs, nil, d)
    {
      assert HeadOk(links, heads, nil, d);
      SetHeadGets(heads, c, links[a].next, d);
    }
  }

  // ---- What the links mean ----

  ghost predicate Start(links: Links, heads: Heads, nil: nat, clock: nat, a: nat) {
    FreeLists(links, heads, nil, clock) && (a == nil || a in links)
  }

  // The blocks met by following `next` from a.
  ghost function Walk(links: Links, heads: Heads, nil: nat, clock: nat, a: nat): seq<nat>
    requires Start(links, heads, nil, clock, a)
    decreases if a == nil then 0 else links[a].stamp + 1
  {
    if a == nil then []
    else
      assert LinkOk(links, heads, nil, clock, a);
      [a] + Walk(links, heads, nil, clock, links[a].next)
  }

  ghost predicate Distinct(s: seq<nat>) {
    forall i, j :: 0 <= i < j < |s| ==> s[i] != s[j]
  }

  lemma {:induction false} WalkBelow(links: Links, heads: Heads, nil: nat, clock: nat, a: nat, b: nat)
    requires Start(links, heads, nil, clock, a) && b in Walk(links, heads, nil, clock, a)
    ensures a != nil && b in links && links[b].cls == links[a].cls && links[b].stamp <= links[a].stamp
    decreases if a == nil then 0 else links[a].stamp + 1
  {
    assert LinkOk(links, heads, nil, clock, a);
    if b != a {
      WalkBelow(links, heads, nil, clock, links[a].next, b);
    }
  }

  lemma {:induction false} WalkDistinct(links: Links, heads: Heads, nil: nat, clock: nat, a: nat)
    requires Start(links, heads, nil, clock, a)
    ensures Distinct(Walk(links, heads, nil, clock, a))
    decreases if a == nil then 0 else links[a].stamp + 1
  {
    if a != nil {
      assert LinkOk(links, heads, nil, clock, a);
      var t := Walk(links, heads, nil, clock, links[a].next);
      WalkDistinct(links, heads, nil, clock, links[a].next);
      if a in t {
        WalkBelow(links, heads, nil, clock, links[a].next, a);
      }
    }
  }

  lemma {:induction false} WalkClosed(links: Links, heads: Heads, nil: nat, clock: nat, a: nat, b: nat)
    requires Start(links, heads, nil, clock, a)
    requires b in Walk(links, heads, nil, clock, a) && b in links && links[b].next != nil
    ensures links[b].next in Walk(links, heads, nil, clock, a)
    decreases if a == nil then 0 else links[a].stamp + 1
  {
    assert LinkOk(links, heads, nil, clock, a);
    if a == b {
      assert Walk(links, heads, nil, clock, links[a].next)[0] == links[a].next;
    } else {
      WalkClosed(links, heads, nil, clock, links[a].next, b);
    }
  }

  // A linked block is reached from the head of its class.
  lemma {:induction false} Reached(links: Links, heads: Heads, nil: nat, clock: nat, a: nat)
    requires FreeLists(links, heads, nil, clock) && a in links
    ensures ValidClass(links[a].cls)
    ensures var h := Head(heads, links[a].cls);
      Start(links, heads, nil, clock, h) && a in Walk(links, heads, nil, clock, h)
    decreases clock - links[a].stamp
  {
    assert LinkOk(links, heads, nil, clock, a);
    assert HeadOk(links, heads, nil, links[a].cls);
    var p := links[a].prev;
    if p == nil {
      assert Walk(links, heads, nil, clock, a)[0] == a;
    } else {
      assert LinkOk(links, heads, nil, clock, p);
      Reached(links, heads, nil, clock, p);
      WalkClosed(links, heads, nil, clock, Head(heads, links[a].cls), p);
    }
  }

  // Each list enumerates, without repetition, exactly the linked blocks of its class.
  lemma ListsAreExact(links: Links, heads: Heads, nil: nat, clock: nat, c: Class)
    requires FreeLists(links, heads, nil, clock) && ValidClass(c)
    ensures Start(links, heads, nil, clock, Head(heads, c))
    ensures var w := Walk(links, heads, nil, clock, Head(heads, c));
      Distinct(w) && forall a :: a in w <==> a in links && links[a].cls == c
  {
    var h := Head(heads, c);
    assert HeadOk(links, heads, nil, c);
    WalkDistinct(links, heads, nil, clock, h);
    forall a
      ensures a in Walk(links, heads, nil, clock, h) <==> a in links && links[a].cls == c
    {
      if a in Walk(links, heads, nil, clock, h) {
        WalkBelow(links, heads, nil, clock, h, a);
      }
      if a in links && links[a].cls == c {
        Reached(links, heads, nil, clock, a);
      }
    }
  }

  // ---- Bitmaps ----

  predicate SlBit(heads: Heads, sl: seq<nat>, nil: nat, f: nat, i: nat)
    requires Shaped(heads) && |sl| == FL_INDEX_COUNT && f < FL_INDEX_COUNT
  {
    Bit(sl[f], i) <==> i < SL_INDEX_COUNT && heads[f][i] != nil
  }

  predicate FlBit(fl: nat, sl: seq<nat>, f: nat)
    requires |sl| == FL_INDEX_COUNT
  {
    Bit(fl, f) <==> f < FL_INDEX_COUNT && sl[f] != 0
  }

  // A second-level bit says its list is not empty, a first-level bit that some
  // list of the row is not.
  ghost predicate Bitmaps(heads: Heads, fl: nat, sl: seq<nat>, nil: nat) {
    && Shaped(heads) && |sl| == FL_INDEX_COUNT
    && (forall f: nat, i: nat {:trigger SlBit(heads, sl, nil, f, i)} ::
          f < FL_INDEX_COUNT ==> SlBit(heads, sl, nil, f, i))
    && (forall f: nat {:trigger FlBit(fl, sl, f)} :: FlBit(fl, sl, f))
  }

  lemma BitmapInsert(heads: Heads, fl: nat, sl: seq<nat>, nil: nat, c: Class, a: nat)
    requires Bitmaps(heads, fl, sl, nil) && ValidClass(c) && a != nil
    ensures Bitmaps(SetHead(heads, c, a), Or(fl, Pow2(c.fl)),
                    sl[c.fl := Or(sl[c.fl], Pow2(c.sl))], nil)
  {
    hide Bit, Or, Pow2;
    var hs := SetHead(heads, c, a);
    var sl': seq<nat> := sl[c.fl := Or(sl[c.fl], Pow2(c.sl))];
    SetHeadGets(heads, c, a, c);
    forall f: nat, i: nat | f < FL_INDEX_COUNT
      ensures SlBit(hs, sl', nil, f, i)
    {
      assert SlBit(heads, sl, nil, f, i);
      SetBit(sl[f], c.sl, i);
      if i < SL_INDEX_COUNT {
        SetHeadGets(heads, c, a, Class(f, i));
      }
    }
    forall f: nat
      ensures FlBit(Or(fl, Pow2(c.fl)), sl', f)
    {
      assert FlBit(fl, sl, f);
      SetBit(fl, c.fl, f);
      SetBit(sl[c.fl], c.sl, c.sl);
      BitZero(c.sl);
    }
  }

  // Removing the head of a one-element list clears its bit, and the row's bit with
  // the row's last list.
  function ClearSl(sl: seq<nat>, c: Class): seq<nat>
    requires ValidClass(c) && |sl| == FL_INDEX_COUNT
  {
    sl[c.fl := AndNot(sl[c.fl], Pow2(c.sl))]
  }

  lemma BitmapClear(heads: Heads, fl: nat, sl: seq<nat>, nil: nat, c: Class)
    requires Bitmaps(heads, fl, sl, nil) && ValidClass(c)
    ensures var sl' := ClearSl(sl, c);
      Bitmaps(SetHead(heads, c, nil), if sl'[c.fl] == 0 then AndNot(fl, Pow2(c.fl)) else fl, sl', nil)
  {
    hide Bit, AndNot, Pow2;
    var hs := SetHead(heads, c, nil);
    var sl' := ClearSl(sl, c);
    var fl' := if sl'[c.fl] == 0 then AndNot(fl, Pow2(c.fl)) else fl;
    SetHeadGets(heads, c, nil, c);
    forall f: nat, i: nat | f < FL_INDEX_COUNT
      ensures SlBit(hs, sl', nil, f, i)
    {
      assert SlBit(heads, sl, nil, f, i);
      ClearBit(sl[f], c.sl, i);
      if i < SL_INDEX_COUNT {
        SetHeadGets(heads, c, nil, Class(f, i));
      }
    }
    forall f: nat
      ensures FlBit(fl', sl', f)
    {
      assert FlBit(fl, sl, f);
      ClearBit(fl, c.fl, f);
      if sl'[c.fl] != 0 && sl[c.fl] == 0 {
        FfsLeast(sl'[c.fl], 0);
        ClearBit(sl[c.fl], c.sl, Ffs(sl'[c.fl]));
        BitZero(Ffs(sl'[c.fl]));
      }
    }
  }

  // Replacing a head by another block leaves the bitmaps right.
  lemma BitmapSame(heads: Heads, fl: nat, sl: seq<nat>, nil: nat, c: Class, a: nat)
    requires Bitmaps(heads, fl, sl, nil) && ValidClass(c)
    requires a != nil && Head(heads, c) != nil
    ensures Bitmaps(SetHead(heads, c, a), fl, sl, nil)
  {
    hide Bit;
    var hs := SetHead(heads, c, a);
    SetHeadGets(heads, c, a, c);
    forall f: nat, i: nat | f < FL_INDEX_COUNT
      ensures SlBit(hs, sl, nil, f, i)
    {
      assert SlBit(heads, sl, nil, f, i);
      if i < SL_INDEX_COUNT {
        SetHeadGets(heads, c, a, Class(f, i));
      }
    }
  }

  // ---- Good-fit search ----

  ghost predicate LeastNonEmpty(heads: Heads, nil: nat, from: Class, c: Class)
    requires Shaped(heads)
  {
    && ValidClass(c) && !Before(c, from) && Head(heads, c) != nil
    && forall d :: ValidClass(d) && !Before(d, from) && Before(d, c) ==> Head(heads, d) == nil
  }

  ghost predicate AllEmpty(heads: Heads, nil: nat, from: Class)
    requires Shaped(heads)
  {
    forall d :: ValidClass(d) && !Before(d, from) ==> Head(heads, d) == nil
  }

  // A masked row: its least bit is the least non-empty list at or above `from`.
  lemma RowSearch(heads: Heads, fl: nat, sl: seq<nat>, nil: nat, f: nat, from: nat)
    requires Bitmaps(heads, fl, sl, nil) && f < FL_INDEX_COUNT && from < SL_INDEX_COUNT
    ensures var m := And(sl[f], OnesFrom(from));
      && (m == 0 ==> forall i :: from <= i < SL_INDEX_COUNT ==> heads[f][i] == nil)
      && (m != 0 ==>
            && from <= Ffs(m) < SL_INDEX_COUNT && heads[f][Ffs(m)] != nil
            && forall i :: from <= i < Ffs(m) ==> heads[f][i] == nil)
  {
    hide Bit, And, Ffs, OnesFrom;
    var m := And(sl[f], OnesFrom(from));
    forall i | from <= i < SL_INDEX_COUNT && (m == 0 || i < Ffs(m))
      ensures heads[f][i] == nil
    {
      assert SlBit(heads, sl, nil, f, i);
      MaskFrom(sl[f], from, i);
      if m == 0 {
        BitZero(i);
      } else {
        FfsLeast(m, i);
      }
    }
    if m != 0 {
      FfsLeast(m, 0);
      var r := Ffs(m);
      BitAnd(sl[f], OnesFrom(from), r);
      assert SlBit(heads, sl, nil, f, r);
      MaskFrom(sl[f], from, r);
    }
  }

  // Without a mask: the least non-empty list of a row that has one.
  lemma RowLeast(heads: Heads, fl: nat, sl: seq<nat>, nil: nat, f: nat)
    requires Bitmaps(heads, fl, sl, nil) && f < FL_INDEX_COUNT && sl[f] != 0
    ensures 0 <= Ffs(sl[f]) < SL_INDEX_COUNT && heads[f][Ffs(sl[f])] != nil
    ensures forall i :: 0 <= i < Ffs(sl[f]) ==> heads[f][i] == nil
  {
    hide Bit, Ffs;
    var r := Ffs(sl[f]);
    FfsLeast(sl[f], 0);
    assert SlBit(heads, sl, nil, f, r);
    forall i | 0 <= i < r
      ensures heads[f][i] == nil
    {
      assert SlBit(heads, sl, nil, f, i);
      FfsLeast(sl[f], i);
    }
  }

  // The first-level bitmap does the same for rows.
  lemma ColumnSearch(heads: Heads, fl: nat, sl: seq<nat>, nil: nat, from: nat)
    requires Bitmaps(heads, fl, sl, nil) && from <= FL_INDEX_COUNT
    ensures var m := And(fl, OnesFrom(from));
      && (m == 0 ==> forall f :: from <= f < FL_INDEX_COUNT ==> sl[f] == 0)
      && (m != 0 ==>
            && from <= Ffs(m) < FL_INDEX_COUNT && sl[Ffs(m)] != 0
            && forall f :: from <= f < Ffs(m) ==> sl[f] == 0)
  {
    hide Bit, And, Ffs, OnesFrom;
    var m := And(fl, OnesFrom(from));
    forall f | from <= f < FL_INDEX_COUNT && (m == 0 || f < Ffs(m))
      ensures sl[f] == 0
    {
      assert FlBit(fl, sl, f);
      MaskFrom(fl, from, f);
      if m == 0 {
        BitZero(f);
      } else {
        FfsLeast(m, f);
      }
    }
    if m != 0 {
      FfsLeast(m, 0);
      var r := Ffs(m);
      BitAnd(fl, OnesFrom(from), r);
      assert FlBit(fl, sl, r);
      MaskFrom(fl, from, r);
    }
  }

  // A row without bits has only empty lists.
  lemma RowEmpty(heads: Heads, fl: nat, sl: seq<nat>, nil: nat, f: nat)
    requires Bitmaps(heads, fl, sl, nil) && f < FL_INDEX_COUNT && sl[f] == 0
    ensures forall i :: 0 <= i < SL_INDEX_COUNT ==> heads[f][i] == nil
  {
    forall i | 0 <= i < SL_INDEX_COUNT
      ensures heads[f][i] == nil
    {
      assert SlBit(heads, sl, nil, f, i);
      BitZero(i);
    }
  }

  // Rows strictly between two first-level indices without bits hold no block.
  lemma RowsEmpty(heads: Heads, fl: nat, sl: seq<nat>, nil: nat, lo: nat, hi: nat)
    requires Bitmaps(heads, fl, sl, nil) && hi <= FL_INDEX_COUNT
    requires forall f :: lo <= f < hi ==> sl[f] == 0
    ensures forall d: Class :: ValidClass(d) && lo <= d.fl < hi ==> Head(heads, d) == nil
  {
    hide Bit;
    forall d: Class | ValidClass(d) && lo <= d.fl < hi
      ensures Head(heads, d) == nil
    {
      RowEmpty(heads, fl, sl, nil, d.fl);
    }
  }

  // The head of a class that holds a block is not null.
  lemma HeadOfLinked(links: Links, heads: Heads, nil: nat, clock: nat, a: nat)
    requires FreeLists(links, heads, nil, clock) && a in links
    ensures ValidClass(links[a].cls) && Head(heads, links[a].cls) != nil
  {
    Reached(links, heads, nil, clock, a);
  }
}
