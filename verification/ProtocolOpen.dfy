// Opening and closing a protocol interface: the list of open agents of one interface
// entry and the exclusion rules of OpenProtocol (section 7.3 of the UEFI
// Specification, version 2.7).
module ProtocolOpen {
  import opened Options

  type Handle = nat
  const NO_HANDLE: Handle := 0

  const BY_HANDLE_PROTOCOL := 0x01
  const GET_PROTOCOL := 0x02
  const TEST_PROTOCOL := 0x04
  const BY_CHILD_CONTROLLER := 0x08
  const BY_DRIVER := 0x10
  const EXCLUSIVE := 0x20
  const BY_DRIVER_EXCLUSIVE := 0x30

  datatype Result = Success | InvalidParameter | Unsupported | NotFound | AlreadyStarted | AccessDenied | OutOfResources

  // efi_open_proto_info
  datatype Info = Info(agent: Handle, controller: Handle, attrs: nat, count: nat)

  predicate HasDriver(attrs: nat) { (attrs / 0x10) % 2 == 1 }
  predicate HasExclusive(attrs: nat) { (attrs / 0x20) % 2 == 1 }
  predicate Owns(attrs: nat) { HasDriver(attrs) || HasExclusive(attrs) }

  // The attribute checks before the list is looked at.
  predicate GoodArguments(valid: set<Handle>, agent: Handle, controller: Handle, attrs: nat, hasIntf: bool) {
    && (attrs != TEST_PROTOCOL ==> hasIntf)
    && (attrs == BY_CHILD_CONTROLLER ==> agent != controller)
    && (attrs in {BY_CHILD_CONTROLLER, BY_DRIVER, BY_DRIVER_EXCLUSIVE} ==> controller in valid)
    && (attrs in {BY_CHILD_CONTROLLER, BY_DRIVER, BY_DRIVER_EXCLUSIVE, EXCLUSIVE} ==> agent in valid)
    && attrs in LEGAL_ATTRS
  }

  // At most one agent owns the interface.
  predicate OneOwner(list: seq<Info>) {
    forall i, j :: 0 <= i < j < |list| ==> !(Owns(list[i].attrs) && Owns(list[j].attrs))
  }

  predicate SameOpen(a: Info, b: Info) {
    a.agent == b.agent && a.attrs == b.attrs && a.controller == b.controller
  }

  predicate Listed(list: seq<Info>, x: Info) {
    exists i :: 0 <= i < |list| && SameOpen(list[i], x)
  }

  // No two entries for the same open.
  predicate NoDuplicates(list: seq<Info>) {
    forall i, j :: 0 <= i < j < |list| ==> !SameOpen(list[i], list[j])
  }

  const LEGAL_ATTRS := {BY_CHILD_CONTROLLER, BY_DRIVER, BY_DRIVER_EXCLUSIVE, EXCLUSIVE,
                       BY_HANDLE_PROTOCOL, GET_PROTOCOL, TEST_PROTOCOL}

  predicate Counted(list: seq<Info>) {
    forall i :: 0 <= i < |list| ==>
      list[i].count > 0 && list[i].agent != NO_HANDLE && list[i].attrs in LEGAL_ATTRS
  }

  // Entries are only removed: part is what is left of list, in order.
  predicate Remains(part: seq<Info>, list: seq<Info>) {
    if part == [] then true
    else if list == [] then false
    else if part[0] == list[0] && Remains(part[1..], list[1..]) then true
    else Remains(part, list[1..])
  }

  lemma {:induction false} RemainsMember(part: seq<Info>, list: seq<Info>, x: Info)
    requires Remains(part, list) && x in part
    ensures x in list && |part| <= |list|
  {
    if part[0] == list[0] && Remains(part[1..], list[1..]) {
      if x != part[0] {
        RemainsMember(part[1..], list[1..], x);
      } else if |part| > 1 {
        RemainsMember(part[1..], list[1..], part[1]);
      }
    } else {
      RemainsMember(part, list[1..], x);
    }
  }

  lemma {:induction false} RemainsKeeps(part: seq<Info>, list: seq<Info>)
    requires Remains(part, list)
    ensures |part| <= |list|
    ensures OneOwner(list) ==> OneOwner(part)
    ensures NoDuplicates(list) ==> NoDuplicates(part)
    ensures Counted(list) ==> Counted(part)
  {
    if part == [] {
    } else if part[0] == list[0] && Remains(part[1..], list[1..]) {
      RemainsKeeps(part[1..], list[1..]);
      forall j | 1 <= j < |part|
        ensures part[j] in list[1..]
      {
        assert part[j] in part[1..];
        RemainsMember(part[1..], list[1..], part[j]);
      }
    } else {
      RemainsKeeps(part, list[1..]);
    }
  }

  lemma {:induction false} RemainsTrans(a: seq<Info>, b: seq<Info>, c: seq<Info>)
    requires Remains(a, b) && Remains(b, c)
    ensures Remains(a, c)
    decreases |b| + |c|
  {
    if a == [] || b == [] {
    } else if b[0] == c[0] && Remains(b[1..], c[1..]) {
      if a[0] == b[0] && Remains(a[1..], b[1..]) {
        RemainsTrans(a[1..], b[1..], c[1..]);
      } else {
        RemainsTrans(a, b[1..], c[1..]);
      }
    } else {
      RemainsTrans(a, b, c[1..]);
    }
  }

  lemma {:induction false} RemainsRefl(list: seq<Info>)
    ensures Remains(list, list)
  {
    if list != [] {
      RemainsRefl(list[1..]);
    }
  }

  lemma {:induction false} RemainsShorter(part: seq<Info>, list: seq<Info>, x: Info)
    requires Remains(part, list) && x in list && x !in part
    ensures |part| < |list|
  {
    if part == [] {
    } else if part[0] == list[0] && Remains(part[1..], list[1..]) {
      RemainsShorter(part[1..], list[1..], x);
    } else {
      RemainsKeeps(part, list[1..]);
    }
  }

  // ---- The decisions of OpenProtocol ----

  predicate AlreadyOpen(list: seq<Info>, agent: Handle, attrs: nat) {
    HasDriver(attrs) && exists i :: 0 <= i < |list| && list[i].agent == agent && list[i].attrs == attrs
  }

  predicate AnyExclusive(list: seq<Info>) {
    exists i :: 0 <= i < |list| && HasExclusive(list[i].attrs)
  }

  predicate OtherDriver(list: seq<Info>, agent: Handle) {
    exists i :: 0 <= i < |list| && list[i].agent != agent && HasDriver(list[i].attrs)
  }

  predicate Blocked(list: seq<Info>, agent: Handle, attrs: nat) {
    if HasExclusive(attrs) then AnyExclusive(list)
    else HasDriver(attrs) && (AnyExclusive(list) || OtherDriver(list, agent))
  }

  // The argument checks, attribute by attribute.
  lemma ArgumentsMean(valid: set<Handle>, agent: Handle, controller: Handle, hasIntf: bool)
    ensures forall attrs :: attrs !in {0x01, 0x02, 0x04, 0x08, 0x10, 0x20, 0x30} ==>
      !GoodArguments(valid, agent, controller, attrs, hasIntf)
    ensures GoodArguments(valid, agent, controller, 0x01, hasIntf) <==> hasIntf
    ensures GoodArguments(valid, agent, controller, 0x02, hasIntf) <==> hasIntf
    ensures GoodArguments(valid, agent, controller, 0x04, hasIntf)
    ensures GoodArguments(valid, agent, controller, 0x08, hasIntf) <==>
      hasIntf && agent != controller && controller in valid && agent in valid
    ensures GoodArguments(valid, agent, controller, 0x10, hasIntf) <==> hasIntf && controller in valid && agent in valid
    ensures GoodArguments(valid, agent, controller, 0x20, hasIntf) <==> hasIntf && agent in valid
    ensures GoodArguments(valid, agent, controller, 0x30, hasIntf) <==> hasIntf && controller in valid && agent in valid
  {
  }

  // What stands in the way of an open, attribute by attribute: an open that is not for a driver and not
  // exclusive is never denied.
  lemma BlockedMeans(list: seq<Info>, agent: Handle)
    requires Counted(list)
    ensures forall attrs :: attrs in {0x01, 0x02, 0x04, 0x08} ==> !Blocked(list, agent, attrs)
    ensures Blocked(list, agent, 0x10) <==>
      (exists x :: x in list && (x.attrs == 0x20 || x.attrs == 0x30 || (x.agent != agent && x.attrs == 0x10)))
    ensures forall attrs :: attrs in {0x20, 0x30} ==>
      (Blocked(list, agent, attrs) <==> exists x :: x in list && (x.attrs == 0x20 || x.attrs == 0x30))
  {
    forall i | 0 <= i < |list|
      ensures HasExclusive(list[i].attrs) <==> list[i].attrs == 0x20 || list[i].attrs == 0x30
      ensures HasDriver(list[i].attrs) <==> list[i].attrs == 0x10 || list[i].attrs == 0x30
      ensures list[i] in list
    {
      LegalBits(list[i].attrs);
    }
    hide HasExclusive, HasDriver;
    LegalBits(0x01);
    LegalBits(0x02);
    LegalBits(0x04);
    LegalBits(0x08);
    LegalBits(0x10);
    LegalBits(0x20);
    LegalBits(0x30);
  }

  lemma LegalBits(attrs: nat)
    requires attrs in LEGAL_ATTRS
    ensures HasDriver(attrs) <==> attrs == 0x10 || attrs == 0x30
    ensures HasExclusive(attrs) <==> attrs == 0x20 || attrs == 0x30
  {
  }

  lemma AlreadyMeans(list: seq<Info>, agent: Handle, attrs: nat)
    requires attrs in LEGAL_ATTRS
    ensures AlreadyOpen(list, agent, attrs) <==>
      (attrs == 0x10 || attrs == 0x30) && exists x :: x in list && x.agent == agent && x.attrs == attrs
  {
    LegalBits(attrs);
    hide HasDriver;
    assert forall i :: 0 <= i < |list| ==> list[i] in list;
  }

  predicate NoDriver(list: seq<Info>) {
    forall i :: 0 <= i < |list| ==> list[i].attrs != BY_DRIVER
  }

  // Counting one more open: in the entry for the same open, or in a new one.
  predicate Recorded(list: seq<Info>, more: seq<Info>, x: Info) {
    || (more == list + [x.(count := 1)] && forall i :: 0 <= i < |list| ==> !SameOpen(list[i], x))
    || (exists i :: 0 <= i < |list| && SameOpen(list[i], x) && more == list[i := x.(count := list[i].count + 1)])
  }

  // How often an open is recorded.
  // How often an agent has the interface open for a controller with these attributes.
  function Opens(list: seq<Info>, x: Info): nat {
    if list == [] then 0 else (if SameOpen(list[0], x) then list[0].count else 0) + Opens(list[1..], x)
  }

  lemma {:induction false} OpensJoin(a: seq<Info>, b: seq<Info>, x: Info)
    ensures Opens(a + b, x) == Opens(a, x) + Opens(b, x)
  {
    if a == [] {
      assert a + b == b;
    } else {
      assert (a + b)[1..] == a[1..] + b;
      OpensJoin(a[1..], b, x);
    }
  }

  lemma OpensHead(x: Info, rest: seq<Info>, y: Info)
    ensures Opens([x] + rest, y) == (if SameOpen(x, y) then x.count else 0) + Opens(rest, y)
  {
    assert ([x] + rest)[1..] == rest;
  }

  lemma SameMeans(x: Info, y: Info)
    ensures SameOpen(x, y) <==> x.agent == y.agent && x.controller == y.controller && x.attrs == y.attrs
  {
  }

  lemma SameShared(x: Info, y: Info, z: Info)
    requires SameOpen(x, y)
    ensures SameOpen(x, z) <==> SameOpen(y, z)
  {
  }

  lemma OpensChanged(list: seq<Info>, i: nat, z: Info, y: Info)
    requires i < |list| && SameOpen(list[i], z)
    ensures Opens(list[i := z], y) == Opens(list, y) + if SameOpen(z, y) then z.count - list[i].count else 0
  {
    hide Opens, SameOpen;
    var front, back := list[..i], list[i + 1..];
    assert list == front + ([list[i]] + back) && list[i := z] == front + ([z] + back);
    SameShared(list[i], z, y);
    OpensJoin(front, [list[i]] + back, y);
    OpensJoin(front, [z] + back, y);
    OpensHead(list[i], back, y);
    OpensHead(z, back, y);
  }

  lemma OpensAdded(list: seq<Info>, z: Info, y: Info)
    ensures Opens(list + [z], y) == Opens(list, y) + if SameOpen(z, y) then z.count else 0
  {
    hide SameOpen;
    OpensJoin(list, [z], y);
    assert [z][1..] == [];
  }

  // Recording an open counts one more of it, and none of another.
  lemma OpensRecorded(list: seq<Info>, more: seq<Info>, x: Info, y: Info)
    requires Recorded(list, more, x)
    ensures Opens(more, y) ==
            Opens(list, y) + if x.agent == y.agent && x.controller == y.controller && x.attrs == y.attrs then 1 else 0
  {
    SameMeans(x, y);
    if more == list + [x.(count := 1)] {
      OpensAdded(list, x.(count := 1), y);
    } else {
      var i :| 0 <= i < |list| && SameOpen(list[i], x) && more == list[i := x.(count := list[i].count + 1)];
      var z := x.(count := list[i].count + 1);
      hide Opens;
      OpensChanged(list, i, z, y);
    }
  }

  // Closing leaves none of the opens of that agent and controller, and all others.
  lemma {:induction false} OpensClosed(list: seq<Info>, agent: Handle, controller: Handle, y: Info)
    ensures Opens(Without(list, agent, controller), y) ==
      if y.agent == agent && y.controller == controller then 0 else Opens(list, y)
  {
    if list != [] {
      OpensClosed(list[1..], agent, controller, y);
      var w := Without(list, agent, controller);
      if list[0].agent != agent || list[0].controller != controller {
        assert w[1..] == Without(list[1..], agent, controller);
      }
    }
  }

  lemma RecordKeeps(list: seq<Info>, more: seq<Info>, x: Info)
    requires OneOwner(list) && NoDuplicates(list) && Counted(list) && x.agent != NO_HANDLE
    requires Recorded(list, more, x) && x.attrs in LEGAL_ATTRS
    requires Owns(x.attrs) ==> forall i :: 0 <= i < |list| ==> Owns(list[i].attrs) ==> SameOpen(list[i], x)
    ensures OneOwner(more) && NoDuplicates(more) && Counted(more)
  {
  }

  // A driver or exclusive open that gets past the checks finds no owner left.
  lemma NoOwnerLeft(list: seq<Info>, rest: seq<Info>, agent: Handle, attrs: nat)
    requires attrs in {BY_DRIVER, BY_DRIVER_EXCLUSIVE, EXCLUSIVE}
    requires !AlreadyOpen(list, agent, attrs) && !Blocked(list, agent, attrs)
    requires Remains(rest, list) && (HasExclusive(attrs) ==> NoDriver(rest)) && (!HasExclusive(attrs) ==> rest == list)
    requires Counted(list)
    ensures forall i :: 0 <= i < |rest| ==> !Owns(rest[i].attrs)
  {
    forall i | 0 <= i < |rest|
      ensures !Owns(rest[i].attrs)
    {
      assert rest[i] in rest;
      RemainsMember(rest, list, rest[i]);
      var j :| 0 <= j < |list| && list[j] == rest[i];
    }
  }

  // What closing by agent and controller leaves.
  function Without(list: seq<Info>, agent: Handle, controller: Handle): seq<Info> {
    if list == [] then []
    else if list[0].agent == agent && list[0].controller == controller then Without(list[1..], agent, controller)
    else [list[0]] + Without(list[1..], agent, controller)
  }

  lemma {:induction false} WithoutRemains(list: seq<Info>, agent: Handle, controller: Handle)
    ensures Remains(Without(list, agent, controller), list)
    ensures forall x :: x in Without(list, agent, controller) <==>
      x in list && !(x.agent == agent && x.controller == controller)
  {
    if list != [] {
      WithoutRemains(list[1..], agent, controller);
      var w := Without(list, agent, controller);
      if list[0].agent != agent || list[0].controller != controller {
        assert w[1..] == Without(list[1..], agent, controller);
      }
      forall x
        ensures x in w <==> x in list && !(x.agent == agent && x.controller == controller)
      {
        assert x in list <==> x == list[0] || x in list[1..];
      }
    }
  }

  lemma WithoutHead(list: seq<Info>, agent: Handle, controller: Handle)
    requires list != []
    ensures Without(list, agent, controller) ==
      (if list[0].agent == agent && list[0].controller == controller then [] else [list[0]])
      + Without(list[1..], agent, controller)
  {
  }

  lemma {:induction false} WithoutSplit(a: seq<Info>, b: seq<Info>, agent: Handle, controller: Handle)
    ensures Without(a + b, agent, controller) == Without(a, agent, controller) + Without(b, agent, controller)
  {
    if a == [] {
      assert a + b == b;
    } else {
      WithoutSplit(a[1..], b, agent, controller);
      assert (a + b)[0] == a[0] && (a + b)[1..] == a[1..] + b;
      WithoutHead(a, agent, controller);
      WithoutHead(a + b, agent, controller);
      hide Without;
    }
  }

  predicate HasOpen(list: seq<Info>, agent: Handle, controller: Handle) {
    exists x :: x in list && x.agent == agent && x.controller == controller
  }

  // One step of the removal loop: the part behind `done` starts with x.
  lemma WithoutStep(before: seq<Info>, i: nat, agent: Handle, controller: Handle)
    requires i < |before|
    ensures var x := before[i];
      && Without(before[..i + 1], agent, controller) == Without(before[..i], agent, controller) +
           (if x.agent == agent && x.controller == controller then [] else [x])
      && (HasOpen(before[..i + 1], agent, controller) <==>
            HasOpen(before[..i], agent, controller) || (x.agent == agent && x.controller == controller))
  {
    WithoutSplit(before[..i], [before[i]], agent, controller);
    assert before[..i + 1] == before[..i] + [before[i]];
    assert before[i] in before[..i + 1];
  }

  // The entry behind the kept ones, and the list without it.
  lemma TakeFirst(kept: seq<Info>, before: seq<Info>, i: nat)
    requires i < |before|
    ensures var list := kept + before[i..];
      && list[|kept|] == before[i]
      && list[..|kept|] + list[|kept| + 1..] == kept + before[i + 1..]
      && list == (kept + [before[i]]) + before[i + 1..]
  {
  }

  lemma EmptyWithout(before: seq<Info>, agent: Handle, controller: Handle)
    ensures before[..0] == [] && Without([], agent, controller) == [] && !HasOpen([], agent, controller)
  {
  }

  datatype Request =
    | OpenRequest(handleOk: bool, found: bool, hasIntf: bool, agent: Handle, controller: Handle, attrs: nat,
                  memory: bool, node: bool)
    | CloseRequest(handleOk: bool, found: bool, agent: Handle, controller: Handle)

  // A call of a driver's Stop: the open list it found, the open it was to give up, the number of the
  // call, and what it left.
  datatype StopCall = StopCall(list: seq<Info>, controller: Handle, agent: Handle, number: nat, left: Option<seq<Info>>)

  predicate Refusal(calls: seq<StopCall>) {
    exists i :: 0 <= i < |calls| && calls[i].left.None?
  }

  // The call asks a driver to give up its open.
  predicate ForDriver(c: StopCall) {
    exists x :: x in c.list && x.agent == c.agent && x.controller == c.controller && x.attrs == 0x10
  }

  lemma OneMoreCall(a: seq<StopCall>, b: seq<StopCall>, c: seq<StopCall>)
    requires a <= b && |c| == |b| + 1 && c[..|b|] == b
    ensures a <= c && (Refusal(c[|a|..]) <==> Refusal(b[|a|..]) || c[|b|].left.None?)
  {
    var x, y := b[|a|..], c[|a|..];
    assert y == x + [c[|b|]];
    if Refusal(x) {
      var i :| 0 <= i < |x| && x[i].left.None?;
      assert y[i].left.None?;
    }
    if c[|b|].left.None? {
      assert y[|x|].left.None?;
    }
  }

  // efi_interface_entry with its open list.  `stop` stands for disconnecting a driver:
  // None when its Stop function fails, otherwise the list it leaves.
  class InterfaceEntry {
    const stop: (seq<Info>, Handle, Handle, nat) -> Option<seq<Info>>
    var openList: seq<Info>
    var calls: nat
    // The calls of Stop functions so far.
    ghost var stopped: seq<StopCall>

    // A failing Stop changes nothing; a successful one closes that driver's opens on
    // that controller and opens nothing.
    ghost predicate WellBehaved() {
      forall list, controller, agent, n ::
        var left := stop(list, controller, agent, n);
        left.Some? ==>
          && Remains(left.value, list)
          && (forall x :: x in left.value ==> !(x.agent == agent && x.controller == controller))
    }

    ghost predicate Inv()
      reads this
    {
      && WellBehaved() && OneOwner(openList) && NoDuplicates(openList) && Counted(openList)
      && calls == |stopped|
      && forall i :: 0 <= i < |stopped| ==> Genuine(i, stopped[i])
    }

    ghost predicate Genuine(i: nat, c: StopCall) {
      c.number == i && c.left == stop(c.list, c.controller, c.agent, i)
    }

    method Disconnect(controller: Handle, agent: Handle) returns (ok: bool)
      requires Inv() && exists x :: x in openList && x.agent == agent && x.controller == controller
      modifies this
      ensures Inv() && Remains(openList, old(openList))
      ensures if ok then |openList| < |old(openList)| else openList == old(openList)
      ensures |stopped| == |old(stopped)| + 1 && stopped[..|old(stopped)|] == old(stopped)
      ensures var c := stopped[|old(stopped)|];
        c.list == old(openList) && c.controller == controller && c.agent == agent && (ok <==> c.left.Some?)
    {
      var left := stop(openList, controller, agent, calls);
      stopped := stopped + [StopCall(openList, controller, agent, calls, left)];
      calls := calls + 1;
      ok := left.Some?;
      RemainsRefl(openList);
      if ok {
        var x :| x in openList && x.agent == agent && x.controller == controller;
        RemainsShorter(left.value, openList, x);
        RemainsKeeps(left.value, openList);
        openList := left.value;
      }
    }

    // The loop of an exclusive open over the drivers in the way: after every success it
    // starts again from the front.
    method DisconnectDrivers() returns (busy: bool)
      requires Inv()
      modifies this
      ensures Inv() && Remains(openList, old(openList))
      ensures !busy ==> NoDriver(openList)
      ensures forall i :: |old(stopped)| <= i < |stopped| ==> ForDriver(stopped[i])
      ensures old(stopped) <= stopped && (busy <==> Refusal(stopped[|old(stopped)|..]))
    {
      hide Genuine;
      busy := false;
      RemainsRefl(openList);
      var l := 0;
      while l < |openList|
        invariant Inv() && Remains(openList, old(openList)) && l <= |openList|
        invariant old(stopped) <= stopped && (busy <==> Refusal(stopped[|old(stopped)|..]))
        invariant !busy ==> forall i :: 0 <= i < l ==> openList[i].attrs != BY_DRIVER
        invariant forall i :: |old(stopped)| <= i < |stopped| ==> ForDriver(stopped[i])
        decreases |openList|, |openList| - l
      {
        var n := l + 1;
        var info := openList[l];
        if info.attrs == BY_DRIVER {
          ghost var before, was := openList, stopped;
          assert info in openList;
          var ok := Disconnect(info.controller, info.agent);
          RemainsTrans(openList, before, old(openList));
          OneMoreCall(old(stopped), was, stopped);
          assert ForDriver(stopped[|was|]);
          if !ok {
            busy := true;
          } else {
            n := 0;
          }
        }
        l := n;
      }
    }

    // The scan over the open list.
    method Scan(agent: Handle, attrs: nat) returns (already: bool, byDriver: bool, exclusive: bool)
      ensures already <==> AlreadyOpen(openList, agent, attrs)
      ensures !already ==> byDriver == OtherDriver(openList, agent) && exclusive == AnyExclusive(openList)
    {
      hide HasDriver, HasExclusive;
      already, byDriver, exclusive := false, false, false;
      for i := 0 to |openList|
        invariant !already
        invariant HasDriver(attrs) ==>
          forall j :: 0 <= j < i ==> !(openList[j].agent == agent && openList[j].attrs == attrs)
        invariant byDriver <==> exists j :: 0 <= j < i && openList[j].agent != agent && HasDriver(openList[j].attrs)
        invariant exclusive <==> exists j :: 0 <= j < i && HasExclusive(openList[j].attrs)
      {
        var info := openList[i];
        if info.agent == agent {
          if HasDriver(attrs) && info.attrs == attrs {
            return true, byDriver, exclusive;
          }
        } else if HasDriver(info.attrs) {
          byDriver := true;
        }
        if HasExclusive(info.attrs) {
          exclusive := true;
        }
      }
    }

    // Counting the open; the entry found is the last one that matches.
    method Record(x: Info, memory: bool, node: bool) returns (result: Result)
      requires Inv() && x.agent != NO_HANDLE && x.attrs in LEGAL_ATTRS
      requires Owns(x.attrs) ==> forall i :: 0 <= i < |openList| ==> !Owns(openList[i].attrs)
      modifies this`openList
      ensures Inv() && result in {Success, OutOfResources}
      ensures result == OutOfResources <==> !memory && !Listed(old(openList), x)
      ensures result == OutOfResources ==> openList == old(openList)
      ensures result == Success ==>
        if node || Listed(old(openList), x) then Recorded(old(openList), openList, x) else openList == old(openList)
    {
      hide HasDriver, HasExclusive;
      var data := -1;
      for i := 0 to |openList|
        invariant -1 <= data < i
        invariant data >= 0 ==> SameOpen(openList[data], x)
        invariant data == -1 ==> forall j :: 0 <= j < i ==> !SameOpen(openList[j], x)
      {
        if SameOpen(openList[i], x) {
          data := i;
        }
      }
      ghost var before := openList;
      if data == -1 {
        if !memory {
          return OutOfResources;
        }
        if !node {
          return Success;
        }
        openList := openList + [x.(count := 1)];
      } else {
        openList := openList[data := x.(count := openList[data].count + 1)];
        assert SameOpen(before[data], x);
      }
      RecordKeeps(before, openList, x);
      result := Success;
    }

    // efi_open_protocol_impl.  `valid` are the valid handles; `found` says whether the
    // handle carries the protocol; the two memory flags say whether the entry and its
    // list node can be allocated.
    method Open(valid: set<Handle>, handleOk: bool, found: bool, hasIntf: bool, agent: Handle, controller: Handle,
                attrs: nat, memory: bool, node: bool)
      returns (result: Result, ghost rest: seq<Info>)
      requires Inv() && NO_HANDLE !in valid
      modifies this
      ensures Inv() && Remains(rest, old(openList)) && (!HasExclusive(attrs) ==> rest == old(openList))
      ensures old(stopped) <= stopped && forall i :: |old(stopped)| <= i < |stopped| ==> ForDriver(stopped[i])
      ensures stopped != old(stopped) ==>
        HasExclusive(attrs) && result !in {InvalidParameter, Unsupported, AlreadyStarted}
      ensures var good := handleOk && GoodArguments(valid, agent, controller, attrs, hasIntf);
        var already := AlreadyOpen(old(openList), agent, attrs);
        var blocked := Blocked(old(openList), agent, attrs);
        var refused := HasExclusive(attrs) && Refusal(stopped[|old(stopped)|..]);
        var passes := good && found && agent != NO_HANDLE && !already && !blocked && !refused;
        && (result == InvalidParameter <==> !good)
        && (result == Unsupported <==> good && !found)
        && (result == AlreadyStarted <==> good && found && agent != NO_HANDLE && already)
        && (result == AccessDenied <==> good && found && agent != NO_HANDLE && !already && (blocked || refused))
        && (result == OutOfResources <==> passes && !memory && !Listed(rest, Info(agent, controller, attrs, 1)))
        && result != NotFound
        && (result != Success && (!HasExclusive(attrs) || blocked) ==> openList == old(openList))
      // The denials, attribute by attribute.
      ensures result == AccessDenied ==> attrs == 0x10 || attrs == 0x20 || attrs == 0x30
      ensures result !in {InvalidParameter, Unsupported, AlreadyStarted} ==>
        && (attrs == 0x10 ==> (result == AccessDenied <==>
              (exists x :: x in old(openList) && (x.attrs == 0x20 || x.attrs == 0x30)) ||
              (exists x :: x in old(openList) && x.agent != agent && x.attrs == 0x10)))
        && (attrs == 0x20 || attrs == 0x30 ==> (result == AccessDenied <==>
              (exists x :: x in old(openList) && (x.attrs == 0x20 || x.attrs == 0x30)) ||
              (exists c :: c in stopped[|old(stopped)|..] && c.left.None?)))
      ensures result == Success && agent == NO_HANDLE ==> openList == old(openList)
      ensures result == Success && agent != NO_HANDLE ==>
        var x := Info(agent, controller, attrs, 1);
        if node || Listed(rest, x) then Recorded(rest, openList, x) else openList == rest
      ensures result == Success && agent != NO_HANDLE && Owns(attrs) ==>
        forall i :: 0 <= i < |rest| ==> !Owns(rest[i].attrs)
    {
      hide HasDriver, HasExclusive, Remains, Recorded;
      rest := openList;
      RemainsRefl(openList);
      BlockedMeans(openList, agent);
      if attrs in LEGAL_ATTRS {
        LegalBits(attrs);
      }
      if !handleOk || !GoodArguments(valid, agent, controller, attrs, hasIntf) {
        return InvalidParameter, rest;
      }
      if !found {
        return Unsupported, rest;
      }
      if agent == NO_HANDLE {
        return Success, rest;
      }
      var byDriver, exclusive := false, false;
      if hasIntf {
        var already;
        already, byDriver, exclusive := Scan(agent, attrs);
        if already {
          return AlreadyStarted, rest;
        }
      }
      if HasExclusive(attrs) {
        if exclusive {
          return AccessDenied, rest;
        }
      } else if HasDriver(attrs) {
        if exclusive || byDriver {
          return AccessDenied, rest;
        }
      }
      if HasExclusive(attrs) {
        byDriver := DisconnectDrivers();
        rest := openList;
        if byDriver {
          return AccessDenied, rest;
        }
      }
      if Owns(attrs) {
        NoOwnerLeft(old(openList), rest, agent, attrs);
      }
      result := Record(Info(agent, controller, attrs, 1), memory, node);
    }

    // efi_close_protocol_impl
    method Close(valid: set<Handle>, handleOk: bool, found: bool, agent: Handle, controller: Handle)
      returns (result: Result)
      requires Inv()
      modifies this`openList
      ensures Inv()
      ensures var good := handleOk && agent in valid && (controller != NO_HANDLE ==> controller in valid);
        && (result == InvalidParameter <==> !good)
        && (result == Success <==> good && found && HasOpen(old(openList), agent, controller))
        && openList == (if good && found then Without(old(openList), agent, controller) else old(openList))
    {
      if !handleOk || agent !in valid {
        return InvalidParameter;
      }
      if controller != NO_HANDLE && controller !in valid {
        return InvalidParameter;
      }
      if !found {
        return NotFound;
      }
      ghost var before := openList;
      var removed := RemoveOpens(agent, controller);
      WithoutRemains(before, agent, controller);
      RemainsKeeps(openList, before);
      result := if removed then Success else NotFound;
    }

    // The loop of efi_close_protocol_impl.
    method RemoveOpens(agent: Handle, controller: Handle) returns (removed: bool)
      modifies this`openList
      ensures openList == Without(old(openList), agent, controller)
      ensures removed == HasOpen(old(openList), agent, controller)
    {
      hide Without, HasOpen;
      removed := false;
      ghost var before := openList;
      ghost var i: nat := 0;
      ghost var kept: seq<Info> := [];
      var l := 0;
      EmptyWithout(before, agent, controller);
      while l < |openList|
        invariant i <= |before| && kept == Without(before[..i], agent, controller)
        invariant l == |kept| && openList == kept + before[i..]
        invariant removed == HasOpen(before[..i], agent, controller)
        decreases |openList| - l
      {
        WithoutStep(before, i, agent, controller);
        TakeFirst(kept, before, i);
        var info := openList[l];
        if info.agent == agent && info.controller == controller {
          openList := openList[..l] + openList[l + 1..];
          removed := true;
        } else {
          l := l + 1;
          kept := kept + [info];
        }
        i := i + 1;
      }
      assert before[..i] == before;
    }

    // An open that succeeds without being recorded: two agents both get the interface as its driver.
    method TwoDrivers(first: Handle, second: Handle, controller: Handle) returns (r1: Result, r2: Result)
      requires Inv() && openList == [] && first != second
      requires first != NO_HANDLE && second != NO_HANDLE && controller != NO_HANDLE
      modifies this
      ensures r1 == Success && r2 == Success && openList == []
    {
      ghost var rest;
      r1, rest := Open({first, second, controller}, true, true, true, first, controller, BY_DRIVER, true, false);
      r2, rest := Open({first, second, controller}, true, true, true, second, controller, BY_DRIVER, true, false);
    }

    // Over any sequence of opens and closes, whatever the arguments, the outcomes of the drivers'
    // Stop functions and the allocations: at most one owner, and no open recorded twice.
    method Run(valid: set<Handle>, requests: seq<Request>)
      requires Inv() && NO_HANDLE !in valid
      modifies this
      ensures OneOwner(openList) && NoDuplicates(openList) && Counted(openList)
    {
      for i := 0 to |requests|
        invariant Inv()
      {
        match requests[i] {
          case OpenRequest(handleOk, found, hasIntf, agent, controller, attrs, memory, node) =>
            var result, rest := Open(valid, handleOk, found, hasIntf, agent, controller, attrs, memory, node);
          case CloseRequest(handleOk, found, agent, controller) =>
            var result := Close(valid, handleOk, found, agent, controller);
        }
      }
    }
  }
}
