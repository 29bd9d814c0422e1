// Device paths: nodes laid end to end in memory, each with a type byte, a sub-type byte, a 16-bit
// little-endian length and a body, closed by an end node. The methods walk and build bytes; the
// specification is the list of nodes those bytes spell.
module DevicePath {
  import opened Options

  type Byte = n: nat | n < 256

  const HEADER: nat := 4
  const END_TYPE: Byte := 0x7F
  const END_ENTIRE: Byte := 0xFF
  const END_INSTANCE: Byte := 0x01
  const MEDIA: Byte := 0x04
  const FILEPATH: Byte := 0x04
  const UINTN_MAX: nat := 0xFFFF_FFFF_FFFF_FFFF
  const END_BYTES: seq<Byte> := [END_TYPE, END_ENTIRE, 4, 0]

  // ---- paths as lists of nodes ----

  datatype RawNode = Node(kind: Byte, sub: Byte, body: seq<Byte>)

  // The length field holds header and body in 16 bits.
  type PathNode = n: RawNode | |n.body| <= 0xFFFB witness Node(0, 0, [])

  function NodeBytes(n: PathNode): (r: seq<Byte>)
    ensures |r| == HEADER + |n.body|
  {
    var length := HEADER + |n.body|;
    [n.kind, n.sub, length % 256, length / 256] + n.body
  }

  // A node that can stand inside a path: not the closing node, and a file path ends in a zero char16.
  predicate Proper(n: PathNode) {
    && !(n.kind == END_TYPE && n.sub == END_ENTIRE)
    && (n.kind == MEDIA && n.sub == FILEPATH ==>
      NodeBytes(n)[HEADER + |n.body| - 2] == 0 && NodeBytes(n)[HEADER + |n.body| - 1] == 0)
  }

  predicate AllProper(ns: seq<PathNode>) {
    forall i :: 0 <= i < |ns| ==> Proper(ns[i])
  }

  function Encode(ns: seq<PathNode>): seq<Byte> {
    if ns == [] then [] else NodeBytes(ns[0]) + Encode(ns[1..])
  }

  function PathBytes(ns: seq<PathNode>): (r: seq<Byte>)
    ensures |r| >= HEADER
  {
    Encode(ns) + END_BYTES
  }

  lemma {:induction false} EncodeJoin(a: seq<PathNode>, b: seq<PathNode>)
    ensures Encode(a + b) == Encode(a) + Encode(b)
  {
    if a == [] {
      assert a + b == b;
    } else {
      assert (a + b)[0] == a[0] && (a + b)[1..] == a[1..] + b;
      EncodeJoin(a[1..], b);
    }
  }

  // ---- reading nodes from memory ----

  function LengthAt(b: seq<Byte>, at: nat): nat
    requires at + HEADER <= |b|
  {
    var low: nat, high: nat := b[at + 2], b[at + 3];
    low + 256 * high
  }

  predicate EndTypeAt(b: seq<Byte>, at: nat)
    requires at + HEADER <= |b|
  {
    b[at] == END_TYPE
  }

  predicate EndAt(b: seq<Byte>, at: nat)
    requires at + HEADER <= |b|
  {
    EndTypeAt(b, at) && b[at + 1] == END_ENTIRE
  }

  // A file-path node whose last char16 is not zero; that char16 may be the length field itself.
  predicate BadFileAt(b: seq<Byte>, at: nat)
    requires at + HEADER <= |b| && HEADER <= LengthAt(b, at) && at + LengthAt(b, at) <= |b|
  {
    && b[at] == MEDIA && b[at + 1] == FILEPATH
    && !(b[at + LengthAt(b, at) - 2] == 0 && b[at + LengthAt(b, at) - 1] == 0)
  }

  function NodeAt(b: seq<Byte>, at: nat): PathNode
    requires at + HEADER <= |b| && HEADER <= LengthAt(b, at) && at + LengthAt(b, at) <= |b|
  {
    Node(b[at], b[at + 1], b[at + HEADER..at + LengthAt(b, at)])
  }

  // The nodes of the path starting at a place in memory, if a well-formed path starts there.
  function Nodes(b: seq<Byte>, at: nat): Option<seq<PathNode>>
    decreases |b| - at
  {
    if at + HEADER > |b| then None
    else if EndAt(b, at) then (if LengthAt(b, at) == HEADER then Some([]) else None)
    else if LengthAt(b, at) < HEADER || at + LengthAt(b, at) > |b| || BadFileAt(b, at) then None
    else
      match Nodes(b, at + LengthAt(b, at))
      case None => None
      case Some(rest) => Some([NodeAt(b, at)] + rest)
  }

  // Known bytes and what they spell: the empty path, a closing node with a wrong length, and one node of six
  // bytes in front of a closing node. Only a file path has to end in a zero char16.
  lemma KnownPaths(kind: Byte, sub: Byte, x: Byte, y: Byte)
    ensures Nodes([0x7F, 0xFF, 4, 0], 0) == Some([]) && Nodes([0x7F, 0xFF, 5, 0, 0], 0) == None
    ensures Nodes([kind, sub, 6, 0, x, y, 0x7F, 0xFF, 4, 0], 0) ==
            if (kind == 0x7F && sub == 0xFF) || (kind == 4 && sub == 4 && !(x == 0 && y == 0)) then None
            else Some([Node(kind, sub, [x, y])])
  {
    var b := [kind, sub, 6, 0, x, y, 0x7F, 0xFF, 4, 0];
    assert LengthAt(b, 0) == 6 && NodeAt(b, 0) == Node(kind, sub, [x, y]);
    assert EndAt(b, 6) && LengthAt(b, 6) == HEADER;
    assert Nodes(b, 6) == Some([]);
    assert [NodeAt(b, 0)] + [] == [NodeAt(b, 0)];
  }

  // A walk that follows length fields from here stops, at an end or a malformed node, inside memory.
  ghost predicate Readable(b: seq<Byte>, at: nat)
    decreases |b| - at
  {
    && at + HEADER <= |b|
    && (EndAt(b, at) || LengthAt(b, at) < HEADER ||
      (at + LengthAt(b, at) <= |b| && (BadFileAt(b, at) || Readable(b, at + LengthAt(b, at)))))
  }

  // Memory from a place on spells these nodes and the closing node.
  ghost predicate Spells(b: seq<Byte>, at: nat, ns: seq<PathNode>) {
    && AllProper(ns)
    && at + |PathBytes(ns)| <= |b|
    && b[at..at + |PathBytes(ns)|] == PathBytes(ns)
  }

  lemma NodeAtBytes(b: seq<Byte>, at: nat, n: PathNode)
    requires at + |NodeBytes(n)| <= |b| && b[at..at + |NodeBytes(n)|] == NodeBytes(n)
    ensures LengthAt(b, at) == |NodeBytes(n)| && NodeAt(b, at) == n
    ensures Proper(n) ==> !EndAt(b, at) && !BadFileAt(b, at)
  {
    var m := b[at..at + |NodeBytes(n)|];
    assert forall i :: 0 <= i < |m| ==> b[at + i] == m[i];
    assert b[at + HEADER..at + |NodeBytes(n)|] == m[HEADER..] == n.body;
  }

  lemma NodeBytesAt(b: seq<Byte>, at: nat)
    requires at + HEADER <= |b| && HEADER <= LengthAt(b, at) && at + LengthAt(b, at) <= |b|
    ensures NodeBytes(NodeAt(b, at)) == b[at..at + LengthAt(b, at)]
    ensures Proper(NodeAt(b, at)) <==> !EndAt(b, at) && !BadFileAt(b, at)
  {
    var m := b[at..at + LengthAt(b, at)];
    assert |NodeBytes(NodeAt(b, at))| == |m|;
    assert forall i :: 0 <= i < |m| ==> b[at + i] == m[i] == NodeBytes(NodeAt(b, at))[i];
  }

  // Reading inverts writing, and nothing else reads as these nodes.
  lemma {:induction false} NodesExact(b: seq<Byte>, at: nat, ns: seq<PathNode>)
    ensures Nodes(b, at) == Some(ns) <==> Spells(b, at, ns)
    decreases |b| - at, |ns|
  {
    if Nodes(b, at) == Some(ns) {
      NodesSpell(b, at);
    }
    if Spells(b, at, ns) {
      SpellsNodes(b, at, ns);
    }
  }

  lemma Slices(b: seq<Byte>, at: nat, n: nat, k: nat)
    requires at + n <= |b| && k <= n
    ensures b[at..at + n][..k] == b[at..at + k] && b[at..at + n][k..] == b[at + k..at + n]
  {
  }

  lemma SpellsProper(b: seq<Byte>, at: nat, ns: seq<PathNode>)
    requires Spells(b, at, ns) && ns != []
    ensures Proper(ns[0])
  {
  }

  lemma SpellsFirst(b: seq<Byte>, at: nat, ns: seq<PathNode>)
    requires Spells(b, at, ns) && ns != []
    ensures at + |NodeBytes(ns[0])| <= |b|
    ensures b[at..at + |NodeBytes(ns[0])|] == NodeBytes(ns[0])
    ensures Spells(b, at + |NodeBytes(ns[0])|, ns[1..])
  {
    var k := |NodeBytes(ns[0])|;
    var m := b[at..at + |PathBytes(ns)|];
    assert PathBytes(ns) == NodeBytes(ns[0]) + PathBytes(ns[1..]);
    assert m[..k] == NodeBytes(ns[0]) && m[k..] == PathBytes(ns[1..]);
    Slices(b, at, |m|, k);
  }

  // The closing node reads as a path of no nodes.
  lemma SpellsNone(b: seq<Byte>, at: nat)
    requires Spells(b, at, [])
    ensures Nodes(b, at) == Some([])
  {
    var m := b[at..at + HEADER];
    assert m == END_BYTES;
    assert forall i :: 0 <= i < HEADER ==> b[at + i] == m[i];
  }

  // One node in front of a path reads as that node in front of the path's nodes.
  lemma NodesCons(b: seq<Byte>, at: nat, n: PathNode, rest: seq<PathNode>)
    requires Proper(n) && at + |NodeBytes(n)| <= |b| && b[at..at + |NodeBytes(n)|] == NodeBytes(n)
    requires Nodes(b, at + |NodeBytes(n)|) == Some(rest)
    ensures Nodes(b, at) == Some([n] + rest)
  {
    NodeAtBytes(b, at, n);
    hide NodeBytes, Proper, NodeAt, LengthAt, EndAt, BadFileAt;
  }

  lemma {:induction false} SpellsNodes(b: seq<Byte>, at: nat, ns: seq<PathNode>)
    requires Spells(b, at, ns)
    ensures Nodes(b, at) == Some(ns)
    decreases |ns|
  {
    if ns == [] {
      SpellsNone(b, at);
    } else {
      hide *;
      SpellsFirst(b, at, ns);
      SpellsProper(b, at, ns);
      SpellsNodes(b, at + |NodeBytes(ns[0])|, ns[1..]);
      NodesCons(b, at, ns[0], ns[1..]);
      assert [ns[0]] + ns[1..] == ns;
    }
  }

  lemma PathCons(n: PathNode, rest: seq<PathNode>)
    ensures PathBytes([n] + rest) == NodeBytes(n) + PathBytes(rest)
    ensures Proper(n) && AllProper(rest) ==> AllProper([n] + rest)
  {
    hide NodeBytes, Proper;
    var ns := [n] + rest;
    assert ns[0] == n && ns[1..] == rest;
  }

  lemma SpellsCons(b: seq<Byte>, at: nat, n: PathNode, rest: seq<PathNode>)
    requires Proper(n) && at + |NodeBytes(n)| <= |b|
    requires b[at..at + |NodeBytes(n)|] == NodeBytes(n)
    requires Spells(b, at + |NodeBytes(n)|, rest)
    ensures Spells(b, at, [n] + rest)
  {
    hide NodeBytes, Proper, PathBytes, AllProper;
    var k := |NodeBytes(n)|;
    PathCons(n, rest);
    Slices(b, at, k + |PathBytes(rest)|, k);
    var m := b[at..at + k + |PathBytes(rest)|];
    assert m == m[..k] + m[k..];
  }

  lemma {:induction false} NodesSpell(b: seq<Byte>, at: nat)
    requires Nodes(b, at).Some?
    ensures Spells(b, at, Nodes(b, at).value)
    decreases |b| - at
  {
    if EndAt(b, at) {
      assert b[at..at + HEADER] == END_BYTES;
      assert PathBytes([]) == END_BYTES;
    } else {
      var k := LengthAt(b, at);
      NodesSpell(b, at + k);
      NodeBytesAt(b, at);
      hide Spells, NodeBytes, Proper, NodeAt;
      SpellsCons(b, at, NodeAt(b, at), Nodes(b, at + k).value);
    }
  }

  lemma {:induction false} NodesReadable(b: seq<Byte>, at: nat)
    requires Nodes(b, at).Some?
    ensures Readable(b, at)
    decreases |b| - at
  {
    if !EndAt(b, at) {
      NodesReadable(b, at + LengthAt(b, at));
    }
  }

  // ---- pointers ----

  datatype Pointer = Null | At(mem: array<Byte>, at: nat)

  // What the caller of a walk without a size limit must guarantee: it stops inside memory, which is
  // smaller than the address space.
  ghost predicate Walkable(p: Pointer)
    reads if p.At? then {p.mem} else {}
  {
    p.At? ==> Readable(p.mem[..], p.at) && p.mem.Length <= UINTN_MAX
  }

  function Path(p: Pointer): Option<seq<PathNode>>
    reads if p.At? then {p.mem} else {}
  {
    if p.Null? then None else Nodes(p.mem[..], p.at)
  }

  // Memory with a run of bytes written at a place.
  function Written(b: seq<Byte>, at: nat, x: seq<Byte>): (r: seq<Byte>)
    requires at + |x| <= |b|
    ensures |r| == |b|
  {
    b[..at] + x + b[at + |x|..]
  }

  // Copies a run of bytes; the memory is otherwise as it was.
  method Copy(to: array<Byte>, at: nat, from: array<Byte>, start: nat, n: nat)
    requires at + n <= to.Length && start + n <= from.Length && to != from
    modifies to
    ensures to[..] == Written(old(to[..]), at, from[start..start + n])
  {
    forall i | 0 <= i < n {
      to[at + i] := from[start + i];
    }
    ghost var want := Written(old(to[..]), at, from[start..start + n]);
    assert |want| == to.Length;
    assert forall i :: 0 <= i < to.Length ==> to[i] == want[i];
  }

  // One step of a walk: what the node here decides, and what the rest of the path still has to say.
  lemma NodeStep(b: seq<Byte>, at: nat)
    requires at + HEADER <= |b| && !EndAt(b, at)
    ensures Nodes(b, at).Some? ==> HEADER <= LengthAt(b, at) && at + LengthAt(b, at) <= |b|
    ensures LengthAt(b, at) >= HEADER && at + LengthAt(b, at) <= |b| ==>
      (Nodes(b, at).Some? <==> !BadFileAt(b, at) && Nodes(b, at + LengthAt(b, at)).Some?)
    ensures Nodes(b, at).Some? ==>
      Nodes(b, at).value == [NodeAt(b, at)] + Nodes(b, at + LengthAt(b, at)).value
    ensures Nodes(b, at).Some? ==> Proper(NodeAt(b, at))
    ensures Nodes(b, at).Some? ==> NodeBytes(NodeAt(b, at)) == b[at..at + LengthAt(b, at)]
    ensures Nodes(b, at).Some? ==>
      |PathBytes(Nodes(b, at).value)| == LengthAt(b, at) + |PathBytes(Nodes(b, at + LengthAt(b, at)).value)|
  {
    if Nodes(b, at).Some? {
      var ns := Nodes(b, at).value;
      NodeBytesAt(b, at);
      assert ns[0] == NodeAt(b, at) && ns[1..] == Nodes(b, at + LengthAt(b, at)).value;
    }
  }

  lemma ReadableStep(b: seq<Byte>, at: nat)
    requires Readable(b, at)
    ensures at + HEADER <= |b|
    ensures !EndAt(b, at) && LengthAt(b, at) >= HEADER ==> at + LengthAt(b, at) <= |b|
    ensures !EndAt(b, at) && LengthAt(b, at) >= HEADER && !BadFileAt(b, at) ==>
      Readable(b, at + LengthAt(b, at))
  {
  }

  lemma EndStep(b: seq<Byte>, at: nat)
    requires at + HEADER <= |b| && EndAt(b, at)
    ensures Nodes(b, at).Some? <==> LengthAt(b, at) == HEADER
    ensures Nodes(b, at).Some? ==> Nodes(b, at).value == []
  {
  }

  // efi_device_path_valid: true exactly for a well-formed path of at most max bytes. With a limit it
  // reads nothing beyond it, whatever the bytes are.
  method Valid(dp: Pointer, max: nat) returns (ok: bool)
    requires max == 0 ==> Walkable(dp)
    requires dp.At? && max >= HEADER ==> dp.at + max <= dp.mem.Length <= UINTN_MAX
    ensures ok <==> (Path(dp).Some? &&
      |PathBytes(Path(dp).value)| <= (if max == 0 then UINTN_MAX else max))
  {
    if dp.Null? {
      return false;
    }
    var b := dp.mem[..];
    if 0 < max < HEADER {
      return false;
    }
    var limit := if max == 0 then UINTN_MAX else max;
    hide PathBytes, Nodes, NodeAt, NodeBytes, LengthAt, EndAt, BadFileAt, Proper, Readable;
    var size, at := 0, dp.at;
    while !EndAt(b, at)
      invariant at == dp.at + size && size <= limit - HEADER && at + HEADER <= |b|
      invariant max == 0 ==> Readable(b, at)
      invariant Nodes(b, dp.at).Some? <==> Nodes(b, at).Some?
      invariant Nodes(b, at).Some? ==>
        |PathBytes(Nodes(b, dp.at).value)| == size + |PathBytes(Nodes(b, at).value)|
      decreases |b| - at
    {
      var node := LengthAt(b, at);
      NodeStep(b, at);
      if max == 0 {
        ReadableStep(b, at);
      }
      if node < HEADER {
        return false;
      }
      if node > UINTN_MAX - size {
        return false;
      }
      size := size + node;
      if size > limit - HEADER {
        return false;
      }
      if BadFileAt(b, at) {
        return false;
      }
      at := at + node;
      if max == 0 {
        ReadableStep(b, at);
      }
    }
    EndStep(b, at);
    ok := LengthAt(b, at) == HEADER;
  }

  // ---- size and copy ----

  // The walk to the end node of a well-formed path.
  method FindEnd(b: seq<Byte>, start: nat) returns (at: nat)
    requires Nodes(b, start).Some?
    ensures at + HEADER <= |b| && EndAt(b, at) && LengthAt(b, at) == HEADER
    ensures at + HEADER == start + |PathBytes(Nodes(b, start).value)|
  {
    hide PathBytes, Nodes, NodeAt, NodeBytes, LengthAt, EndAt, BadFileAt, Proper;
    at := start;
    NodesInside(b, at);
    while !EndAt(b, at)
      invariant start <= at && at + HEADER <= |b| && Nodes(b, at).Some?
      invariant |PathBytes(Nodes(b, start).value)| == at - start + |PathBytes(Nodes(b, at).value)|
      decreases |b| - at
    {
      NodeStep(b, at);
      at := at + LengthAt(b, at);
      NodesInside(b, at);
    }
    EndStep(b, at);
    NothingSpelled();
  }

  // efi_device_path_get_size: the bytes of a well-formed path with its end node, 0 for anything else.
  method GetSize(dp: Pointer) returns (size: nat)
    requires Walkable(dp)
    ensures size == if Path(dp).Some? then |PathBytes(Path(dp).value)| else 0
  {
    var ok := Valid(dp, 0);
    PathFits(dp);
    if !ok {
      return 0;
    }
    var at := FindEnd(dp.mem[..], dp.at);
    size := at - dp.at + LengthAt(dp.mem[..], at);
  }

  lemma NothingSpelled()
    ensures |PathBytes([])| == HEADER
  {
  }

  lemma NodesInside(b: seq<Byte>, at: nat)
    requires Nodes(b, at).Some?
    ensures at + HEADER <= |b|
  {
  }

  // A path held by memory smaller than the address space is itself no larger.
  lemma PathFits(dp: Pointer)
    requires Walkable(dp)
    ensures Path(dp).Some? ==> dp.at + |PathBytes(Path(dp).value)| <= dp.mem.Length <= UINTN_MAX
  {
    if Path(dp).Some? {
      NodesSpell(dp.mem[..], dp.at);
    }
  }

  // The allocator grants the request or not; new memory is all zero here, which nothing relies on.
  method Allocate(size: nat, grant: bool) returns (mem: array?<Byte>)
    ensures mem == null <==> !grant
    ensures mem != null ==> fresh(mem) && mem.Length == size
  {
    mem := null;
    if grant {
      mem := new Byte[size](i => 0);
    }
  }

  // A new block that holds exactly one path.
  ghost predicate Holds(p: Pointer, ns: seq<PathNode>)
    reads if p.At? then {p.mem} else {}
  {
    p.At? && p.at == 0 && p.mem[..] == PathBytes(ns) && Path(p) == Some(ns)
  }

  lemma HoldsPath(mem: array<Byte>, ns: seq<PathNode>)
    requires AllProper(ns) && mem[..] == PathBytes(ns)
    ensures Holds(At(mem, 0), ns)
  {
    assert Spells(mem[..], 0, ns);
    SpellsNodes(mem[..], 0, ns);
  }

  lemma PathSlice(dp: Pointer)
    requires Path(dp).Some?
    ensures AllProper(Path(dp).value) && dp.at + |PathBytes(Path(dp).value)| <= dp.mem.Length
    ensures dp.mem[dp.at..dp.at + |PathBytes(Path(dp).value)|] == PathBytes(Path(dp).value)
  {
    NodesSpell(dp.mem[..], dp.at);
  }

  // efi_device_path_dup
  method Dup(dp: Pointer, grant: bool) returns (r: Pointer)
    requires Walkable(dp)
    ensures r.At? <==> Path(dp).Some? && grant
    ensures r.At? ==> fresh(r.mem) && Holds(r, Path(dp).value)
  {
    hide PathBytes, Nodes, AllProper;
    var size := GetSize(dp);
    if size <= 0 {
      return Null;
    }
    PathSlice(dp);
    var mem := Allocate(size, grant);
    if mem == null {
      return Null;
    }
    Copy(mem, 0, dp.mem, dp.at, size);
    assert mem[..] == PathBytes(Path(dp).value);
    HoldsPath(mem, Path(dp).value);
    r := At(mem, 0);
  }

  // efi_device_path_end, the path of no nodes
  method EndPath() returns (r: Pointer)
    ensures r.At? && fresh(r.mem) && Holds(r, []) && r.mem.Length == HEADER
  {
    var mem := new Byte[] [END_TYPE, END_ENTIRE, 4, 0];
    assert mem[..] == PathBytes([]);
    HoldsPath(mem, []);
    r := At(mem, 0);
  }

  // What append makes of a pointer: no pointer stands for the path of no nodes.
  ghost function Operand(p: Pointer): Option<seq<PathNode>>
    reads if p.At? then {p.mem} else {}
  {
    if p.Null? then Some([]) else Path(p)
  }

  lemma HoldsReadable(p: Pointer, ns: seq<PathNode>)
    requires Holds(p, ns)
    ensures Path(p) == Some(ns) && Readable(p.mem[..], p.at)
    ensures |PathBytes(ns)| <= UINTN_MAX ==> Walkable(p)
    ensures p.mem.Length == |PathBytes(ns)| && p.mem[..] == PathBytes(ns)
  {
    NodesReadable(p.mem[..], p.at);
  }

  lemma JoinBytes(a: seq<PathNode>, b: seq<PathNode>)
    requires AllProper(a) && AllProper(b)
    ensures AllProper(a + b)
    ensures PathBytes(a)[..|PathBytes(a)| - HEADER] + PathBytes(b) == PathBytes(a + b)
  {
    EncodeJoin(a, b);
    hide Encode, Proper;
    Ended(Encode(a), Encode(b));
  }

  // Bytes with the end node behind them.
  lemma Ended(x: seq<Byte>, y: seq<Byte>)
    ensures (x + END_BYTES)[..|x + END_BYTES| - HEADER] == x
    ensures (x + y) + END_BYTES == x + (y + END_BYTES)
  {
  }

  // efi_device_path_append: the nodes of the first path, then those of the second, and one end node.
  method Append(dp1: Pointer, dp2: Pointer, grant: bool) returns (r: Pointer)
    requires Walkable(dp1) && Walkable(dp2)
    ensures r.At? <==> Operand(dp1).Some? && Operand(dp2).Some? && grant
    ensures r.At? ==> fresh(r.mem) && Holds(r, Operand(dp1).value + Operand(dp2).value)
  {
    hide PathBytes, Nodes, Holds, AllProper, Readable;
    if dp1.Null? {
      var two := dp2;
      if dp2.Null? {
        two := EndPath();
        HoldsReadable(two, []);
      }
      r := Dup(two, grant);
      if r.At? {
        assert [] + Path(two).value == Path(two).value;
      }
      return;
    }
    if dp2.Null? {
      r := Dup(dp1, grant);
      if r.At? {
        assert Path(dp1).value + [] == Path(dp1).value;
      }
      return;
    }
    var ok1 := Valid(dp1, 0);
    var ok2 := Valid(dp2, 0);
    PathFits(dp1);
    PathFits(dp2);
    if !ok1 || !ok2 {
      return Null;
    }
    r := Splice(dp1, dp2, grant);
  }

  // The copying half of append, for two well-formed paths.
  method Splice(dp1: Pointer, dp2: Pointer, grant: bool) returns (r: Pointer)
    requires Walkable(dp1) && Walkable(dp2) && Path(dp1).Some? && Path(dp2).Some?
    ensures r.At? <==> grant
    ensures r.At? ==> fresh(r.mem) && Holds(r, Path(dp1).value + Path(dp2).value)
  {
    hide PathBytes, Nodes, Holds, AllProper, Readable;
    var size1 := GetSize(dp1);
    var size2 := GetSize(dp2);
    PathSlice(dp1);
    PathSlice(dp2);
    var mem := Allocate(size1 + size2 - HEADER, grant);
    if mem == null {
      return Null;
    }
    ghost var ns, ms := Path(dp1).value, Path(dp2).value;
    Copy(mem, 0, dp1.mem, dp1.at, size1);
    Copy(mem, size1 - HEADER, dp2.mem, dp2.at, size2);
    JoinBytes(ns, ms);
    assert mem[..] == PathBytes(ns + ms);
    HoldsPath(mem, ns + ms);
    r := At(mem, 0);
  }

  // What node_append makes of a node on its own: a path of that node, or of none if it is an end node.
  ghost function Single(b: seq<Byte>, at: nat): Option<seq<PathNode>>
    requires at + HEADER <= |b| && HEADER <= LengthAt(b, at) && at + LengthAt(b, at) <= |b|
  {
    if EndAt(b, at) then (if LengthAt(b, at) == HEADER then Some([]) else None)
    else if Proper(NodeAt(b, at)) then Some([NodeAt(b, at)])
    else None
  }

  lemma SingleBytes(b: seq<Byte>, n: nat)
    requires HEADER <= n && |b| == n + HEADER && LengthAt(b, 0) == n
    requires EndAt(b, 0) || b[n..] == END_BYTES
    ensures Nodes(b, 0) == Single(b, 0) && Readable(b, 0)
  {
    if !EndAt(b, 0) {
      assert forall i :: 0 <= i < HEADER ==> b[n + i] == b[n..][i] == END_BYTES[i];
      assert Nodes(b, n) == Some([]);
      NodeBytesAt(b, 0);
      assert [NodeAt(b, 0)] + [] == [NodeAt(b, 0)];
    }
  }

  lemma SamePrefix(a: seq<Byte>, b: seq<Byte>, at: nat, n: nat)
    requires HEADER <= n <= |a| && at + n <= |b| && a[..n] == b[at..at + n]
    requires LengthAt(b, at) == n
    ensures LengthAt(a, 0) == n && EndAt(a, 0) == EndAt(b, at) && Single(a, 0) == Single(b, at)
  {
    var front := a[..n];
    assert forall i :: 0 <= i < n ==> a[i] == front[i] && b[at + i] == front[i];
    assert a[HEADER..n] == front[HEADER..] && b[at + HEADER..at + n] == front[HEADER..];
    NodeBytesAt(a, 0);
    NodeBytesAt(b, at);
  }

  // efi_device_path_node_append
  method NodeAppend(dp: Pointer, node: Pointer, bufGrant: bool, grant: bool) returns (r: Pointer)
    requires Walkable(dp)
    requires node.At? ==> node.at + HEADER <= node.mem.Length <= UINTN_MAX - HEADER
    requires node.At? ==> HEADER <= LengthAt(node.mem[..], node.at)
    requires node.At? ==> node.at + LengthAt(node.mem[..], node.at) <= node.mem.Length
    ensures node.Null? ==> (r.At? <==> Operand(dp).Some? && grant)
    ensures node.At? ==> (r.At? <==>
      Operand(dp).Some? && Single(node.mem[..], node.at).Some? && bufGrant && grant)
    ensures r.At? ==> fresh(r.mem) && Holds(r, Operand(dp).value +
      (if node.Null? then [] else Single(node.mem[..], node.at).value))
  {
    hide PathBytes, Nodes, Holds, AllProper;
    if node.Null? {
      r := Append(dp, Null, grant);
      return;
    }
    var buf := NodeBuffer(node, bufGrant);
    if buf.Null? {
      return Null;
    }
    r := Append(dp, buf, grant);
  }

  // The first half of node_append: the node copied to new memory and closed by an end node.
  method NodeBuffer(node: Pointer, grant: bool) returns (r: Pointer)
    requires node.At? && node.at + HEADER <= node.mem.Length <= UINTN_MAX - HEADER
    requires HEADER <= LengthAt(node.mem[..], node.at)
    requires node.at + LengthAt(node.mem[..], node.at) <= node.mem.Length
    ensures r.At? <==> grant
    ensures r.At? ==> fresh(r.mem) && Walkable(r) && Path(r) == Single(node.mem[..], node.at)
  {
    hide Nodes, Readable, Single, LengthAt;
    var len := LengthAt(node.mem[..], node.at);
    var buf := Allocate(len + HEADER, grant);
    if buf == null {
      return Null;
    }
    Copy(buf, 0, node.mem, node.at, len);
    assert buf[..][..len] == node.mem[..][node.at..node.at + len];
    SamePrefix(buf[..], node.mem[..], node.at, len);
    if !EndAt(buf[..], 0) {
      buf[len], buf[len + 1], buf[len + 2], buf[len + 3] := END_TYPE, END_ENTIRE, 4, 0;
      assert buf[..][..len] == node.mem[..][node.at..node.at + len];
      SamePrefix(buf[..], node.mem[..], node.at, len);
    }
    SingleBytes(buf[..], len);
    r := At(buf, 0);
  }

  // ---- instances ----

  const SEPARATOR: PathNode := Node(END_TYPE, END_INSTANCE, [])

  // efi_device_path_instance_append: an end-instance node takes the place of the first path's end.
  method InstanceAppend(dp: Pointer, instance: Pointer, grant: bool) returns (r: Pointer)
    requires Walkable(dp) && Walkable(instance)
    ensures dp.Null? ==> (r.At? <==> Path(instance).Some? && grant)
    ensures dp.At? ==> (r.At? <==> Path(dp).Some? && Path(instance).Some? && grant)
    ensures r.At? ==> fresh(r.mem) && Holds(r,
      if dp.Null? then Path(instance).value else Path(dp).value + [SEPARATOR] + Path(instance).value)
  {
    hide PathBytes, Nodes, Holds, AllProper;
    if dp.Null? {
      r := Dup(instance, grant);
      return;
    }
    var ok1 := Valid(dp, 0);
    var ok2 := Valid(instance, 0);
    PathFits(dp);
    PathFits(instance);
    if !ok1 || !ok2 {
      return Null;
    }
    r := SpliceInstance(dp, instance, grant);
  }

  // The copying half, for two well-formed paths.
  method SpliceInstance(dp: Pointer, instance: Pointer, grant: bool) returns (r: Pointer)
    requires dp.At? && instance.At?
    requires Walkable(dp) && Walkable(instance) && Path(dp).Some? && Path(instance).Some?
    ensures r.At? <==> grant
    ensures r.At? ==> fresh(r.mem) && Holds(r, Path(dp).value + [SEPARATOR] + Path(instance).value)
  {
    hide PathBytes, Nodes, Holds, AllProper, Readable, Walkable, Path, EndAt, LengthAt, Written;
    ghost var ns, ms := Path(dp).value, Path(instance).value;
    var src := GetSize(dp);
    var ins := GetSize(instance);
    PathSlice(dp);
    PathSlice(instance);
    var mem := Allocate(src + ins, grant);
    if mem == null {
      return Null;
    }
    ghost var blank := mem[..];
    Copy(mem, 0, dp.mem, dp.at, src);
    ghost var copied := mem[..];
    FrontOf(copied, PathBytes(ns), blank);
    FrontPath(copied, ns);
    var at := FindEnd(mem[..], 0);
    mem[at + 1] := END_INSTANCE;
    ghost var front := mem[..];
    at := at + HEADER;
    Copy(mem, at, instance.mem, instance.at, ins);
    BackCopied(mem[..], front, copied, PathBytes(ns), blank, src - HEADER + 1, PathBytes(ms));
    SeparatedPaths(mem[..], ns, ms);
    HoldsPath(mem, ns + [SEPARATOR] + ms);
    r := At(mem, 0);
  }

  lemma SeparatedPaths(b: seq<Byte>, ns: seq<PathNode>, ms: seq<PathNode>)
    requires AllProper(ns) && AllProper(ms)
    requires b == PathBytes(ns)[|PathBytes(ns)| - HEADER + 1 := END_INSTANCE] + PathBytes(ms)
    ensures b == PathBytes(ns + [SEPARATOR] + ms) && AllProper(ns + [SEPARATOR] + ms)
  {
    hide PathBytes, AllProper;
    SeparatorBytes(ns);
    JoinBytes(ns + [SEPARATOR], ms);
  }

  lemma FrontOf(b: seq<Byte>, x: seq<Byte>, blank: seq<Byte>)
    requires |x| <= |blank| && b == Written(blank, 0, x)
    ensures b[..|x|] == x
  {
  }

  lemma FrontPath(b: seq<Byte>, ns: seq<PathNode>)
    requires AllProper(ns) && |PathBytes(ns)| <= |b| && b[..|PathBytes(ns)|] == PathBytes(ns)
    ensures Nodes(b, 0) == Some(ns)
  {
    assert b[0..0 + |PathBytes(ns)|] == b[..|PathBytes(ns)|];
    SpellsNodes(b, 0, ns);
  }

  // A byte of the front is changed, and then what is behind it replaced.
  lemma BackCopied(b: seq<Byte>, front: seq<Byte>, copied: seq<Byte>, x: seq<Byte>, blank: seq<Byte>, i: nat,
                   y: seq<Byte>)
    requires i < |x| && |blank| == |x| + |y| && copied == Written(blank, 0, x)
    requires front == copied[i := END_INSTANCE] && b == Written(front, |x|, y)
    ensures b == x[i := END_INSTANCE] + y
  {
    assert copied == x + blank[|x|..];
    assert front == x[i := END_INSTANCE] + blank[|x|..];
    assert front[..|x|] == x[i := END_INSTANCE];
  }

  // Overwriting the sub-type of the end node turns it into a separator.
  lemma SeparatorBytes(ns: seq<PathNode>)
    ensures |PathBytes(ns + [SEPARATOR])| == |PathBytes(ns)| + HEADER
    ensures PathBytes(ns + [SEPARATOR])[..|PathBytes(ns)|] ==
      PathBytes(ns)[|PathBytes(ns)| - HEADER + 1 := END_INSTANCE]
    ensures AllProper(ns) ==> AllProper(ns + [SEPARATOR])
  {
    EncodeJoin(ns, [SEPARATOR]);
    assert Encode([SEPARATOR]) == NodeBytes(SEPARATOR) == [END_TYPE, END_INSTANCE, 4, 0];
    assert Proper(SEPARATOR);
    hide Encode, Proper;
    Separated(Encode(ns));
  }

  lemma Separated(x: seq<Byte>)
    ensures var s := [END_TYPE, END_INSTANCE, 4, 0];
      && |(x + s) + END_BYTES| == |x + END_BYTES| + HEADER
      && ((x + s) + END_BYTES)[..|x + END_BYTES|] == (x + END_BYTES)[|x + END_BYTES| - HEADER + 1 := END_INSTANCE]
  {
  }

  // Where the first instance ends: the first node of the end type, whatever its sub-type.
  function FirstEnd(ns: seq<PathNode>): (k: nat)
    ensures k <= |ns|
    ensures forall i :: 0 <= i < k ==> ns[i].kind != END_TYPE
    ensures k < |ns| ==> ns[k].kind == END_TYPE
  {
    if ns == [] || ns[0].kind == END_TYPE then 0 else 1 + FirstEnd(ns[1..])
  }

  // A node is read the same in memory that agrees on its bytes.
  lemma SameNode(b: seq<Byte>, c: seq<Byte>, at: nat)
    requires at + HEADER <= |b| == |c| && HEADER <= LengthAt(b, at) && at + LengthAt(b, at) <= |b|
    requires b[at..at + LengthAt(b, at)] == c[at..at + LengthAt(b, at)]
    ensures LengthAt(c, at) == LengthAt(b, at) && EndAt(c, at) == EndAt(b, at)
    ensures BadFileAt(c, at) == BadFileAt(b, at) && NodeAt(c, at) == NodeAt(b, at)
  {
    var m, n := b[at..at + LengthAt(b, at)], c[at..at + LengthAt(b, at)];
    assert forall i :: 0 <= i < |m| ==> b[at + i] == m[i] && c[at + i] == n[i];
    assert b[at + HEADER..at + |m|] == m[HEADER..] == n[HEADER..] == c[at + HEADER..at + |m|];
  }

  lemma FirstEndStep(n: PathNode, rest: seq<PathNode>)
    requires n.kind != END_TYPE
    ensures FirstEnd([n] + rest) == 1 + FirstEnd(rest)
    ensures ([n] + rest)[..1 + FirstEnd(rest)] == [n] + rest[..FirstEnd(rest)]
    ensures Encode(([n] + rest)[..1 + FirstEnd(rest)]) == NodeBytes(n) + Encode(rest[..FirstEnd(rest)])
  {
    var ns := [n] + rest;
    assert ns[1..] == rest;
    var front := ns[..1 + FirstEnd(rest)];
    assert front[0] == n && front[1..] == rest[..FirstEnd(rest)];
  }

  // The bytes of the first instance, which the memory from here on starts with.
  ghost function FirstInstance(b: seq<Byte>, at: nat): seq<PathNode>
    requires Nodes(b, at).Some?
  {
    Nodes(b, at).value[..FirstEnd(Nodes(b, at).value)]
  }

  lemma FirstNode(b: seq<Byte>, at: nat)
    requires Nodes(b, at).Some?
    ensures at + HEADER <= |b|
    ensures EndTypeAt(b, at) ==> FirstInstance(b, at) == [] && FirstEnd(Nodes(b, at).value) == 0
    ensures !EndTypeAt(b, at) ==> !EndAt(b, at) && Nodes(b, at + LengthAt(b, at)).Some?
    ensures !EndTypeAt(b, at) ==>
      FirstInstance(b, at) == [NodeAt(b, at)] + FirstInstance(b, at + LengthAt(b, at))
    ensures !EndTypeAt(b, at) ==>
      |Encode(FirstInstance(b, at))| == LengthAt(b, at) + |Encode(FirstInstance(b, at + LengthAt(b, at)))|
  {
    if !EndTypeAt(b, at) {
      NodeStep(b, at);
      FirstEndStep(NodeAt(b, at), Nodes(b, at + LengthAt(b, at)).value);
    }
  }

  // Closing memory at the end of the first instance leaves that instance alone, and it is a
  // well-formed path exactly when the node that ends it has no body.
  lemma {:induction false} CutAt(b: seq<Byte>, at: nat, cut: nat, c: seq<Byte>)
    requires Nodes(b, at).Some?
    requires cut == at + |Encode(FirstInstance(b, at))|
    requires cut + HEADER <= |b| && c == b[cut + 1 := END_ENTIRE]
    ensures Readable(c, at)
    ensures Nodes(c, at) == if LengthAt(b, cut) == HEADER then Some(FirstInstance(b, at)) else None
    decreases |b| - at
  {
    FirstNode(b, at);
    if EndTypeAt(b, at) {
      assert cut == at;
    } else {
      NodeStep(b, at);
      var next := at + LengthAt(b, at);
      CutAt(b, next, cut, c);
      SameNode(b, c, at);
      hide FirstInstance, NodeAt, LengthAt, BadFileAt, EndAt, EndTypeAt;
      ReadableOn(c, at);
    }
  }

  lemma ReadableOn(c: seq<Byte>, at: nat)
    requires at + HEADER <= |c| && HEADER <= LengthAt(c, at) && at + LengthAt(c, at) <= |c|
    requires Readable(c, at + LengthAt(c, at))
    ensures Readable(c, at)
  {
  }

  lemma EncodeOneMore(ns: seq<PathNode>, k: nat)
    requires k < |ns|
    ensures |Encode(ns[..k + 1])| == |Encode(ns[..k])| + HEADER + |ns[k].body|
    ensures ns[k..][0] == ns[k] && ns[k..][1..] == ns[k + 1..]
  {
    assert ns[..k + 1] == ns[..k] + [ns[k]];
    EncodeJoin(ns[..k], [ns[k]]);
    assert Encode([ns[k]]) == NodeBytes(ns[k]);
  }

  // What a path's first end-type node looks like in memory, and where the path goes on after it.
  lemma AtFirstEnd(b: seq<Byte>, start: nat, cut: nat)
    requires Nodes(b, start).Some? && cut + HEADER <= |b| && EndTypeAt(b, cut)
    requires cut == start + |Encode(FirstInstance(b, start))| && Nodes(b, cut).Some?
    requires AllButFirst(b, start) == Nodes(b, cut).value
    ensures EndAt(b, cut) <==> FirstEnd(Nodes(b, start).value) == |Nodes(b, start).value|
    ensures EndAt(b, cut) ==> LengthAt(b, cut) == HEADER
    ensures !EndAt(b, cut) ==> var ns, k := Nodes(b, start).value, FirstEnd(Nodes(b, start).value);
      && LengthAt(b, cut) == HEADER + |ns[k].body|
      && cut + LengthAt(b, cut) == start + |Encode(ns[..k + 1])|
      && Nodes(b, cut + LengthAt(b, cut)) == Some(ns[k + 1..])
  {
    hide Nodes, Encode, FirstEnd, LengthAt, EndAt, EndTypeAt, NodeBytes, Proper, BadFileAt;
    var ns, k := Nodes(b, start).value, FirstEnd(Nodes(b, start).value);
    if EndAt(b, cut) {
      EndStep(b, cut);
      assert ns[k..] == [];
    } else {
      NodeStep(b, cut);
      assert ns[k..] == [NodeAt(b, cut)] + Nodes(b, cut + LengthAt(b, cut)).value;
      EncodeOneMore(ns, k);
      NodeBytesAt(b, cut);
    }
  }

  ghost function AllButFirst(b: seq<Byte>, at: nat): seq<PathNode>
    requires Nodes(b, at).Some?
  {
    Nodes(b, at).value[FirstEnd(Nodes(b, at).value)..]
  }

  lemma AllButFirstStep(b: seq<Byte>, at: nat)
    requires Nodes(b, at).Some? && at + HEADER <= |b|
    ensures EndTypeAt(b, at) ==> AllButFirst(b, at) == Nodes(b, at).value
    ensures !EndTypeAt(b, at) ==> Nodes(b, at + LengthAt(b, at)).Some?
    ensures !EndTypeAt(b, at) ==> AllButFirst(b, at) == AllButFirst(b, at + LengthAt(b, at))
  {
    FirstNode(b, at);
    if !EndTypeAt(b, at) {
      NodeStep(b, at);
      FirstEndStep(NodeAt(b, at), Nodes(b, at + LengthAt(b, at)).value);
    }
  }

  // The loop of instance_next: the walk to the first end-type node.
  method FindEndType(b: seq<Byte>, start: nat) returns (at: nat)
    requires Nodes(b, start).Some?
    ensures at + HEADER <= |b| && EndTypeAt(b, at) && at == start + |Encode(FirstInstance(b, start))|
    ensures Nodes(b, at).Some? && AllButFirst(b, start) == Nodes(b, at).value
  {
    hide FirstInstance, AllButFirst, Nodes, Encode, NodeAt, LengthAt, EndTypeAt, EndAt;
    at := start;
    FirstNode(b, at);
    while !EndTypeAt(b, at)
      invariant start <= at && at + HEADER <= |b| && Nodes(b, at).Some?
      invariant |Encode(FirstInstance(b, start))| == at - start + |Encode(FirstInstance(b, at))|
      invariant AllButFirst(b, start) == AllButFirst(b, at)
      decreases |b| - at
    {
      FirstNode(b, at);
      AllButFirstStep(b, at);
      NodeStep(b, at);
      at := at + LengthAt(b, at);
      FirstNode(b, at);
    }
    FirstNode(b, at);
    AllButFirstStep(b, at);
    EncodeNone();
  }

  lemma EncodeNone()
    ensures Encode([]) == []
  {
  }

  // efi_device_path_instance_next: a copy of the first instance, a cursor on what follows it, and the
  // bytes of that copy; the memory walked over ends as it began. A copy is made exactly when the
  // node that ends the instance has no body.
  method InstanceNext(dp: Pointer, grant: bool) returns (r: Pointer, next: Pointer, size: nat)
    requires Walkable(dp)
    modifies if dp.At? then {dp.mem} else {}
    ensures dp.At? ==> dp.mem[..] == old(dp.mem[..])
    ensures Path(dp).None? ==> r.Null? && next == dp && size == 0
    ensures Path(dp).Some? ==> var ns, k := Path(dp).value, FirstEnd(Path(dp).value);
      && size == |PathBytes(ns[..k])|
      && (r.At? <==> grant && (k < |ns| ==> ns[k].body == []))
      && (r.At? ==> fresh(r.mem) && Holds(r, ns[..k]))
      && (k == |ns| ==> next == Null)
      && (k < |ns| ==> next == At(dp.mem, dp.at + |Encode(ns[..k + 1])|) && Path(next) == Some(ns[k + 1..]))
  {
    hide PathBytes, Nodes, Holds, Encode, AllProper;
    var ok := Valid(dp, 0);
    PathFits(dp);
    if !ok {
      return Null, dp, 0;
    }
    ghost var b := dp.mem[..];
    var at := FindEndType(dp.mem[..], dp.at);
    AtFirstEnd(b, dp.at, at);
    size := at - dp.at + HEADER;
    SizeOfInstance(FirstInstance(b, dp.at));
    var sub := dp.mem[at + 1];
    dp.mem[at + 1] := END_ENTIRE;
    assert dp.mem[..] == b[at + 1 := END_ENTIRE];
    CutAt(b, dp.at, at, dp.mem[..]);
    r := Dup(dp, grant);
    dp.mem[at + 1] := sub;
    assert dp.mem[..] == b;
    next := if EndAt(dp.mem[..], at) then Null else At(dp.mem, at + LengthAt(dp.mem[..], at));
  }

  lemma SizeOfInstance(ns: seq<PathNode>)
    ensures |PathBytes(ns)| == |Encode(ns)| + HEADER
  {
  }

  // ---- all instances of a path ----

  // The instances of a path, independently of memory: the runs of nodes between end-type nodes.
  function Instances(ns: seq<PathNode>): (r: seq<seq<PathNode>>)
    ensures |r| > 0
    decreases |ns|
  {
    var k := FirstEnd(ns);
    if k == |ns| then [ns] else [ns[..k]] + Instances(ns[k + 1..])
  }

  // Every node that ends an instance is a bare header.
  predicate Tight(ns: seq<PathNode>) {
    forall i :: 0 <= i < |ns| && ns[i].kind == END_TYPE ==> ns[i].body == []
  }

  lemma {:induction false} FirstEndJoin(a: seq<PathNode>, b: seq<PathNode>)
    ensures FirstEnd(a + [SEPARATOR] + b) == FirstEnd(a)
  {
    var j := a + [SEPARATOR] + b;
    if a == [] {
      assert j[0] == SEPARATOR;
    } else if a[0].kind != END_TYPE {
      assert j[0] == a[0] && j[1..] == a[1..] + [SEPARATOR] + b;
      FirstEndJoin(a[1..], b);
    } else {
      assert j[0] == a[0];
    }
  }

  lemma InstancesStep(ns: seq<PathNode>, k: nat)
    requires k == FirstEnd(ns)
    ensures k == |ns| ==> Instances(ns) == [ns]
    ensures k < |ns| ==> Instances(ns) == [ns[..k]] + Instances(ns[k + 1..])
  {
    hide FirstEnd;
  }

  // Joining two paths by a separator puts the instances of one after those of the other.
  lemma {:induction false} InstancesJoin(a: seq<PathNode>, b: seq<PathNode>)
    ensures Instances(a + [SEPARATOR] + b) == Instances(a) + Instances(b)
    decreases |a|
  {
    hide *;
    var j, k := a + [SEPARATOR] + b, FirstEnd(a);
    FirstEndJoin(a, b);
    InstancesStep(a, k);
    InstancesStep(j, k);
    JoinSlices(a, b, k);
    if k < |a| {
      InstancesJoin(a[k + 1..], b);
      assert ([a[..k]] + Instances(a[k + 1..])) + Instances(b) == [a[..k]] + (Instances(a[k + 1..]) + Instances(b));
    }
  }

  lemma JoinSlices(a: seq<PathNode>, b: seq<PathNode>, k: nat)
    requires k <= |a|
    ensures (a + [SEPARATOR] + b)[..k] == a[..k]
    ensures k == |a| ==> (a + [SEPARATOR] + b)[k + 1..] == b && a[..k] == a
    ensures k < |a| ==> (a + [SEPARATOR] + b)[k + 1..] == a[k + 1..] + [SEPARATOR] + b
  {
  }

  function Joined(parts: seq<seq<PathNode>>): seq<PathNode>
    requires |parts| > 0
  {
    if |parts| == 1 then parts[0] else parts[0] + [SEPARATOR] + Joined(parts[1..])
  }

  // Splitting undoes joining, for instances that hold no end-type node themselves.
  lemma {:induction false} SplitJoined(parts: seq<seq<PathNode>>)
    requires |parts| > 0 && forall i :: 0 <= i < |parts| ==> FirstEnd(parts[i]) == |parts[i]|
    ensures Instances(Joined(parts)) == parts
    decreases |parts|
  {
    hide Instances, FirstEnd;
    InstancesStep(parts[0], |parts[0]|);
    if |parts| > 1 {
      SplitJoined(parts[1..]);
      InstancesJoin(parts[0], Joined(parts[1..]));
      assert [parts[0]] + parts[1..] == parts;
    } else {
      assert parts == [parts[0]];
    }
  }

  // The loop a driver runs: take instances until the cursor is null.
  method AllInstances(dp: Pointer) returns (parts: seq<Pointer>)
    requires dp.At? && Walkable(dp) && Path(dp).Some? && Tight(Path(dp).value)
    modifies dp.mem
    ensures dp.mem[..] == old(dp.mem[..])
    ensures |parts| == |Instances(Path(dp).value)|
    ensures forall i :: 0 <= i < |parts| ==> parts[i].At? && fresh(parts[i].mem)
    ensures forall i :: 0 <= i < |parts| ==> Holds(parts[i], Instances(Path(dp).value)[i])
  {
    hide PathBytes, Nodes, Holds, Encode, FirstEnd, Instances, Readable;
    parts := [];
    ghost var all := Instances(Path(dp).value);
    var cur, part, size := dp, Null, 0;
    while cur.At?
      invariant cur.At? ==> cur.mem == dp.mem && Path(cur).Some? && Tight(Path(cur).value)
      invariant dp.mem[..] == old(dp.mem[..])
      invariant all == Instances(Path(dp).value)
      invariant |parts| <= |all|
      invariant cur.At? ==> all[|parts|..] == Instances(Path(cur).value)
      invariant cur.Null? ==> |parts| == |all|
      invariant forall i :: 0 <= i < |parts| ==> parts[i].At? && fresh(parts[i].mem) && Holds(parts[i], all[i])
      decreases if cur.At? then 1 + |Path(cur).value| else 0
    {
      NodesReadable(cur.mem[..], cur.at);
      ghost var ns := Path(cur).value;
      part, cur, size := InstanceNext(cur, true);
      InstancesStep(ns, FirstEnd(ns));
      assert all[|parts|] == Instances(ns)[0] == ns[..FirstEnd(ns)];
      parts := parts + [part];
    }
  }

  // Instances of a path made of two: those of the first path, then those of the second.
  method JoinAndSplit(a: Pointer, b: Pointer) returns (parts: seq<Pointer>)
    requires a.At? && b.At? && Walkable(a) && Walkable(b) && Path(a).Some? && Path(b).Some?
    requires Tight(Path(a).value) && Tight(Path(b).value)
    requires a.mem.Length + b.mem.Length <= UINTN_MAX
    ensures |parts| == |Instances(Path(a).value) + Instances(Path(b).value)|
    ensures forall i :: 0 <= i < |parts| ==>
      Holds(parts[i], (Instances(Path(a).value) + Instances(Path(b).value))[i])
  {
    hide PathBytes, Nodes, Instances, Readable;
    var r := InstanceAppend(a, b, true);
    InstancesJoin(Path(a).value, Path(b).value);
    HoldsReadable(r, Path(a).value + [SEPARATOR] + Path(b).value);
    PathFits(a);
    PathFits(b);
    SizeOfJoin(Path(a).value, Path(b).value);
    assert r.mem.Length == |r.mem[..]| == |PathBytes(Path(r).value)|;
    parts := AllInstances(r);
  }

  lemma SizeOfJoin(a: seq<PathNode>, b: seq<PathNode>)
    ensures |PathBytes(a + [SEPARATOR] + b)| == |PathBytes(a)| + |PathBytes(b)|
  {
    EncodeJoin(a + [SEPARATOR], b);
    EncodeJoin(a, [SEPARATOR]);
    assert Encode([SEPARATOR]) == NodeBytes(SEPARATOR);
  }

  lemma OperandIs(p: Pointer)
    requires p.At?
    ensures Operand(p) == Path(p)
  {
  }

  lemma ThreeJoined(x: seq<PathNode>, y: seq<PathNode>, z: seq<PathNode>)
    ensures |PathBytes(x + y + z)| == |PathBytes(x)| + |PathBytes(y)| + |PathBytes(z)| - 2 * HEADER
    ensures |PathBytes(x + y)| == |PathBytes(x)| + |PathBytes(y)| - HEADER
    ensures |PathBytes(y + z)| == |PathBytes(y)| + |PathBytes(z)| - HEADER
  {
    EncodeJoin(x, y);
    EncodeJoin(y, z);
    EncodeJoin(x + y, z);
  }

  // Appending is associative, byte for byte.
  method AppendBothWays(a: Pointer, b: Pointer, c: Pointer) returns (left: Pointer, right: Pointer)
    requires a.At? && b.At? && c.At? && Walkable(a) && Walkable(b) && Walkable(c)
    requires Path(a).Some? && Path(b).Some? && Path(c).Some?
    requires a.mem.Length + b.mem.Length + c.mem.Length <= UINTN_MAX
    ensures left.At? && right.At? && left.mem[..] == right.mem[..]
    ensures Holds(left, Path(a).value + Path(b).value + Path(c).value)
    ensures left.mem.Length == |PathBytes(Path(a).value)| + |PathBytes(Path(b).value)|
      + |PathBytes(Path(c).value)| - 2 * HEADER
  {
    ghost var x, y, z := Path(a).value, Path(b).value, Path(c).value;
    PathFits(a);
    PathFits(b);
    PathFits(c);
    assert x + (y + z) == x + y + z;
    ThreeJoined(x, y, z);
    hide Nodes, Encode, Readable, PathBytes, Walkable, Path, Holds, Operand;
    OperandIs(a);
    OperandIs(b);
    OperandIs(c);
    var ab := Append(a, b, true);
    HoldsReadable(ab, x + y);
    OperandIs(ab);
    left := Append(ab, c, true);
    var bc := Append(b, c, true);
    HoldsReadable(bc, y + z);
    OperandIs(bc);
    right := Append(a, bc, true);
    HoldsReadable(left, x + y + z);
    HoldsReadable(right, x + (y + z));
  }
}
