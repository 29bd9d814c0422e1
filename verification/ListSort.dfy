// The doubly linked list and its in-place sort by exchanging neighbours.
module ListSort {
  class Node<T> {
    var prev: Node?<T>
    var next: Node?<T>
    const data: T

    constructor (data: T)
      ensures prev == null && next == null && this.data == data
    {
      prev, next := null, null;
      this.data := data;
    }
  }

  // The nodes of a list, in order; a node occurs once.
  ghost predicate Distinct<T>(s: seq<Node<T>>) {
    forall i, j :: 0 <= i < j < |s| ==> s[i] != s[j]
  }

  ghost predicate LinkedAt<T>(s: seq<Node<T>>, i: nat)
    requires i < |s|
    reads s
  {
    && s[i].prev == (if i == 0 then null else s[i - 1])
    && s[i].next == (if i + 1 == |s| then null else s[i + 1])
  }

  ghost predicate IsList<T>(s: seq<Node<T>>)
    reads s
  {
    Distinct(s) && forall i {:trigger LinkedAt(s, i)} :: 0 <= i < |s| ==> LinkedAt(s, i)
  }

  ghost predicate Within<T>(s: seq<Node<T>>, nodes: set<Node<T>>) {
    forall i :: 0 <= i < |s| ==> s[i] in nodes
  }

  ghost function Swapped<T>(s: seq<T>, k: nat): seq<T>
    requires k + 1 < |s|
  {
    s[k := s[k + 1]][k + 1 := s[k]]
  }

  // list_first
  method First<T>(point: Node<T>, ghost s: seq<Node<T>>, ghost k: nat) returns (first: Node<T>)
    requires IsList(s) && k < |s| && s[k] == point
    ensures first == s[0]
  {
    first := point;
    ghost var i := k;
    assert LinkedAt(s, i);
    while first.prev != null
      invariant 0 <= i < |s| && first == s[i] && LinkedAt(s, i)
      decreases i
    {
      assert LinkedAt(s, i - 1);
      first := first.prev;
      i := i - 1;
    }
  }

  // list_swap_neighbor
  method SwapNeighbor<T>(p1: Node<T>, p2: Node<T>, ghost nodes: set<Node<T>>, ghost s: seq<Node<T>>, ghost k: nat)
    requires Within(s, nodes) && IsList(s) && k + 1 < |s| && s[k] == p1 && s[k + 1] == p2
    modifies nodes
    ensures IsList(Swapped(s, k))
  {
    assert LinkedAt(s, k) && LinkedAt(s, k + 1);
    assert k > 0 ==> LinkedAt(s, k - 1);
    assert k + 2 < |s| ==> LinkedAt(s, k + 2);
    if p1.prev != null {
      p1.prev.next := p2;
    }
    if p2.next != null {
      p2.next.prev := p1;
    }
    p1.next := p2.next;
    p2.prev := p1.prev;
    p1.prev := p2;
    p2.next := p1;
    ghost var t := Swapped(s, k);
    forall i | 0 <= i < |t|
      ensures LinkedAt(t, i)
    {
      assert old(LinkedAt(s, i));
    }
  }

  // ---- Inversions ----

  ghost predicate Asymmetric<T(!new)>(sorter: (T, T) -> bool) {
    forall x, y :: sorter(x, y) ==> !sorter(y, x)
  }

  function Above<T>(sorter: (T, T) -> bool, x: T, d: seq<T>): nat {
    if d == [] then 0 else (if sorter(x, d[0]) then 1 else 0) + Above(sorter, x, d[1..])
  }

  // The pairs that stand in the order the sorter objects to.
  function Inversions<T>(sorter: (T, T) -> bool, d: seq<T>): nat {
    if d == [] then 0 else Above(sorter, d[0], d[1..]) + Inversions(sorter, d[1..])
  }

  lemma {:induction false} AboveSwap<T>(sorter: (T, T) -> bool, x: T, d: seq<T>, k: nat)
    requires k + 1 < |d|
    ensures Above(sorter, x, Swapped(d, k)) == Above(sorter, x, d)
  {
    var e := Swapped(d, k);
    if k == 0 {
      assert e[1..][1..] == d[1..][1..];
    } else {
      assert e[1..] == Swapped(d[1..], k - 1);
      AboveSwap(sorter, x, d[1..], k - 1);
    }
  }

  // Exchanging two neighbours in the wrong order removes exactly one inversion.
  lemma {:induction false} InversionsSwap<T>(sorter: (T, T) -> bool, d: seq<T>, k: nat)
    requires k + 1 < |d| && sorter(d[k], d[k + 1]) && !sorter(d[k + 1], d[k])
    ensures Inversions(sorter, Swapped(d, k)) + 1 == Inversions(sorter, d)
  {
    var e := Swapped(d, k);
    if k == 0 {
      assert e[1..][1..] == d[1..][1..];
    } else {
      assert e[1..] == Swapped(d[1..], k - 1);
      AboveSwap(sorter, d[0], d[1..], k - 1);
      InversionsSwap(sorter, d[1..], k - 1);
    }
  }

  // ---- Order, permutation, stability ----

  ghost function Data<T>(s: seq<Node<T>>): (d: seq<T>)
    ensures |d| == |s| && forall i :: 0 <= i < |s| ==> d[i] == s[i].data
  {
    seq(|s|, i requires 0 <= i < |s| => s[i].data)
  }

  ghost predicate NoAdjacentInversion<T>(sorter: (T, T) -> bool, s: seq<Node<T>>) {
    forall i :: 0 <= i && i + 1 < |s| ==> !sorter(s[i].data, s[i + 1].data)
  }

  ghost predicate Before<T>(s: seq<Node<T>>, x: Node<T>, y: Node<T>) {
    exists i, j :: 0 <= i < j < |s| && s[i] == x && s[j] == y
  }

  // Two nodes whose order the sorter accepts keep it.
  ghost predicate Stable<T>(sorter: (T, T) -> bool, s: seq<Node<T>>, t: seq<Node<T>>) {
    forall i, j :: 0 <= i < j < |s| && !sorter(s[i].data, s[j].data) ==> Before(t, s[i], s[j])
  }

  lemma SwapStable<T>(sorter: (T, T) -> bool, s: seq<Node<T>>, t: seq<Node<T>>, k: nat)
    requires Stable(sorter, s, t) && k + 1 < |t| && sorter(t[k].data, t[k + 1].data)
    ensures Stable(sorter, s, Swapped(t, k))
  {
    var u := Swapped(t, k);
    forall i, j | 0 <= i < j < |s| && !sorter(s[i].data, s[j].data)
      ensures Before(u, s[i], s[j])
    {
      var a, b :| 0 <= a < b < |t| && t[a] == s[i] && t[b] == s[j];
      var a' := if a == k then k + 1 else if a == k + 1 then k else a;
      var b' := if b == k then k + 1 else if b == k + 1 then k else b;
      assert u[a'] == s[i] && u[b'] == s[j];
    }
  }

  lemma SwapPermutes<T>(s: seq<T>, k: nat)
    requires k + 1 < |s|
    ensures multiset(Swapped(s, k)) == multiset(s)
  {
  }

  // Without adjacent inversions the list is sorted, if what the sorter accepts is
  // transitive.
  lemma {:induction false} Sorted<T(!new)>(sorter: (T, T) -> bool, s: seq<Node<T>>, i: nat, j: nat)
    requires NoAdjacentInversion(sorter, s) && i < j < |s|
    requires forall x, y, z :: !sorter(x, y) && !sorter(y, z) ==> !sorter(x, z)
    ensures !sorter(s[i].data, s[j].data)
  {
    if i + 1 < j {
      Sorted(sorter, s, i, j - 1);
      assert !sorter(s[j - 1].data, s[j].data);
    }
  }

  // ---- The sort ----

  // What one exchange does to the order of the nodes.
  lemma SwapStep<T(!new)>(sorter: (T, T) -> bool, origin: seq<Node<T>>, t: seq<Node<T>>, k: nat)
    requires k + 1 < |t| && Asymmetric(sorter) && sorter(t[k].data, t[k + 1].data)
    requires Stable(sorter, origin, t) && multiset(t) == multiset(origin)
    ensures var u := Swapped(t, k);
      && |u| == |t| && u[k + 1] == t[k]
      && multiset(u) == multiset(origin) && Stable(sorter, origin, u)
      && Inversions(sorter, Data(u)) < Inversions(sorter, Data(t))
  {
    hide Stable;
    InversionsSwap(sorter, Data(t), k);
    assert Data(Swapped(t, k)) == Swapped(Data(t), k);
    SwapPermutes(t, k);
    SwapStable(sorter, origin, t, k);
  }

  // One pass: f is compared with its right neighbour and, moved or not, followed.
  method Pass<T(!new)>(lst: Node<T>, sorter: (T, T) -> bool, ghost nodes: set<Node<T>>,
                       ghost origin: seq<Node<T>>, ghost s: seq<Node<T>>)
    returns (changed: bool, ghost t: seq<Node<T>>)
    requires Within(s, nodes) && IsList(s) && lst in s && Asymmetric(sorter)
    requires multiset(s) == multiset(origin) && Stable(sorter, origin, s)
    modifies nodes
    ensures Within(t, nodes) && lst in t
    ensures IsList(t) && multiset(t) == multiset(origin) && Stable(sorter, origin, t)
    ensures !changed ==> t == s && NoAdjacentInversion(sorter, t)
    ensures changed ==> Inversions(sorter, Data(t)) < Inversions(sorter, Data(s))
  {
    hide Stable, Inversions, Data, Swapped, IsList, LinkedAt, Asymmetric;
    changed, t := false, s;
    ghost var k: nat :| k < |s| && s[k] == lst;
    var f := First(lst, s, k);
    k := 0;
    while true
      invariant k < |t| && t[k] == f && IsList(t) && Within(t, nodes) && lst in t
      invariant multiset(t) == multiset(origin) && Stable(sorter, origin, t)
      invariant if changed then Inversions(sorter, Data(t)) < Inversions(sorter, Data(s)) else t == s
      invariant !changed ==> forall i :: 0 <= i < k ==> !sorter(s[i].data, s[i + 1].data)
      decreases |t| - k
    {
      NextIs(t, k);
      if f.next != null && sorter(f.data, f.next.data) {
        SwapStep(sorter, origin, t, k);
        SwapWithin(nodes, t, k, lst);
        SwapNeighbor(f, f.next, nodes, t, k);
        t := Swapped(t, k);
        changed := true;
        k := k + 1;
        NextIs(t, k);
      }
      if f.next == null {
        break;
      }
      f := f.next;
      k := k + 1;
    }
  }

  lemma SwapWithin<T>(nodes: set<Node<T>>, t: seq<Node<T>>, k: nat, x: Node<T>)
    requires k + 1 < |t| && Within(t, nodes) && x in t
    ensures Within(Swapped(t, k), nodes) && x in Swapped(t, k)
  {
    var i :| 0 <= i < |t| && t[i] == x;
    assert Swapped(t, k)[if i == k then k + 1 else if i == k + 1 then k else i] == x;
  }

  lemma NextIs<T>(s: seq<Node<T>>, k: nat)
    requires IsList(s) && k < |s|
    ensures s[k].next == if k + 1 == |s| then null else s[k + 1]
  {
    assert LinkedAt(s, k);
  }

  // list_sort
  method Sort<T(!new)>(lst: Node<T>, sorter: (T, T) -> bool, ghost nodes: set<Node<T>>, ghost s: seq<Node<T>>)
    returns (rounds: nat, ghost t: seq<Node<T>>)
    requires Within(s, nodes) && IsList(s) && lst in s && Asymmetric(sorter)
    modifies nodes
    ensures IsList(t) && multiset(t) == multiset(s)
    ensures Stable(sorter, s, t) && NoAdjacentInversion(sorter, t)
  {
    hide Inversions, Data, IsList, LinkedAt, Asymmetric;
    t := s;
    rounds := 0;
    var changed := true;
    while changed
      invariant Within(t, nodes) && lst in t
      invariant IsList(t) && multiset(t) == multiset(s) && Stable(sorter, s, t)
      invariant !changed ==> NoAdjacentInversion(sorter, t)
      decreases Inversions(sorter, Data(t)), changed
    {
      changed, t := Pass(lst, sorter, nodes, s, t);
      rounds := rounds + 1;
    }
  }
}
