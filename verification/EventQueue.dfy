// The notification queue of the event services: signalled events wait in TPL order and
// are dispatched re-entrantly, a notification running at its own event's TPL.
module EventQueue {
  import opened Options

  const TPL_HIGH_LEVEL := 31

  class Event {
    const tpl: nat
    const hasNotify: bool        // func is not null
    const group: Option<nat>
    const notifySignal: bool     // type is EVT_NOTIFY_SIGNAL
    var signaled: bool

    constructor (tpl: nat, hasNotify: bool, group: Option<nat>, notifySignal: bool)
      ensures this.tpl == tpl && this.hasNotify == hasNotify && this.group == group
      ensures this.notifySignal == notifySignal && !signaled
    {
      this.tpl, this.hasNotify, this.group, this.notifySignal := tpl, hasNotify, group, notifySignal;
      signaled := false;
    }
  }

  // A list node.  Every allocation has its own id, so a node that was removed is not
  // confused with a later node for the same event.
  datatype Node = Node(id: nat, event: Event)

  // A suspended activation of efi_run_event_queue: the node whose notification is
  // running, and the node it will go on with.
  datatype Frame = Frame(node: Node, next: Option<Node>)

  // What a notification function does: an arbitrary tape of calls, ending in Return
  // or with the tape.  A nested notification takes its calls from the same tape.
  datatype Action =
    | Signal(event: Event)
    | Raise(tpl: nat)
    | Restore(tpl: nat)
    | Return

  // The order of dispatch: higher TPLs first, and first come, first served among equals.
  predicate Earlier(a: Node, b: Node) {
    a.event.tpl > b.event.tpl || (a.event.tpl == b.event.tpl && a.id < b.id)
  }

  predicate Ordered(queue: seq<Node>) {
    forall i, j :: 0 <= i < j < |queue| ==> Earlier(queue[i], queue[j])
  }

  predicate Unique(queue: seq<Node>) {
    forall i, j :: 0 <= i < j < |queue| ==> queue[i].id != queue[j].id && queue[i].event != queue[j].event
  }

  predicate Members(queue: seq<Node>, events: seq<Event>, nextId: nat) {
    forall n :: n in queue ==> n.event in events && n.event.hasNotify && n.id < nextId
  }

  predicate QueueOk(queue: seq<Node>, events: seq<Event>, nextId: nat) {
    Ordered(queue) && Unique(queue) && Members(queue, events, nextId)
  }

  predicate FrameOk(f: Frame, queue: seq<Node>) {
    && f.node in queue
    && (f.next.Some? ==> f.next.value in queue && f.next.value.event.tpl <= f.node.event.tpl)
  }

  // The TPL below which no running notification may go.
  function Floor(frames: seq<Frame>): nat {
    if frames == [] then 0 else frames[|frames| - 1].node.event.tpl
  }

  // The dispatch stack: TPLs strictly increase, and what every suspended activation
  // will touch again is still in the queue.
  predicate FramesOk(frames: seq<Frame>, queue: seq<Node>, tpl: nat) {
    && (forall i, j :: 0 <= i < j < |frames| ==> frames[i].node.event.tpl < frames[j].node.event.tpl)
    && (forall f :: f in frames ==> FrameOk(f, queue))
    && Floor(frames) <= tpl
  }

  // What the event services hold at one moment: the queue, the events that are signalled, the next node's
  // id, the events notified so far, and the nodes so far whose event was not signalled when their
  // notification returned, so that they stayed in the queue.
  datatype State = State(queue: seq<Node>, on: set<Event>, nextId: nat, log: seq<Event>, stayed: seq<Node>)

  // The events notified, and the nodes that stayed, from one moment to a later one.
  function News(a: State, b: State): seq<Event>
    requires a.log <= b.log
  {
    b.log[|a.log|..]
  }

  function Stays(a: State, b: State): seq<Node>
    requires a.stayed <= b.stayed
  {
    b.stayed[|a.stayed|..]
  }

  predicate Later(a: State, b: State) {
    a.log <= b.log && a.stayed <= b.stayed && a.nextId <= b.nextId
  }

  // Nodes do not vanish: what left the queue was above the TPL and has been notified meanwhile. What came
  // is new. And only a notification takes an event's signal back.
  predicate Accounted(a: State, b: State, level: nat) {
    && Later(a, b)
    && (forall n :: n in a.queue ==> n in b.queue || (n.event.tpl > level && n.event in News(a, b)))
    && (forall n :: n in b.queue ==> n in a.queue || n.id >= a.nextId)
    && (forall e :: e in a.on ==> e in b.on || e in News(a, b))
  }

  // The TPL is higher than before only because a notification left it above its own.
  predicate RaisedBy(a: State, b: State, tpl: nat, high: nat) {
    Later(a, b) && exists e :: e in News(a, b) && tpl < e.tpl < high
  }

  function IndexOf(queue: seq<Node>, n: Node): (i: nat)
    requires n in queue
    ensures i < |queue| && queue[i] == n
  {
    if queue[0] == n then 0 else 1 + IndexOf(queue[1..], n)
  }

  // l->next
  function NextOf(queue: seq<Node>, l: Node): (n: Option<Node>)
    requires l in queue
  {
    var i := IndexOf(queue, l);
    if i + 1 < |queue| then Some(queue[i + 1]) else None
  }

  // list_obj_del
  function Delete(queue: seq<Node>, l: Node): seq<Node>
    requires l in queue
  {
    var i := IndexOf(queue, l);
    queue[..i] + queue[i + 1..]
  }

  lemma DeleteMembers(queue: seq<Node>, l: Node)
    requires Unique(queue) && l in queue
    ensures forall n :: n in Delete(queue, l) <==> n in queue && n != l
    ensures |Delete(queue, l)| == |queue| - 1
  {
    var i := IndexOf(queue, l);
    var d := Delete(queue, l);
    assert forall k :: 0 <= k < |d| ==> d[k] == if k < i then queue[k] else queue[k + 1];
    forall n
      ensures n in d <==> n in queue && n != l
    {
      if n in queue && n != l {
        var j := IndexOf(queue, n);
        assert d[if j < i then j else j - 1] == n;
      }
    }
  }

  lemma DeleteShape(queue: seq<Node>, l: Node)
    requires Ordered(queue) && Unique(queue) && l in queue
    ensures Ordered(Delete(queue, l)) && Unique(Delete(queue, l))
  {
    var i := IndexOf(queue, l);
    var d := Delete(queue, l);
    assert forall k :: 0 <= k < |d| ==> d[k] == queue[if k < i then k else k + 1];
  }

  lemma DeleteKeeps(queue: seq<Node>, events: seq<Event>, nextId: nat, l: Node)
    requires QueueOk(queue, events, nextId) && l in queue
    ensures QueueOk(Delete(queue, l), events, nextId)
    ensures forall n :: n in Delete(queue, l) <==> n in queue && n != l
    ensures |Delete(queue, l)| == |queue| - 1
  {
    hide Ordered, Unique;
    DeleteMembers(queue, l);
    DeleteShape(queue, l);
  }

  function InsertAt(queue: seq<Node>, k: nat, a: Node): (q: seq<Node>)
    requires k <= |queue|
    ensures |q| == |queue| + 1
    ensures forall i :: 0 <= i < |q| ==> q[i] == if i < k then queue[i] else if i == k then a else queue[i - 1]
  {
    queue[..k] + [a] + queue[k..]
  }

  lemma InsertMembers(queue: seq<Node>, k: nat, a: Node)
    requires k <= |queue|
    ensures forall n :: n in InsertAt(queue, k, a) <==> n in queue || n == a
  {
    var q := InsertAt(queue, k, a);
    assert q[k] == a;
    forall n | n in queue
      ensures n in q
    {
      var j := IndexOf(queue, n);
      assert q[if j < k then j else j + 1] == n;
    }
  }

  lemma InsertUnique(queue: seq<Node>, k: nat, a: Node)
    requires Unique(queue) && k <= |queue|
    requires forall i :: 0 <= i < |queue| ==> queue[i].id != a.id && queue[i].event != a.event
    ensures Unique(InsertAt(queue, k, a))
  {
  }

  // Insertion behind every node of at least the new event's TPL, and before the rest.
  lemma InsertKeeps(queue: seq<Node>, events: seq<Event>, nextId: nat, k: nat, a: Node)
    requires QueueOk(queue, events, nextId) && k <= |queue| && a.id == nextId
    requires a.event in events && a.event.hasNotify && forall n :: n in queue ==> n.event != a.event
    requires forall i :: 0 <= i < k ==> queue[i].event.tpl >= a.event.tpl
    requires k < |queue| ==> queue[k].event.tpl < a.event.tpl
    ensures QueueOk(InsertAt(queue, k, a), events, nextId + 1)
    ensures forall n :: n in queue ==> n in InsertAt(queue, k, a)
  {
    var q := InsertAt(queue, k, a);
    InsertMembers(queue, k, a);
    forall i | 0 <= i < |queue|
      ensures queue[i].id != a.id && queue[i].event != a.event
    {
      assert queue[i] in queue;
    }
    InsertUnique(queue, k, a);
    hide Unique, Members;
    assert forall i :: k <= i < |queue| ==> queue[i].event.tpl < a.event.tpl;
    assert Ordered(q);
  }

  lemma InsertFrames(frames: seq<Frame>, queue: seq<Node>, tpl: nat, k: nat, a: Node)
    requires FramesOk(frames, queue, tpl) && k <= |queue|
    ensures FramesOk(frames, InsertAt(queue, k, a), tpl)
  {
    InsertMembers(queue, k, a);
  }

  lemma IndexIs(queue: seq<Node>, l: Node, k: nat)
    requires Unique(queue) && k < |queue| && queue[k] == l
    ensures IndexOf(queue, l) == k
  {
    assert queue[IndexOf(queue, l)] == queue[k];
  }

  lemma PushFrame(frames: seq<Frame>, queue: seq<Node>, tpl: nat, l: Node, k: nat)
    requires FramesOk(frames, queue, tpl) && Ordered(queue) && k < |queue| && queue[k] == l && tpl < l.event.tpl
    requires Unique(queue)
    ensures IndexOf(queue, l) == k
    ensures FramesOk(frames + [Frame(l, NextOf(queue, l))], queue, l.event.tpl)
    ensures Floor(frames) <= tpl && Floor(frames + [Frame(l, NextOf(queue, l))]) == l.event.tpl
  {
    IndexIs(queue, l, k);
    hide IndexOf, Unique;
    var f := Frame(l, NextOf(queue, l));
    assert FrameOk(f, queue);
    hide FrameOk, NextOf, Ordered;
    var n := |frames|;
    forall i | 0 <= i < n
      ensures frames[i].node.event.tpl < l.event.tpl
    {
      assert i < n - 1 ==> frames[i].node.event.tpl < frames[n - 1].node.event.tpl;
    }
  }

  lemma PopFrame(frames: seq<Frame>, f: Frame, queue: seq<Node>, tpl: nat, low: nat)
    requires FramesOk(frames + [f], queue, tpl) && Floor(frames) <= low
    ensures FramesOk(frames, queue, if tpl == f.node.event.tpl then low else tpl)
    ensures f.node.event.tpl <= tpl
    ensures FrameOk(f, queue) && f.node in queue && (f.next.Some? ==> f.next.value in queue)
    ensures forall g :: g in frames ==>
      g.node.event.tpl < f.node.event.tpl && (g.next.Some? ==> g.next.value.event.tpl < f.node.event.tpl)
  {
    var fs := frames + [f];
    assert fs[|frames|] == f && f in fs;
    if frames != [] {
      assert fs[|frames| - 1] == frames[|frames| - 1];
    }
    forall g | g in frames
      ensures FrameOk(g, queue) && g.node.event.tpl < f.node.event.tpl
    {
      var i :| 0 <= i < |frames| && frames[i] == g;
      assert fs[i] == g && g in fs;
    }
    assert forall i :: 0 <= i < |frames| ==> fs[i] == frames[i];
  }

  // Deleting the dispatched node disturbs no suspended activation.
  lemma DeleteFrames(frames: seq<Frame>, f: Frame, queue: seq<Node>, events: seq<Event>, nextId: nat, tpl: nat)
    requires FramesOk(frames, queue, tpl) && QueueOk(queue, events, nextId) && FrameOk(f, queue)
    requires forall g :: g in frames ==>
      g.node.event.tpl < f.node.event.tpl && (g.next.Some? ==> g.next.value.event.tpl < f.node.event.tpl)
    ensures FramesOk(frames, Delete(queue, f.node), tpl)
  {
    DeleteKeeps(queue, events, nextId, f.node);
  }

  // The walk goes on with the saved node: at the same place if the dispatched node is
  // gone, one further if it stayed.
  lemma NextPlace(queue: seq<Node>, l: Node, k: nat)
    requires Unique(queue) && k < |queue| && queue[k] == l
    ensures IndexOf(queue, l) == k
    ensures k + 1 < |queue| ==>
      && NextOf(queue, l) == Some(queue[k + 1])
      && IndexOf(queue, queue[k + 1]) == k + 1
      && queue[k + 1] in Delete(queue, l) && IndexOf(Delete(queue, l), queue[k + 1]) == k
    ensures k + 1 == |queue| ==> NextOf(queue, l).None?
    ensures Delete(queue, l) == queue[..k] + queue[k + 1..]
  {
    assert IndexOf(queue, l) == k;
    var d := Delete(queue, l);
    if k + 1 < |queue| {
      assert d[k] == queue[k + 1];
      assert IndexOf(queue, queue[k + 1]) == k + 1;
      var j := IndexOf(d, queue[k + 1]);
      assert d[j] == queue[if j < k then j else j + 1];
    }
  }

  // Before and after the notification of the node at place k.
  lemma StartPass(frames: seq<Frame>, queue: seq<Node>, events: seq<Event>, nextId: nat, tpl: nat, l: Node, k: nat)
    requires QueueOk(queue, events, nextId) && FramesOk(frames, queue, tpl)
    requires k < |queue| && queue[k] == l && tpl < l.event.tpl
    ensures var f := Frame(l, NextOf(queue, l));
      && FramesOk(frames + [f], queue, l.event.tpl) && Floor(frames) <= tpl && Floor(frames + [f]) == l.event.tpl
      && f.next == (if k + 1 == |queue| then None else Some(queue[k + 1])) && f.next != Some(l)
  {
    PushFrame(frames, queue, tpl, l, k);
    NextPlace(queue, l, k);
  }

  lemma EndPass(frames: seq<Frame>, f: Frame, queue: seq<Node>, events: seq<Event>, nextId: nat, tpl: nat, low: nat)
    requires QueueOk(queue, events, nextId) && FramesOk(frames + [f], queue, tpl)
    requires Floor(frames) <= low && f.next != Some(f.node)
    ensures var high := if tpl == f.node.event.tpl then low else tpl;
      && f.node in queue && f.node.event.tpl <= tpl && FramesOk(frames, queue, high)
      && QueueOk(Delete(queue, f.node), events, nextId) && FramesOk(frames, Delete(queue, f.node), high)
    ensures f.next.Some? ==> f.next.value in queue && f.next.value in Delete(queue, f.node)
  {
    PopFrame(frames, f, queue, tpl, low);
    DeleteKeeps(queue, events, nextId, f.node);
    hide FramesOk, QueueOk, Delete;
    DeleteFrames(frames, f, queue, events, nextId, if tpl == f.node.event.tpl then low else tpl);
  }

  // The place of a newcomer: behind every node of its own TPL or above.
  function Place(queue: seq<Node>, tpl: nat): (k: nat)
    ensures k <= |queue|
    ensures forall i :: 0 <= i < k ==> queue[i].event.tpl >= tpl
    ensures k < |queue| ==> queue[k].event.tpl < tpl
  {
    if queue == [] || queue[0].event.tpl < tpl then 0 else 1 + Place(queue[1..], tpl)
  }

  predicate Queued(queue: seq<Node>, event: Event) {
    exists n :: n in queue && n.event == event
  }

  function EventsOf(queue: seq<Node>): seq<Event> {
    seq(|queue|, i requires 0 <= i < |queue| => queue[i].event)
  }

  // The nodes in front that a dispatch at this TPL notifies.
  function Due(queue: seq<Node>, tpl: nat): seq<Node> {
    queue[..Place(queue, tpl + 1)]
  }

  lemma DueAll(queue: seq<Node>, i: nat, tpl: nat)
    requires i <= |queue| && forall j :: 0 <= j < i ==> queue[j].event.tpl > tpl
    requires i < |queue| ==> queue[i].event.tpl <= tpl
    ensures Due(queue, tpl) == queue[..i]
  {
  }

  lemma OneMore(queue: seq<Node>, i: nat)
    requires i < |queue|
    ensures EventsOf(queue[..i + 1]) == EventsOf(queue[..i]) + [queue[i].event]
  {
  }

  lemma LaterTrans(a: State, b: State, c: State)
    requires Later(a, b) && Later(b, c)
    ensures Later(a, c) && News(a, c) == News(a, b) + News(b, c) && Stays(a, c) == Stays(a, b) + Stays(b, c)
  {
  }

  lemma AccountedTrans(a: State, b: State, c: State, level: nat, high: nat)
    requires Accounted(a, b, level) && Accounted(b, c, high) && level <= high
    ensures Accounted(a, c, level) && Later(a, b) && Later(b, c) && Later(a, c)
    ensures forall e :: e in News(a, b) || e in News(b, c) ==> e in News(a, c)
  {
    LaterTrans(a, b, c);
    hide News, Stays;
  }

  lemma AccountedRefl(a: State, level: nat)
    ensures Accounted(a, a, level)
  {
  }

  // Around one notification: a TPL that was raised before it stays so, or is raised further.
  lemma StillRaised(a: State, b: State, c: State, tpl: nat, mid: nat, event: Event, high: nat)
    requires Later(a, b) && Later(b, c) && event in News(b, c) && mid < event.tpl && tpl <= mid
    requires mid == tpl || RaisedBy(a, b, tpl, mid)
    requires high == mid || high > event.tpl
    ensures high == tpl || RaisedBy(a, c, tpl, high)
  {
    LaterTrans(a, b, c);
    hide News, Stays;
    assert event in News(a, c);
    if high == mid && mid != tpl {
      var x :| x in News(a, b) && tpl < x.tpl < mid;
      assert x in News(a, c);
    }
  }

  lemma Noted(a: State, event: Event, tpl: nat)
    ensures var b := a.(log := a.log + [event]); Accounted(a, b, tpl) && News(a, b) == [event]
  {
  }

  // Signals are only added.
  lemma MoreOn(a: State, b: State, tpl: nat)
    requires b == a.(on := b.on) && a.on <= b.on
    ensures Accounted(a, b, tpl) && News(a, b) == []
  {
  }

  lemma JoinAccounted(a: State, k: nat, n: Node, tpl: nat)
    requires k <= |a.queue| && n.id == a.nextId
    ensures Accounted(a, a.(queue := InsertAt(a.queue, k, n), nextId := a.nextId + 1), tpl)
    ensures n in InsertAt(a.queue, k, n)
  {
    InsertMembers(a.queue, k, n);
  }

  lemma NewcomerServed(a: State, b: State, n: Node, level: nat, tpl: nat)
    requires n in a.queue && Accounted(a, b, level) && RunOver(a, b, tpl)
    ensures n in b.queue || (n.event.tpl > level && n.event in News(a, b))
    ensures n.event.tpl > tpl ==> n.event in News(a, b)
  {
  }

  // A dispatch that started in state a and stands at node l: every node of the start that was not notified
  // is still to come, and what it has passed joined meanwhile or stayed after its notification.
  ghost predicate Walked(a: State, b: State, l: Node) {
    && Later(a, b)
    && (forall n :: n in a.queue ==> n.event in News(a, b) || (n in b.queue && !Earlier(n, l)))
    && (forall n :: n in b.queue && Earlier(n, l) ==> n.id >= a.nextId || n in Stays(a, b))
  }

  // The end of a dispatch: what waited above the TPL has been notified, and what is queued above it joined
  // meanwhile or stayed after its notification.
  ghost predicate RunOver(a: State, b: State, tpl: nat) {
    && Later(a, b)
    && (forall n :: n in a.queue && n.event.tpl > tpl ==> n.event in News(a, b))
    && (forall n :: n in b.queue && n.event.tpl > tpl ==> n.id >= a.nextId || n in Stays(a, b))
  }

  lemma WalkStart(a: State)
    requires Ordered(a.queue) && |a.queue| > 0
    ensures Walked(a, a, a.queue[0])
  {
    forall n | n in a.queue
      ensures !Earlier(n, a.queue[0])
    {
      var j :| 0 <= j < |a.queue| && a.queue[j] == n;
      assert j > 0 ==> Earlier(a.queue[0], a.queue[j]);
    }
  }

  // The place of a node relative to the k-th one and the one after it.
  lemma AroundNode(q: seq<Node>, k: nat, n: Node)
    requires Ordered(q) && k < |q| && n in q
    ensures n == q[k] || Earlier(n, q[k]) || (k + 1 < |q| && !Earlier(n, q[k + 1]))
    ensures !Earlier(n, q[k]) && n != q[k] ==> k + 1 < |q| && !Earlier(n, q[k + 1])
    ensures k + 1 < |q| && Earlier(n, q[k + 1]) ==> n == q[k] || Earlier(n, q[k])
  {
    var j :| 0 <= j < |q| && q[j] == n;
    assert j < k ==> Earlier(q[j], q[k]);
    assert k < j ==> Earlier(q[k], q[j]);
    assert k + 1 < |q| && k + 1 < j ==> Earlier(q[k + 1], q[j]);
  }

  // After the node at place k was notified, what is left comes at or behind the next one.
  lemma ComeNext(a: State, b: State, k: nat, c: State, level: nat)
    requires Ordered(b.queue) && k < |b.queue| && Walked(a, b, b.queue[k])
    requires Accounted(b, c, level) && b.queue[k].event in News(b, c)
    requires b.queue[k] in c.queue ==> b.queue[k] in Stays(b, c)
    ensures k + 1 < |b.queue| ==> Walked(a, c, b.queue[k + 1])
    ensures k + 1 == |b.queue| ==> forall tpl :: RunOver(a, c, tpl)
  {
    LaterTrans(a, b, c);
    hide News, Stays, Ordered, Earlier;
    var q := b.queue;
    forall n | n in a.queue && n.event !in News(a, c)
      ensures k + 1 < |q| && n in c.queue && !Earlier(n, q[k + 1])
    {
      AroundNode(q, k, n);
    }
    forall n | n in c.queue && (k + 1 < |q| ==> Earlier(n, q[k + 1]))
      ensures n.id >= a.nextId || n in Stays(a, c)
    {
      if n in q {
        AroundNode(q, k, n);
      }
    }
  }

  lemma NoneToNotify(a: State, tpl: nat)
    requires a.queue == []
    ensures RunOver(a, a, tpl)
  {
  }

  lemma ComeEnd(a: State, b: State, l: Node, tpl: nat)
    requires Walked(a, b, l) && l.event.tpl <= tpl
    ensures RunOver(a, b, tpl)
  {
  }

  // A silent dispatch that has passed the first i nodes: k of them are left, the rest is untouched.
  ghost predicate Untouched(q0: seq<Node>, q: seq<Node>, i: nat, k: nat, tpl: nat, signaled: set<Event>) {
    && i <= |q0| && k <= |q| && q[k..] == q0[i..]
    && (forall n :: n in q[..k] ==> n in q0[..i])
    && (forall j :: 0 <= j < i ==> q0[j].event.tpl > tpl)
    && (forall j :: 0 <= j < i ==> (q0[j] in q[..k] <==> q0[j].event !in signaled))
  }

  lemma Stepped(q0: seq<Node>, q1: seq<Node>, q: seq<Node>, i: nat, k: nat, tpl: nat, signaled: set<Event>)
    requires Unique(q0) && Untouched(q0, q1, i, k, tpl, signaled) && k < |q1| && q1[k].event.tpl > tpl
    requires q == if q1[k].event in signaled then q1[..k] + q1[k + 1..] else q1
    ensures i < |q0| && q0[i] == q1[k]
    ensures Untouched(q0, q, i + 1, if q1[k].event in signaled then k else k + 1, tpl, signaled)
  {
    assert q1[k] == q1[k..][0] == q0[i..][0];
    var m := if q1[k].event in signaled then k else k + 1;
    assert q[m..] == q1[k..][1..] == q0[i..][1..] == q0[i + 1..];
    assert q0[..i + 1] == q0[..i] + [q0[i]];
    assert q[..m] == if q1[k].event in signaled then q1[..k] else q1[..k] + [q1[k]];
    forall j | 0 <= j < i + 1
      ensures q0[j] in q[..m] <==> q0[j].event !in signaled
    {
      if j == i {
        assert q0[i] !in q0[..i];
      }
    }
  }

  lemma RunEnds(q0: seq<Node>, q: seq<Node>, i: nat, k: nat, tpl: nat, signaled: set<Event>)
    requires Unique(q0) && Ordered(q0) && Untouched(q0, q, i, k, tpl, signaled)
    requires i < |q0| ==> q0[i].event.tpl <= tpl
    ensures Due(q0, tpl) == q0[..i]
    ensures forall n :: n in q ==> n in q0
    ensures forall n :: n in q0 ==> (n in q <==> !(n.event.tpl > tpl && n.event in signaled))
  {
    DueAll(q0, i, tpl);
    assert q == q[..k] + q[k..];
    forall n | n in q0
      ensures n in q <==> !(n.event.tpl > tpl && n.event in signaled)
    {
      var j :| 0 <= j < |q0| && q0[j] == n;
      if j >= i {
        assert q0[i..][j - i] == n;
      } else {
        assert n !in q0[i..];
      }
    }
  }

  // One silent notification, of the node at place k.
  predicate Silent(b: State, c: State, k: nat) {
    && k < |b.queue|
    && var l := b.queue[k];
      && c.queue == (if l.event in b.on then b.queue[..k] + b.queue[k + 1..] else b.queue)
      && c.nextId == b.nextId && c.log == b.log + [l.event]
      && c.on == if l.event.notifySignal then b.on - {l.event} else b.on
  }

  // A silent dispatch that started in state a and has notified the first i nodes.
  ghost predicate Calm(a: State, b: State, i: nat, k: nat, tpl: nat) {
    && Untouched(a.queue, b.queue, i, k, tpl, a.on)
    && b.log == a.log + EventsOf(a.queue[..i]) && b.nextId == a.nextId
    && Acknowledged(a.on, b.on, EventsOf(a.queue[..i]))
  }

  // A whole silent dispatch: exactly the nodes above the TPL are notified, in queue order, and those of
  // them whose event is signalled leave the queue.
  ghost predicate Quietly(a: State, b: State, tpl: nat) {
    && b.log == a.log + EventsOf(Due(a.queue, tpl)) && b.nextId == a.nextId
    && (forall n :: n in b.queue ==> n in a.queue)
    && (forall n :: n in a.queue ==> (n in b.queue <==> !(n.event.tpl > tpl && n.event in a.on)))
    && Acknowledged(a.on, b.on, EventsOf(Due(a.queue, tpl)))
  }

  // The signals after these events have been notified: those of EVT_NOTIFY_SIGNAL events are taken back.
  predicate Acknowledged(before: set<Event>, after: set<Event>, done: seq<Event>) {
    && (forall e :: e in after ==> e in before)
    && (forall e :: e in before ==> (e in after <==> !(e in done && e.notifySignal)))
  }

  // No event at or below the TPL has changed its signal, and no other has been signalled.
  predicate SignalsKept(a: State, b: State, tpl: nat) {
    b.on <= a.on && (forall e :: e in a.on && e.tpl <= tpl ==> e in b.on)
  }

  lemma CalmStart(a: State, tpl: nat)
    ensures Calm(a, a, 0, 0, tpl)
  {
  }

  lemma CalmPlace(a: State, b: State, i: nat, k: nat, tpl: nat)
    requires Calm(a, b, i, k, tpl)
    ensures i <= |a.queue| && k <= |b.queue| && |a.queue| - i == |b.queue| - k
    ensures forall j :: k <= j < |b.queue| ==> b.queue[j] == a.queue[i + (j - k)]
  {
    assert |b.queue[k..]| == |a.queue[i..]|;
    forall j | k <= j < |b.queue|
      ensures b.queue[j] == a.queue[i + (j - k)]
    {
      assert b.queue[k..][j - k] == a.queue[i..][j - k];
    }
  }

  lemma StillOn(a: State, b: State, i: nat, k: nat, tpl: nat)
    requires Calm(a, b, i, k, tpl) && Unique(a.queue) && i < |a.queue|
    ensures a.queue[i].event in b.on <==> a.queue[i].event in a.on
  {
    assert forall j :: 0 <= j < i ==> EventsOf(a.queue[..i])[j] != a.queue[i].event;
  }

  lemma CalmStep(a: State, b: State, c: State, i: nat, k: nat, tpl: nat)
    requires Unique(a.queue) && Calm(a, b, i, k, tpl) && Silent(b, c, k) && b.queue[k].event.tpl > tpl
    ensures Calm(a, c, i + 1, if b.queue[k].event in b.on then k else k + 1, tpl)
  {
    CalmPlace(a, b, i, k, tpl);
    StillOn(a, b, i, k, tpl);
    Stepped(a.queue, b.queue, c.queue, i, k, tpl, a.on);
    OneMore(a.queue, i);
  }

  lemma CalmEnd(a: State, b: State, i: nat, k: nat, tpl: nat)
    requires Unique(a.queue) && Ordered(a.queue) && Calm(a, b, i, k, tpl)
    requires i < |a.queue| ==> a.queue[i].event.tpl <= tpl
    ensures Quietly(a, b, tpl)
  {
    RunEnds(a.queue, b.queue, i, k, tpl, a.on);
    forall e | e in a.on && e.tpl <= tpl
      ensures e in b.on
    {
      assert e !in EventsOf(a.queue[..i]);
    }
  }

  // ---- a node that joins during a dispatch ----

  // The first notifications make no call, one of them signals an event, and no other call is made.
  predicate OneSignal(tape: seq<Action>) {
    && |tape| > 0 && tape[|tape| - 1].Signal?
    && forall i :: 0 <= i < |tape| - 1 ==> tape[i].Return?
  }

  predicate Quiet(tape: seq<Action>) {
    forall a :: a in tape ==> a.Return?
  }

  // The next notification makes no call.
  predicate NoCall(tape: seq<Action>) {
    tape == [] || tape[0].Return?
  }

  // An event that joins while the j-th node of the queue is notified is not above that node, and comes in
  // front of the node the dispatch goes on with.
  predicate Missed(queue: seq<Node>, j: nat, e: Event) {
    && j < |queue| && e.tpl <= queue[j].event.tpl
    && (j + 1 == |queue| || queue[j + 1].event.tpl < e.tpl)
  }

  // The outcome of a notification at this level that signals the event of a new node: the node waits, or it
  // has been notified and is gone, and its signal with it if it is an EVT_NOTIFY_SIGNAL event.
  predicate Signalled(a: State, b: State, n: Node, level: nat) {
    && Later(a, b)
    && if n.event.tpl <= level then n in b.queue && n.event in b.on
       else
         && !Queued(b.queue, n.event) && n.event in News(a, b)
         && (n.event in b.on <==> !n.event.notifySignal)
  }

  // A dispatch at node l will pass the new node, or will come to it or be done with it.
  predicate Pending(a: State, b: State, n: Node, l: Node, missed: bool) {
    && Later(a, b)
    && if missed then n in b.queue && Earlier(n, l)
       else || (n in b.queue && !Earlier(n, l) && n.event in b.on)
            || (!Queued(b.queue, n.event) && n.event in News(a, b))
  }

  predicate Settled(a: State, b: State, e: Event, missed: bool) {
    Later(a, b) && (Queued(b.queue, e) <==> missed) && (!missed ==> e in News(a, b))
  }

  // The notification of the j-th node of the start, now at place k, has signalled the event.
  lemma PendingStart(a: State, b: State, c: State, j: nat, k: nat, tpl: nat, n: Node, events: seq<Event>)
    requires QueueOk(a.queue, events, a.nextId) && Calm(a, b, j, k, tpl) && k < |b.queue| && n.id == b.nextId
    requires Signalled(b, c, n, b.queue[k].event.tpl) && Later(a, b)
    ensures k + 1 < |b.queue| ==> Pending(a, c, n, b.queue[k + 1], Missed(a.queue, j, n.event))
    ensures k + 1 == |b.queue| ==> Settled(a, c, n.event, Missed(a.queue, j, n.event))
  {
    CalmPlace(a, b, j, k, tpl);
    LaterTrans(a, b, c);
    hide News, Stays, Untouched;
    assert b.queue[k] == a.queue[j];
    if k + 1 < |b.queue| {
      assert b.queue[k + 1] == a.queue[j + 1] && a.queue[j + 1] in a.queue;
    }
    assert j + 1 < |a.queue| ==> Earlier(a.queue[j], a.queue[j + 1]);
  }

  lemma Removed(q: seq<Node>, k: nat)
    requires Unique(q) && k < |q|
    ensures var d := q[..k] + q[k + 1..];
      (forall n :: n in d <==> n in q && n != q[k]) && !Queued(d, q[k].event)
  {
    var d := q[..k] + q[k + 1..];
    assert forall i :: 0 <= i < |d| ==> d[i] == q[if i < k then i else i + 1];
    forall n | n in q && n != q[k]
      ensures n in d
    {
      var i :| 0 <= i < |q| && q[i] == n;
      assert d[if i < k then i else i - 1] == n;
    }
  }

  // A silent notification afterwards.
  lemma PendingStep(a: State, b: State, c: State, k: nat, n: Node, missed: bool)
    requires Ordered(b.queue) && Unique(b.queue) && Silent(b, c, k) && Pending(a, b, n, b.queue[k], missed)
    requires Later(b, c)
    ensures k + 1 < |b.queue| ==> Pending(a, c, n, b.queue[k + 1], missed)
    ensures k + 1 == |b.queue| ==> Settled(a, c, n.event, missed)
  {
    var l := b.queue[k];
    Removed(b.queue, k);
    LaterTrans(a, b, c);
    assert l.event in News(b, c);
    hide News, Stays, Ordered, Unique;
    if n in b.queue {
      AroundNode(b.queue, k, n);
    }
    assert k + 1 < |b.queue| ==> Earlier(l, b.queue[k + 1]) by {
      NextInOrder(b.queue, k);
    }
  }

  lemma NextInOrder(q: seq<Node>, k: nat)
    requires Ordered(q) && k < |q|
    ensures k + 1 < |q| ==> Earlier(q[k], q[k + 1])
  {
  }

  lemma PendingEnd(a: State, b: State, n: Node, l: Node, missed: bool, tpl: nat)
    requires Pending(a, b, n, l, missed) && l.event.tpl <= tpl < n.event.tpl
    ensures Settled(a, b, n.event, missed)
  {
  }

  lemma LaterIds(queue: seq<Node>, events: seq<Event>, nextId: nat)
    requires QueueOk(queue, events, nextId)
    ensures QueueOk(queue, events, nextId + 1)
  {
  }

  // Waiting, or notified meanwhile.
  predicate Served(a: State, b: State, e: Event) {
    Later(a, b) && (Queued(b.queue, e) || e in News(a, b))
  }

  lemma AccountedServed(a: State, b: State, c: State, level: nat)
    requires Later(a, b) && Accounted(b, c, level)
    ensures forall x :: Served(a, b, x) ==> Served(a, c, x)
    ensures forall x: Event {:trigger Queued(c.queue, x)} :: Queued(b.queue, x) && x.tpl <= level ==> Queued(c.queue, x)
  {
    LaterTrans(a, b, c);
    hide News, Stays;
    forall x | Queued(b.queue, x)
      ensures Queued(c.queue, x) || (x.tpl > level && x in News(b, c))
    {
      var n :| n in b.queue && n.event == x;
    }
  }

  // ---- the step of a dispatch ----

  // What is left of a tape after this many notifications without a call.
  function Left(tape: seq<Action>, i: nat): seq<Action> {
    if i < |tape| then tape[i..] else []
  }

  predicate Returns(tape: seq<Action>, i: nat) {
    forall j :: 0 <= j < i && j < |tape| ==> tape[j].Return?
  }

  // An event outside all groups that is neither signalled nor queued, and has a function.
  predicate Fresh(a: State, e: Event) {
    e.hasNotify && e.group.None? && e !in a.on && !Queued(a.queue, e)
  }

  // The call made by one of the notifications signals a fresh event above the TPL.
  predicate Signals(a: State, tape: seq<Action>, level: nat) {
    && OneSignal(tape) && |tape| <= |a.queue| && a.queue[|tape| - 1].event.tpl > level
    && Fresh(a, tape[|tape| - 1].event) && tape[|tape| - 1].event.tpl > level
  }

  // The loop of efi_run_event_queue after i notifications, as far as it is determined: while they made no
  // call, and after the one that signals an event.
  ghost predicate Tracked(a: State, b: State, tape: seq<Action>, rest: seq<Action>, i: nat, k: nat, was: nat, tpl: nat,
                          granted: bool) {
    && (Returns(tape, i) ==> tpl == was && rest == Left(tape, i) && Calm(a, b, i, k, was))
    && (Signals(a, tape, was) && granted && i >= |tape| ==>
         && tpl == was && rest == [] && k < |b.queue|
         && var e := tape[|tape| - 1].event;
           Pending(a, b, Node(a.nextId, e), b.queue[k], Missed(a.queue, |tape| - 1, e)))
  }

  ghost predicate Finished(a: State, b: State, tape: seq<Action>, was: nat, tpl: nat, granted: bool) {
    && (Quiet(tape) ==> tpl == was && Quietly(a, b, was))
    && (Signals(a, tape, was) && granted ==>
         && tpl == was
         && var e := tape[|tape| - 1].event;
           Settled(a, b, e, Missed(a.queue, |tape| - 1, e)))
  }

  // The outcome of one pass through the loop, at place k.
  ghost predicate Step(b: State, c: State, k: nat, rest: seq<Action>, more: seq<Action>, tpl: nat, high: nat,
                       granted: bool) {
    && k < |b.queue| && Later(b, c)
    && (NoCall(rest) ==> high == tpl && more == Left(rest, 1) && Silent(b, c, k))
    && (OneSignal(rest) && |rest| == 1 && Fresh(b, rest[0].event) && granted ==>
         && high == tpl && more == []
         && Signalled(b, c, Node(b.nextId, rest[0].event), b.queue[k].event.tpl))
  }

  // The place of the saved node afterwards.
  function NextAt(b: State, k: nat): nat
    requires k < |b.queue|
  {
    if b.queue[k].event in b.on then k else k + 1
  }

  lemma QuietStart(a: State, tape: seq<Action>, tpl: nat, granted: bool)
    ensures Tracked(a, a, tape, tape, 0, 0, tpl, tpl, granted)
    ensures a.queue == [] ==> Finished(a, a, tape, tpl, tpl, granted)
  {
    CalmStart(a, tpl);
    if a.queue == [] {
      CalmEnd(a, a, 0, 0, tpl);
    }
  }

  lemma LeftOne(tape: seq<Action>, i: nat)
    ensures Left(Left(tape, i), 1) == Left(tape, i + 1)
    ensures Returns(tape, i + 1) ==> Returns(tape, i) && NoCall(Left(tape, i))
    ensures Quiet(tape) ==> Returns(tape, i)
    ensures OneSignal(tape) ==> (Returns(tape, i) <==> i < |tape|)
    ensures OneSignal(tape) && i + 1 == |tape| ==> Left(tape, i) == [tape[i]]
  {
  }

  // Fresh stays fresh while no call is made.
  lemma CalmFresh(a: State, b: State, i: nat, k: nat, tpl: nat, e: Event)
    requires Calm(a, b, i, k, tpl) && Fresh(a, e)
    ensures Fresh(b, e)
  {
    assert b.queue == b.queue[..k] + b.queue[k..];
    assert a.queue == a.queue[..i] + a.queue[i..];
  }

  lemma TrackCalm(a: State, b: State, c: State, tape: seq<Action>, rest: seq<Action>, more: seq<Action>,
                  i: nat, k: nat, was: nat, tpl: nat, high: nat, granted: bool, now: bool, events: seq<Event>)
    requires QueueOk(a.queue, events, a.nextId) && Tracked(a, b, tape, rest, i, k, was, tpl, granted)
    requires Step(b, c, k, rest, more, tpl, high, now) && b.queue[k].event.tpl > was
    requires Returns(tape, i + 1)
    ensures high == was && more == Left(tape, i + 1) && Calm(a, c, i + 1, NextAt(b, k), was)
    ensures k + 1 == |b.queue| ==> i + 1 == |a.queue| && Quietly(a, c, was)
  {
    LeftOne(tape, i);
    hide Ordered, Unique, Members, Silent;
    CalmPlace(a, b, i, k, was);
    CalmStep(a, b, c, i, k, was);
    if k + 1 == |b.queue| {
      CalmEnd(a, c, i + 1, NextAt(b, k), was);
    }
  }

  // What follows the notification that signals the event, and the silent ones behind it.
  lemma TrackSignal(a: State, b: State, c: State, tape: seq<Action>, rest: seq<Action>, more: seq<Action>,
                    i: nat, k: nat, was: nat, tpl: nat, high: nat, granted: bool, now: bool, events: seq<Event>)
    requires QueueOk(a.queue, events, a.nextId) && QueueOk(b.queue, events, b.nextId) && Later(a, b)
    requires Tracked(a, b, tape, rest, i, k, was, tpl, granted)
    requires Step(b, c, k, rest, more, tpl, high, now) && (b.nextId == a.nextId ==> now == granted)
    requires Signals(a, tape, was) && granted && i + 1 >= |tape|
    ensures high == was && more == []
    ensures var e := tape[|tape| - 1].event; var missed := Missed(a.queue, |tape| - 1, e);
      && (k + 1 < |b.queue| ==> Pending(a, c, Node(a.nextId, e), b.queue[k + 1], missed))
      && (k + 1 == |b.queue| ==> Settled(a, c, e, missed))
  {
    var e := tape[|tape| - 1].event;
    var n := Node(a.nextId, e);
    hide Pending, Settled, Signalled, Missed, Ordered, Unique, Members, Calm, Silent, Fresh, Later;
    LeftOne(tape, i);
    if i >= |tape| {
      PendingStep(a, b, c, k, n, Missed(a.queue, |tape| - 1, e));
    } else {
      assert Calm(a, b, i, k, was);
      CalmFresh(a, b, i, k, was, e);
      CalmId(a, b, i, k, was);
      PendingStart(a, b, c, i, k, was, n, events);
    }
  }

  lemma TrackStep(a: State, b: State, c: State, tape: seq<Action>, rest: seq<Action>, more: seq<Action>, i: nat, k: nat,
                  at: nat, was: nat, tpl: nat, high: nat, granted: bool, now: bool, events: seq<Event>)
    requires QueueOk(a.queue, events, a.nextId) && QueueOk(b.queue, events, b.nextId) && Unique(c.queue)
    requires Later(a, b) && Tracked(a, b, tape, rest, i, k, was, tpl, granted)
    requires Step(b, c, k, rest, more, tpl, high, now) && (b.nextId == a.nextId ==> now == granted)
    requires b.queue[k].event.tpl > was
    requires k + 1 < |b.queue| ==> at < |c.queue| && c.queue[at] == b.queue[k + 1]
    ensures k + 1 < |b.queue| ==> Tracked(a, c, tape, more, i + 1, at, was, high, granted)
    ensures k + 1 == |b.queue| ==> Finished(a, c, tape, was, high, granted)
    ensures rest == [] && k + 1 < |b.queue| ==> |c.queue| - at < |b.queue| - k
  {
    LeftOne(tape, i);
    LeftOne(tape, i + 1);
    if k + 1 < |b.queue| && NoCall(rest) {
      SilentNext(b, c, k);
      IndexIs(c.queue, b.queue[k + 1], at);
    }
    hide QueueOk, Unique, Silent, Pending, Settled, Quietly, Later, Missed, Fresh, Signalled;
    if Returns(tape, i + 1) {
      TrackCalm(a, b, c, tape, rest, more, i, k, was, tpl, high, granted, now, events);
    }
    if Signals(a, tape, was) && granted {
      if i + 1 < |tape| {
        CalmPlace(a, c, i + 1, NextAt(b, k), was);
      } else {
        TrackSignal(a, b, c, tape, rest, more, i, k, was, tpl, high, granted, now, events);
      }
    }
  }

  lemma CalmId(a: State, b: State, i: nat, k: nat, tpl: nat)
    requires Calm(a, b, i, k, tpl)
    ensures b.nextId == a.nextId
  {
  }

  // The dispatch stops at a node that is not above the TPL.
  lemma TrackEnd(a: State, b: State, tape: seq<Action>, rest: seq<Action>, i: nat, k: nat, was: nat, tpl: nat,
                 granted: bool, events: seq<Event>)
    requires QueueOk(a.queue, events, a.nextId) && Tracked(a, b, tape, rest, i, k, was, tpl, granted)
    requires k < |b.queue| && b.queue[k].event.tpl <= tpl
    ensures Finished(a, b, tape, was, tpl, granted)
  {
    LeftOne(tape, i);
    if Returns(tape, i) {
      CalmPlace(a, b, i, k, was);
      CalmEnd(a, b, i, k, was);
      hide Calm, Quietly;
      assert b.queue[k] == a.queue[i];
    }
    hide Quietly, Calm;
    if Signals(a, tape, was) && granted {
      var e := tape[|tape| - 1].event;
      PendingEnd(a, b, Node(a.nextId, e), b.queue[k], Missed(a.queue, |tape| - 1, e), tpl);
    }
  }

  lemma SilentNext(b: State, c: State, k: nat)
    requires Silent(b, c, k) && Unique(c.queue) && k + 1 < |b.queue|
    ensures b.queue[k + 1] in c.queue && IndexOf(c.queue, b.queue[k + 1]) == NextAt(b, k)
  {
    assert c.queue[NextAt(b, k)] == b.queue[k + 1];
    IndexIs(c.queue, b.queue[k + 1], NextAt(b, k));
  }

  // The outcome of a notification without a call, and of one that signals a fresh event.
  ghost predicate Noticed(a: State, b: State, event: Event, tape: seq<Action>, rest: seq<Action>, tpl: nat,
                          granted: bool) {
    && (NoCall(tape) ==> tpl == event.tpl && rest == Left(tape, 1) && b == a.(log := a.log + [event]))
    && (OneSignal(tape) && |tape| == 1 && Fresh(a, tape[0].event) && granted ==>
         tpl == event.tpl && rest == [] && Signalled(a, b, Node(a.nextId, tape[0].event), event.tpl))
  }

  // What follows a notification: the node is gone or stays, and its event's signal may be taken back.
  ghost predicate Passed(b: State, c: State, l: Node) {
    && l in b.queue && c.log == b.log && c.nextId == b.nextId
    && c.on == (if l.event.notifySignal then b.on - {l.event} else b.on)
    && c.queue == (if l.event in b.on then Delete(b.queue, l) else b.queue)
    && c.stayed == (if l.event in b.on then b.stayed else b.stayed + [l])
  }

  lemma PassMembers(b: State, c: State, l: Node)
    requires Passed(b, c, l) && Unique(b.queue)
    ensures forall n :: n in c.queue ==> n in b.queue
    ensures forall n :: n in b.queue && n != l ==> n in c.queue
    ensures l in c.queue ==> c.stayed == b.stayed + [l]
  {
    DeleteMembers(b.queue, l);
  }

  lemma PassNews(a: State, b: State, c: State, l: Node)
    requires Later(a, b) && Passed(b, c, l)
    ensures Later(a, c) && News(a, c) == News(a, b) && (c.stayed == b.stayed + [l] ==> l in Stays(a, c))
    ensures forall e :: e in b.on ==> e in c.on || e == l.event
  {
    assert (b.stayed + [l])[|a.stayed|..] == b.stayed[|a.stayed|..] + [l];
  }

  lemma PassAccounted(a: State, b: State, c: State, l: Node, tpl: nat)
    requires Accounted(a, b, l.event.tpl) && l.event in News(a, b) && tpl < l.event.tpl
    requires Passed(b, c, l) && Unique(b.queue)
    ensures Accounted(a, c, tpl) && Later(a, c) && l.event in News(a, c) && (l in c.queue ==> l in Stays(a, c))
  {
    PassMembers(b, c, l);
    PassNews(a, b, c, l);
    hide Passed, Unique, News, Stays;
  }

  // The rest of the pass does not touch another node or its event.
  lemma SignalledKept(a: State, b: State, c: State, l: Node, n: Node, level: nat)
    requires Signalled(a, b, n, level) && n.event != l.event && Passed(b, c, l) && Unique(b.queue)
    ensures Signalled(a, c, n, level)
  {
    PassMembers(b, c, l);
    PassNews(a, b, c, l);
    hide Passed, Unique, News, Stays;
  }

  lemma PassStep(a: State, b: State, c: State, k: nat, tape: seq<Action>, rest: seq<Action>, was: nat, tpl: nat,
                 high: nat, granted: bool)
    requires k < |a.queue| && Unique(a.queue) && Unique(b.queue) && Later(a, c)
    requires Noticed(a, b, a.queue[k].event, tape, rest, tpl, granted) && Passed(b, c, a.queue[k])
    requires high == if tpl == a.queue[k].event.tpl then was else tpl
    ensures Step(a, c, k, tape, rest, was, high, granted)
  {
    var l := a.queue[k];
    NextPlace(a.queue, l, k);
    if OneSignal(tape) && |tape| == 1 && Fresh(a, tape[0].event) && granted {
      FreshOther(a, l, tape[0].event);
      SignalledKept(a, b, c, l, Node(a.nextId, tape[0].event), l.event.tpl);
    }
  }

  function Joined(a: State, event: Event): State {
    a.(queue := InsertAt(a.queue, Place(a.queue, event.tpl), Node(a.nextId, event)), nextId := a.nextId + 1)
  }

  lemma FinishedMeans(a: State, b: State, tape: seq<Action>, was: nat, tpl: nat, granted: bool)
    requires Finished(a, b, tape, was, tpl, granted)
    ensures Quiet(tape) ==> tpl == was && Quietly(a, b, was)
    ensures Signals(a, tape, was) && granted ==>
      var e := tape[|tape| - 1].event;
      tpl == was && Settled(a, b, e, Missed(a.queue, |tape| - 1, e))
  {
  }

  lemma FreshOther(a: State, l: Node, e: Event)
    requires l in a.queue && Fresh(a, e)
    ensures l.event != e
  {
  }

  // Taking the note of the running notification changes nothing for a fresh event.
  lemma FreshNoted(a: State, event: Event, e: Event)
    ensures Fresh(a.(log := a.log + [event]), e) <==> Fresh(a, e)
  {
  }

  lemma SignalledNoted(a: State, b: State, c: State, n: Node, level: nat)
    requires Later(a, b) && Signalled(b, c, n, level)
    ensures Signalled(a, c, n, level)
  {
    LaterTrans(a, b, c);
  }

  lemma MoreIds(a: State, b: State, tpl: nat)
    requires b == a.(nextId := a.nextId + 1)
    ensures Accounted(a, b, tpl)
  {
  }

  lemma DueAbove(queue: seq<Node>, e: Event, tpl: nat)
    requires e in EventsOf(Due(queue, tpl))
    ensures e.tpl > tpl
  {
    var i :| 0 <= i < |Due(queue, tpl)| && EventsOf(Due(queue, tpl))[i] == e;
    assert Due(queue, tpl)[i] == queue[i];
  }

  lemma QuietSignals(a: State, b: State, tpl: nat)
    requires Quietly(a, b, tpl)
    ensures SignalsKept(a, b, tpl)
  {
    hide Due, EventsOf;
    forall e | e in a.on && e.tpl <= tpl
      ensures e in b.on
    {
      if e in EventsOf(Due(a.queue, tpl)) {
        DueAbove(a.queue, e, tpl);
      }
    }
  }

  // When nothing but an event's joining happens, only its node is new.
  lemma OnlyJoined(a: State, b: State, e: Event, tpl: nat)
    requires Quietly(Joined(a, e), b, tpl)
    ensures (forall n :: n in b.queue ==> n in a.queue || n == Node(a.nextId, e)) && SignalsKept(a, b, tpl)
  {
    hide InsertAt, Place, Due, EventsOf;
    InsertMembers(a.queue, Place(a.queue, e.tpl), Node(a.nextId, e));
    QuietSignals(Joined(a, e), b, tpl);
  }

  // The nodes in front that a dispatch notifies are all those above the TPL.
  lemma DueHas(queue: seq<Node>, n: Node, tpl: nat)
    requires Ordered(queue) && n in queue && n.event.tpl > tpl
    ensures n.event in EventsOf(Due(queue, tpl))
  {
    var j :| 0 <= j < |queue| && queue[j] == n;
    var p := Place(queue, tpl + 1);
    assert p <= j ==> queue[p].event.tpl < tpl + 1 && (p < j ==> Earlier(queue[p], queue[j]));
    assert EventsOf(Due(queue, tpl))[j] == n.event;
  }

  // A signalled event that joins above the TPL is gone at the end.
  lemma JoinSettled(a: State, b: State, e: Event, tpl: nat, events: seq<Event>)
    requires Quietly(Joined(a, e), b, tpl) && e in a.on && !Queued(a.queue, e) && e.hasNotify && e in events
    requires QueueOk(a.queue, events, a.nextId)
    ensures e.tpl > tpl ==> !Queued(b.queue, e) && (e in b.on <==> !e.notifySignal)
    ensures e.tpl <= tpl ==> e in b.on
  {
    var n := Node(a.nextId, e);
    InsertMembers(a.queue, Place(a.queue, e.tpl), n);
    InsertKeeps(a.queue, events, a.nextId, Place(a.queue, e.tpl), n);
    if e.tpl > tpl {
      DueHas(Joined(a, e).queue, n, tpl);
    }
  }

  // What was signalled at first is signalled, or has been notified.
  lemma StillAsked(a: State, b: State, c: State, level: nat)
    requires b == a.(on := b.on) && Accounted(b, c, level)
    ensures Later(a, c) && News(a, c) == News(b, c)
    ensures forall e :: e in b.on ==> e in c.on || e in News(a, c)
    ensures forall e :: Served(b, c, e) ==> Served(a, c, e)
  {
  }

  class Context {
    var tpl: nat
    var events: seq<Event>
    var queue: seq<Node>
    var nextId: nat
    // Whether the allocation of a list node succeeds, by the number of the attempt.
    const grant: nat -> bool
    ghost var frames: seq<Frame>
    ghost var log: seq<Event>
    ghost var stayed: seq<Node>

    ghost predicate Inv()
      reads this
    {
      QueueOk(queue, events, nextId) && FramesOk(frames, queue, tpl)
    }

    ghost function Now(): State
      reads this, events
    {
      State(queue, (set e | e in events && e.signaled), nextId, log, stayed)
    }

    constructor (events: seq<Event>, grant: nat -> bool)
      ensures Inv() && this.events == events && tpl == 4 && queue == [] && frames == [] && log == [] && stayed == []
      ensures this.grant == grant
    {
      tpl, queue, nextId, frames, log, stayed := 4, [], 0, [], [], [];
      this.events, this.grant := events, grant;
    }

    ghost predicate Calls(tape: seq<Action>)
      reads this
    {
      forall a :: a in tape && a.Signal? ==> a.event in events
    }

    // efi_run_event_queue. Whatever the notifications do, every node that waits above the final TPL has
    // been notified when it returns, and what is then queued above the TPL joined meanwhile or stayed
    // because its event was not signalled when its notification returned.
    method RunEventQueue(tape: seq<Action>) returns (rest: seq<Action>)
      requires Inv() && Calls(tape)
      modifies this, events
      ensures Inv() && frames == old(frames) && events == old(events) && tpl >= old(tpl)
      ensures Accounted(old(Now()), Now(), old(tpl))
      ensures |rest| <= |tape| && forall a :: a in rest ==> a in tape
      ensures RunOver(old(Now()), Now(), tpl)
      ensures tpl == old(tpl) || RaisedBy(old(Now()), Now(), old(tpl), tpl)
      ensures Quiet(tape) ==> tpl == old(tpl) && Quietly(old(Now()), Now(), tpl)
      // A fresh event above the TPL that is signalled by one notification is left in the queue exactly if it
      // joins in front of the node the dispatch goes on with; otherwise it is notified and gone.
      ensures Signals(old(Now()), tape, old(tpl)) && grant(old(nextId)) ==>
        var e := tape[|tape| - 1].event;
        tpl == old(tpl) && Settled(old(Now()), Now(), e, Missed(old(queue), |tape| - 1, e))
      decreases |tape|, 3
    {
      hide Ordered, Unique, Members, FramesOk, FrameOk, IndexOf, Accounted, Walked, RunOver, RaisedBy, Quietly;
      hide Settled, Signals, Tracked, Finished, Step, Later, News, Stays;
      rest := tape;
      ghost var s0, i: nat, k: nat, ok := Now(), 0, 0, grant(nextId);
      AccountedRefl(s0, tpl);
      QuietStart(s0, tape, tpl, ok);
      if |queue| == 0 {
        NoneToNotify(s0, tpl);
        FinishedMeans(s0, s0, tape, tpl, tpl, ok);
        return;
      }
      var l := queue[0];
      WalkStart(s0);
      while true
        invariant Inv() && frames == old(frames) && events == old(events) && tpl >= old(tpl)
        invariant Accounted(s0, Now(), old(tpl)) && Walked(s0, Now(), l)
        invariant tpl == old(tpl) || RaisedBy(s0, Now(), old(tpl), tpl)
        invariant |rest| <= |tape| && forall a :: a in rest ==> a in tape
        invariant k < |queue| && queue[k] == l
        invariant Tracked(s0, Now(), tape, rest, i, k, old(tpl), tpl, ok)
        decreases |rest|, |queue| - k
      {
        ghost var b, t1, r1, k1 := Now(), tpl, rest, k;
        if tpl >= l.event.tpl {
          TrackEnd(s0, b, tape, rest, i, k, old(tpl), tpl, ok, events);
          FinishedMeans(s0, b, tape, old(tpl), tpl, ok);
          ComeEnd(s0, b, l, tpl);
          return;
        }
        var n;
        rest, n := Dispatch(l, rest, k);
        ghost var c := Now();
        AccountedTrans(s0, b, c, old(tpl), t1);
        ComeNext(s0, b, k, c, t1);
        StillRaised(s0, b, c, old(tpl), t1, l.event, tpl);
        k := if n.Some? then IndexOf(queue, n.value) else 0;
        TrackStep(s0, b, c, tape, r1, rest, i, k1, k, old(tpl), t1, tpl, ok, grant(b.nextId), events);
        i := i + 1;
        if n.None? {
          FinishedMeans(s0, c, tape, old(tpl), tpl, ok);
          return;
        }
        l := n.value;
      }
    }

    // The loop body of efi_run_event_queue from a runnable node on.
    method Dispatch(l: Node, tape: seq<Action>, ghost k: nat) returns (rest: seq<Action>, n: Option<Node>)
      requires Inv() && Calls(tape) && k < |queue| && queue[k] == l && tpl < l.event.tpl
      modifies this, events
      ensures Inv() && frames == old(frames) && events == old(events) && tpl >= old(tpl)
      ensures Accounted(old(Now()), Now(), old(tpl))
      ensures l.event in News(old(Now()), Now()) && (tpl == old(tpl) || tpl > l.event.tpl)
      ensures l in queue ==> l in Stays(old(Now()), Now())
      ensures l.event.notifySignal ==> !l.event.signaled
      ensures n == if k + 1 == |old(queue)| then None else Some(old(queue)[k + 1])
      ensures n.Some? ==> n.value in queue
      ensures |rest| <= |tape| && (tape != [] ==> |rest| < |tape|) && forall a :: a in rest ==> a in tape
      // A notification without a call, and one that signals a fresh event.
      ensures Step(old(Now()), Now(), k, tape, rest, old(tpl), tpl, grant(old(nextId)))
      decreases |tape|, 2
    {
      hide Ordered, Unique, FramesOk, FrameOk, Floor, IndexOf, NextOf, Delete, Accounted, Noticed, Step, Stays, News;
      hide Later, Passed;
      StartPass(frames, queue, events, nextId, tpl, l, k);
      n := NextOf(queue, l);
      var event := l.event;
      ghost var before, s0 := frames, Now();
      var oldTpl := tpl;
      tpl := event.tpl;
      frames := frames + [Frame(l, n)];
      assert Now() == s0;
      rest := Notify(event, tape);
      ghost var s1, high := Now(), tpl;
      EndPass(before, Frame(l, n), queue, events, nextId, tpl, oldTpl);
      frames := before;
      if tpl == event.tpl {
        tpl := oldTpl;
      }
      assert Now() == s1;
      Retire(l);
      PassAccounted(s0, s1, Now(), l, oldTpl);
      PassStep(s0, s1, Now(), k, tape, rest, oldTpl, high, tpl, grant(s0.nextId));
    }

    // What efi_run_event_queue does with a node after its notification.
    method Retire(l: Node)
      requires l in queue && l.event in events
      modifies `queue, `stayed, l.event
      ensures queue == (if old(l.event.signaled) then Delete(old(queue), l) else old(queue))
      ensures l.event.signaled == (old(l.event.signaled) && !l.event.notifySignal)
      ensures Passed(old(Now()), Now(), l)
    {
      hide Delete;
      ghost var b := Now();
      var event := l.event;
      if event.signaled {
        queue := Delete(queue, l);
      } else {
        stayed := stayed + [l];
      }
      if event.notifySignal {
        event.signaled := false;
        assert Now().on == b.on - {event};
      }
      assert Passed(b, Now(), l);
    }

    // event->func(event, event->context)
    method Notify(event: Event, tape: seq<Action>) returns (rest: seq<Action>)
      requires Inv() && Calls(tape) && frames != [] && Floor(frames) == event.tpl == tpl
      modifies this, events
      ensures Inv() && frames == old(frames) && events == old(events) && tpl >= event.tpl
      ensures Accounted(old(Now()), Now(), event.tpl) && event in News(old(Now()), Now())
      ensures |rest| <= |tape| && (tape != [] ==> |rest| < |tape|) && forall a :: a in rest ==> a in tape
      ensures Noticed(old(Now()), Now(), event, tape, rest, tpl, grant(old(nextId)))
      decreases |tape|, 1
    {
      hide Accounted, RunOver, RaisedBy, QueueOk, FramesOk, Fresh, Signalled, News, Stays, Served, Quietly;
      rest := tape;
      ghost var s0 := Now();
      log := log + [event];
      assert Now() == s0.(log := s0.log + [event]);
      Noted(s0, event, event.tpl);
      while rest != [] && !rest[0].Return?
        invariant Inv() && frames == old(frames) && events == old(events) && tpl >= event.tpl
        invariant Accounted(s0, Now(), event.tpl) && Later(s0, Now()) && event in News(s0, Now())
        invariant |rest| <= |tape| && forall a :: a in rest ==> a in tape
        invariant NoCall(tape) ==> |rest| == |tape|
        invariant |rest| == |tape| ==>
          rest == tape && tpl == event.tpl && Now() == s0.(log := s0.log + [event])
        invariant OneSignal(tape) && |tape| == 1 && Fresh(s0, tape[0].event) && grant(s0.nextId) && rest == [] ==>
          tpl == event.tpl && Signalled(s0, Now(), Node(s0.nextId, tape[0].event), event.tpl)
        decreases |rest|
      {
        var action := rest[0];
        assert action in tape;
        ghost var s1, t1 := Now(), tpl;
        rest := rest[1..];
        AccountedRefl(s1, tpl);
        match action
        case Signal(e) =>
          FreshNoted(s0, event, e);
          rest := SignalEvent(e, rest);
          AccountedTrans(s0, s1, Now(), event.tpl, t1);
          if OneSignal(tape) && |tape| == 1 && Fresh(s0, e) && grant(s0.nextId) {
            SignalledNoted(s0, s1, Now(), Node(s0.nextId, e), event.tpl);
          }
        case Raise(t) =>
          if Clamp(t) >= event.tpl {
            var _ := RaiseTpl(t);
            assert Now() == s1;
          }
        case Restore(t) =>
          if Clamp(t) >= event.tpl {
            rest := RestoreTpl(t, rest);
            AccountedTrans(s0, s1, Now(), event.tpl, Clamp(t));
          }
        case Return =>
      }
      if rest != [] {
        rest := rest[1..];
      }
    }

    // The loop of efi_add_event_queue: the new node goes before the first one of a lower TPL.
    method JoinQueue(a: Node)
      requires QueueOk(queue, events, a.id) && FramesOk(frames, queue, tpl) && nextId == a.id + 1
      requires a.event in events && a.event.hasNotify && !Queued(queue, a.event)
      modifies `queue
      ensures Inv() && queue == InsertAt(old(queue), Place(old(queue), a.event.tpl), a)
    {
      hide Ordered, Unique, Members, FramesOk, InsertAt;
      var k := 0;
      while k < |queue| && queue[k].event.tpl >= a.event.tpl
        invariant k <= Place(queue, a.event.tpl)
      {
        k := k + 1;
      }
      InsertKeeps(queue, events, a.id, k, a);
      InsertFrames(frames, queue, tpl, k, a);
      queue := InsertAt(queue, k, a);
    }

    // efi_add_event_queue. An event with a function that is not queued yet joins behind the events of
    // its TPL, if its node can be allocated, and then the queue is run.
    method AddEventQueue(event: Event, tape: seq<Action>) returns (rest: seq<Action>)
      requires Inv() && Calls(tape) && event in events
      modifies this, events
      ensures Inv() && frames == old(frames) && events == old(events) && tpl >= old(tpl)
      ensures Accounted(old(Now()), Now(), old(tpl))
      ensures |rest| <= |tape| && forall a :: a in rest ==> a in tape
      ensures var joins := event.hasNotify && !Queued(old(queue), event) && grant(old(nextId));
        var a := Node(old(nextId), event);
        && (!joins ==> rest == tape && tpl == old(tpl) && Now().(nextId := old(nextId)) == old(Now()))
        && (joins && event.tpl <= old(tpl) ==> a in queue)
        && (joins ==> a in queue || event in News(old(Now()), Now()))
        && (joins && event.tpl > tpl ==> event in News(old(Now()), Now()))
        && (joins && Quiet(tape) ==> tpl == old(tpl) && Quietly(Joined(old(Now()), event), Now(), tpl))
      ensures Quiet(tape) ==>
        && tpl == old(tpl) && (forall n :: n in queue ==> n in old(queue) || n.event == event)
        && SignalsKept(old(Now()), Now(), tpl)
      decreases |tape|, 4
    {
      hide Ordered, Unique, Members, FramesOk, Floor, InsertAt, Accounted, RunOver, RaisedBy, Quietly, News, Stays;
      rest := tape;
      ghost var s0 := Now();
      AccountedRefl(s0, tpl);
      if !event.hasNotify || Queued(queue, event) {
        return;
      }
      nextId := nextId + 1;
      if !grant(nextId - 1) {
        LaterIds(queue, events, nextId - 1);
        MoreIds(s0, Now(), tpl);
        return;
      }
      var a := Node(nextId - 1, event);
      JoinQueue(a);
      ghost var s1 := Now();
      assert s1 == Joined(s0, event);
      JoinAccounted(s0, Place(s0.queue, event.tpl), a, tpl);
      hide Place, Queued, Joined;
      rest := RunEventQueue(tape);
      if Quiet(tape) {
        OnlyJoined(s0, Now(), event, tpl);
      }
      AccountedTrans(s0, s1, Now(), old(tpl), old(tpl));
      NewcomerServed(s1, Now(), a, old(tpl), tpl);
    }

    // The events efi_signal_event_impl signals: those of the event's group, or the event alone.
    predicate Target(event: Event, e: Event) {
      if event.group.Some? then e.group == event.group else e == event
    }

    // Its whole group for an event of a group, itself alone for any other.
    lemma TargetMeans(event: Event, e: Event)
      ensures event.group.None? ==> (Target(event, e) <==> e == event)
      ensures event.group.Some? ==> (Target(event, e) <==> e.group.Some? && e.group.value == event.group.value)
    {
    }

    // The first loop of efi_signal_event_impl, over the event's group.
    method SignalGroup(event: Event)
      requires event.group.Some?
      modifies events
      ensures forall e :: e in events ==> (e.signaled <==> old(e.signaled) || Target(event, e))
    {
      for i := 0 to |events|
        invariant forall j :: 0 <= j < i && Target(event, events[j]) ==> events[j].signaled
        invariant forall e :: e in events && e.signaled ==> old(e.signaled) || Target(event, e)
        invariant forall e :: e in events && old(e.signaled) ==> e.signaled
      {
        if events[i].group == event.group {
          events[i].signaled := true;
        }
      }
    }

    // The second loop of efi_signal_event_impl.
    method AddGroup(event: Event, tape: seq<Action>) returns (rest: seq<Action>)
      requires Inv() && Calls(tape) && event in events && event.group.Some?
      modifies this, events
      ensures Inv() && frames == old(frames) && events == old(events) && tpl >= old(tpl)
      ensures Accounted(old(Now()), Now(), old(tpl)) && Later(old(Now()), Now())
      ensures |rest| <= |tape| && forall a :: a in rest ==> a in tape
      ensures Quiet(tape) ==>
        && tpl == old(tpl) && (forall n :: n in queue ==> n in old(queue) || Target(event, n.event))
        && SignalsKept(old(Now()), Now(), tpl)
      ensures (forall i :: grant(i)) ==> forall e :: e in events && Target(event, e) && e.hasNotify ==>
        Served(old(Now()), Now(), e) && (e.tpl <= old(tpl) ==> Queued(queue, e))
      decreases |tape|, 5
    {
      hide Ordered, Unique, Members, FramesOk, Floor, InsertAt, Place, Accounted, Quietly, News, Stays, Joined;
      rest := tape;
      ghost var s1 := Now();
      AccountedRefl(s1, tpl);
      for i := 0 to |events|
        invariant Inv() && frames == old(frames) && events == old(events) && tpl >= old(tpl)
        invariant Accounted(s1, Now(), old(tpl)) && Later(s1, Now())
        invariant |rest| <= |tape| && forall a :: a in rest ==> a in tape
        invariant Quiet(tape) ==>
          && tpl == old(tpl) && (forall n :: n in queue ==> n in old(queue) || Target(event, n.event))
          && SignalsKept(s1, Now(), tpl)
        invariant (forall n :: grant(n)) ==> forall j :: 0 <= j < i ==>
          Target(event, events[j]) && events[j].hasNotify ==>
            Served(s1, Now(), events[j]) && (events[j].tpl <= old(tpl) ==> Queued(queue, events[j]))
      {
        if events[i].group == event.group {
          ghost var s2, t2 := Now(), tpl;
          rest := AddEventQueue(events[i], rest);
          AccountedTrans(s1, s2, Now(), old(tpl), t2);
          AccountedServed(s1, s2, Now(), t2);
        }
      }
    }

    // efi_signal_event_impl. Every target is signalled, unless it has been notified since. If the nodes can
    // be allocated, every target waits in the queue afterwards or has been notified, and those at or below
    // the TPL wait.
    method SignalEvent(event: Event, tape: seq<Action>) returns (rest: seq<Action>)
      requires Inv() && Calls(tape) && event in events
      modifies this, events
      ensures Inv() && frames == old(frames) && events == old(events) && tpl >= old(tpl)
      ensures Accounted(old(Now()), Now(), old(tpl))
      ensures |rest| <= |tape| && forall a :: a in rest ==> a in tape
      ensures old(event.signaled) ==> rest == tape && tpl == old(tpl) && Now() == old(Now())
      ensures !old(event.signaled) ==>
        forall e :: e in events && Target(event, e) ==> e.signaled || e in News(old(Now()), Now())
      ensures !old(event.signaled) && (forall i :: grant(i)) ==>
        forall e :: e in events && Target(event, e) && e.hasNotify ==>
          Served(old(Now()), Now(), e) && (e.tpl <= old(tpl) ==> Queued(queue, e))
      ensures Quiet(tape) ==>
        && tpl == old(tpl) && (forall n :: n in queue ==> n in old(queue) || Target(event, n.event))
        && (!old(event.signaled) ==> forall e :: e in events && e.tpl <= tpl ==>
              (e.signaled <==> old(e.signaled) || Target(event, e)))
      ensures Quiet(tape) && Fresh(old(Now()), event) && grant(old(nextId)) ==>
        Signalled(old(Now()), Now(), Node(old(nextId), event), tpl)
      decreases |tape|, 6
    {
      hide Ordered, Unique, Members, FramesOk, Floor, InsertAt, Place, Accounted, Quietly, News, Stays, Joined;
      rest := tape;
      ghost var s0 := Now();
      AccountedRefl(s0, tpl);
      if event.signaled {
        return;
      }
      if event.group.Some? {
        SignalGroup(event);
        ghost var s1 := Now();
        assert s1 == s0.(on := s1.on);
        MoreOn(s0, s1, tpl);
        rest := AddGroup(event, tape);
        AccountedTrans(s0, s1, Now(), old(tpl), old(tpl));
        StillAsked(s0, s1, Now(), old(tpl));
      } else {
        event.signaled := true;
        ghost var s1 := Now();
        assert s1 == s0.(on := s1.on);
        MoreOn(s0, s1, tpl);
        rest := AddEventQueue(event, rest);
        AccountedTrans(s0, s1, Now(), old(tpl), old(tpl));
        AccountedServed(s1, s1, Now(), old(tpl));
        StillAsked(s0, s1, Now(), old(tpl));
        if Quiet(tape) && Fresh(s0, event) && grant(s0.nextId) {
          JoinSettled(s1, Now(), event, tpl, events);
        }
      }
    }

    // efi_raise_tpl_impl; the caller must not go below the running notification.
    method RaiseTpl(newTpl: nat) returns (previous: nat)
      requires Inv() && Clamp(newTpl) >= Floor(frames)
      modifies this`tpl
      ensures Inv() && tpl == Clamp(newTpl) && previous == old(tpl)
    {
      previous := tpl;
      tpl := Clamp(newTpl);
    }

    // efi_restore_tpl_impl without the timers
    method RestoreTpl(oldTpl: nat, tape: seq<Action>) returns (rest: seq<Action>)
      requires Inv() && Calls(tape) && Clamp(oldTpl) >= Floor(frames)
      modifies this, events
      ensures Inv() && frames == old(frames) && events == old(events) && tpl >= Clamp(oldTpl)
      ensures Accounted(old(Now()), Now(), Clamp(oldTpl))
      ensures |rest| <= |tape| && forall a :: a in rest ==> a in tape
      // Everything that waited above the TPL has been notified, what is queued above it joined meanwhile or
      // stayed, and only a notification can leave the TPL raised.
      ensures RunOver(old(Now()), Now(), tpl)
      ensures tpl == Clamp(oldTpl) || RaisedBy(old(Now()), Now(), Clamp(oldTpl), tpl)
      ensures Quiet(tape) ==> tpl == Clamp(oldTpl) && Quietly(old(Now()), Now(), tpl)
      // Which fresh event above the TPL, signalled by one of the notifications, is left in the queue.
      ensures Signals(old(Now()), tape, Clamp(oldTpl)) && grant(old(nextId)) ==>
        var e := tape[|tape| - 1].event;
        tpl == Clamp(oldTpl) && Settled(old(Now()), Now(), e, Missed(old(queue), |tape| - 1, e))
      decreases |tape|, 4
    {
      hide Accounted, RunOver, RaisedBy, Quietly, Signals, Settled, Missed, Ordered, Unique, Members, FrameOk;
      tpl := Clamp(oldTpl);
      assert Now() == old(Now());
      rest := RunEventQueue(tape);
    }
  }

  lemma SharedEvent(queue: seq<Node>, a: Event, c: Event)
    requires forall n :: n in queue ==> n.event == a || n.event == c
    ensures 2 < |queue| ==>
      queue[0].event == queue[1].event || queue[0].event == queue[2].event || queue[1].event == queue[2].event
  {
    assert 2 < |queue| ==> queue[0] in queue && queue[1] in queue && queue[2] in queue;
  }

  lemma TwoNodes(queue: seq<Node>, a: Event, c: Event)
    requires Ordered(queue) && Unique(queue) && Queued(queue, a) && Queued(queue, c) && a.tpl > c.tpl
    requires forall n :: n in queue ==> n.event == a || n.event == c
    ensures |queue| == 2 && queue[0].event == a && queue[1].event == c
  {
    SharedEvent(queue, a, c);
    var m :| m in queue && m.event == a;
    var n :| n in queue && n.event == c;
    assert 1 < |queue| ==> Earlier(queue[0], queue[1]);
  }

  lemma OneNode(queue: seq<Node>, a: Event)
    requires Unique(queue) && Queued(queue, a) && forall n :: n in queue ==> n.event == a
    ensures |queue| == 1 && queue[0].event == a
  {
    assert forall i :: 0 <= i < |queue| ==> queue[i] in queue;
    assert 1 < |queue| ==> queue[0].event != queue[1].event;
  }

  // Not every event above the TPL is notified by RestoreTpl: A waits at TPL 8, its function signals B, also
  // at TPL 8, and B stays behind when the TPL is back at 4.
  method LateJoiner() returns (ctx: Context, b: Event)
    ensures fresh(ctx) && ctx.Inv() && ctx.frames == []
    ensures ctx.tpl == 4 < b.tpl == 8 && Queued(ctx.queue, b)
  {
    hide Accounted, RunOver, RaisedBy, Quietly, FramesOk;
    var a := new Event(8, true, None, true);
    b := new Event(8, true, None, true);
    ctx := new Context([a, b], i => true);
    var old1 := ctx.RaiseTpl(8);
    var rest := ctx.SignalEvent(a, []);
    OneNode(ctx.queue, a);
    rest := ctx.RestoreTpl(4, [Signal(b)]);
  }

  // The same with a node behind: A waits at TPL 16 and C at TPL 8, and A's function signals B at TPL 16. B
  // joins between them, but the dispatch goes on with C.
  method Overtaken() returns (ctx: Context, b: Event)
    ensures fresh(ctx) && ctx.Inv() && ctx.frames == []
    ensures ctx.tpl == 4 < b.tpl == 16 && Queued(ctx.queue, b)
  {
    hide Accounted, RunOver, RaisedBy, Quietly, FramesOk, QueueOk;
    ctx, b := TwoWaiting();
    var rest := ctx.RestoreTpl(4, [Signal(b)]);
  }

  method TwoWaiting() returns (ctx: Context, b: Event)
    ensures fresh(ctx) && ctx.Inv() && ctx.frames == [] && ctx.tpl == 16 && forall i :: ctx.grant(i)
    ensures fresh(ctx.events) && b in ctx.events && b.tpl == 16 && Fresh(ctx.Now(), b)
    ensures |ctx.queue| == 2 && ctx.queue[0].event.tpl == 16 && ctx.queue[1].event.tpl == 8
  {
    hide Accounted, RunOver, RaisedBy, Quietly, FramesOk, News, Stays, Earlier, Members, Signalled, Served;
    var a := new Event(16, true, None, true);
    b := new Event(16, true, None, true);
    var c := new Event(8, true, None, true);
    ctx := new Context([a, b, c], i => true);
    var old1 := ctx.RaiseTpl(16);
    var rest := ctx.SignalEvent(a, []);
    OneNode(ctx.queue, a);
    WaitBelow(ctx, a, c);
  }

  // An event at a lower TPL joins a single waiting one.
  method WaitBelow(ctx: Context, a: Event, c: Event)
    requires ctx.Inv() && c in ctx.events && |ctx.queue| == 1 && ctx.queue[0].event == a && c.tpl < a.tpl <= ctx.tpl
    requires Fresh(ctx.Now(), c) && forall i :: ctx.grant(i)
    modifies ctx, ctx.events
    ensures ctx.Inv() && ctx.frames == old(ctx.frames) && ctx.events == old(ctx.events) && ctx.tpl == old(ctx.tpl)
    ensures |ctx.queue| == 2 && ctx.queue[0].event == a && ctx.queue[1].event == c
    ensures forall e :: e in ctx.events && e.tpl <= ctx.tpl && e != c ==> e.signaled == old(e.signaled)
  {
    hide RunOver, RaisedBy, Quietly, FramesOk, News, Stays, Earlier, Members, Signalled, Served;
    assert ctx.queue[0] in ctx.queue && Queued(ctx.queue, a);
    ghost var s1 := ctx.Now();
    var rest := ctx.SignalEvent(c, []);
    AccountedServed(s1, s1, ctx.Now(), ctx.tpl);
    TwoNodes(ctx.queue, a, c);
  }

  // The dispatch takes back the signal of an EVT_NOTIFY_SIGNAL event, so that signalling it again notifies it
  // again; any other event stays signalled, and signalling it again does nothing.
  method SignalTwice(ctx: Context, e: Event) returns (ghost mid: nat)
    requires ctx.Inv() && e in ctx.events && Fresh(ctx.Now(), e) && e.tpl > ctx.tpl && forall i :: ctx.grant(i)
    modifies ctx, ctx.events
    ensures |old(ctx.log)| <= mid <= |ctx.log| && e in ctx.log[|old(ctx.log)|..mid]
    ensures if e.notifySignal then e in ctx.log[mid..] else mid == |ctx.log|
  {
    hide Accounted, RunOver, RaisedBy, Quietly, FramesOk, QueueOk;
    ghost var s0 := ctx.Now();
    var rest := ctx.SignalEvent(e, []);
    mid := |ctx.log|;
    ghost var s1 := ctx.Now();
    assert e in News(s0, s1);
    rest := ctx.SignalEvent(e, []);
    assert e.notifySignal ==> e in News(s1, ctx.Now());
    assert s1.log <= ctx.log;
  }

  // The highest TPL is 31, whatever is asked for.
  lemma ClampMeans(tpl: nat)
    ensures Clamp(tpl) <= 31 && (tpl <= 31 ==> Clamp(tpl) == tpl) && (tpl > 31 ==> Clamp(tpl) == 31)
  {
  }

  function Clamp(tpl: nat): nat {
    if tpl > TPL_HIGH_LEVEL then TPL_HIGH_LEVEL else tpl
  }
}
