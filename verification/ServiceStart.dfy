// The service scheduler: services are started once everything they depend on is
// started and everything they come after has been tried.
module ServiceStart {
  type Guid = nat
  type Instance = nat   // an instance, by its place in memory

  datatype Status = Stopped | Starting | Started | Stopping | Failed | Conditioning | Skip

  datatype Service = Service(
    valid: bool,               // svc_ins_valid of the instance
    guid: Guid,
    offers: seq<Guid>,         // provides
    depends: seq<Guid>,
    after: seq<Guid>,
    hasCondition: bool,
    disabled: bool,
    restart: bool)

  type Table = map<Instance, Service>
  type Statuses = map<Instance, Status>

  // svc_is_guid
  predicate IsGuid(s: Service, g: Guid) { g == s.guid || g in s.offers }

  predicate Provider(table: Table, status: Statuses, i: Instance, g: Guid) {
    i in table && i in status && table[i].valid && IsGuid(table[i], g)
  }

  // efi_service_is_svc_started
  predicate SvcStarted(table: Table, status: Statuses, order: seq<Instance>, g: Guid) {
    exists i :: i in order && Provider(table, status, i, g) && status[i] == Started
  }

  // efi_service_is_svc_tried
  predicate SvcTried(table: Table, status: Statuses, order: seq<Instance>, g: Guid) {
    exists i :: i in order && Provider(table, status, i, g) && status[i] != Stopped
  }

  // efi_service_is_svc_depends_done
  predicate DependsDone(table: Table, status: Statuses, order: seq<Instance>, s: Service) {
    && (forall g :: g in s.depends ==> SvcStarted(table, status, order, g))
    && (forall g :: g in s.after ==> SvcTried(table, status, order, g))
  }

  // A GUID counts as started by its own instance and by any instance that offers it, and by nothing else; the
  // same for tried, with every status but stopped.
  lemma StartedMeans(table: Table, status: Statuses, order: seq<Instance>, g: Guid)
    ensures SvcStarted(table, status, order, g) <==>
      exists i :: i in order && i in table && i in status && table[i].valid && status[i] == Started &&
        (table[i].guid == g || exists k :: 0 <= k < |table[i].offers| && table[i].offers[k] == g)
    ensures SvcTried(table, status, order, g) <==>
      exists i :: i in order && i in table && i in status && table[i].valid &&
        status[i] in {Starting, Started, Stopping, Failed, Conditioning, Skip} &&
        (table[i].guid == g || exists k :: 0 <= k < |table[i].offers| && table[i].offers[k] == g)
  {
    if SvcStarted(table, status, order, g) {
      var i :| i in order && Provider(table, status, i, g) && status[i] == Started;
      assert i in table && i in status && table[i].valid;
    }
    if SvcTried(table, status, order, g) {
      var i :| i in order && Provider(table, status, i, g) && status[i] != Stopped;
      assert i in table && i in status && table[i].valid;
    }
    forall i | i in order && i in table && i in status && table[i].valid
      ensures (exists k :: 0 <= k < |table[i].offers| && table[i].offers[k] == g) <==> g in table[i].offers
      ensures table[i].guid == g || g in table[i].offers ==> Provider(table, status, i, g)
    {
    }
  }

  // An instance that depends on a GUID a started instance merely offers may start.
  lemma OfferedIsEnough(table: Table, status: Statuses, order: seq<Instance>, ins: Instance, i: Instance)
    requires ins in table && ins in status && table[ins].valid && !table[ins].disabled && !table[ins].hasCondition
    requires status[ins] == Stopped && table[ins].after == []
    requires i in order && i in table && i in status && table[i].valid && status[i] == Started
    requires forall g :: g in table[ins].depends ==> g in table[i].offers
    ensures CanStart(table, status, order, ins, false)
  {
    forall g | g in table[ins].depends
      ensures SvcStarted(table, status, order, g)
    {
      assert Provider(table, status, i, g);
    }
  }

  // What held when an instance entered service_starting.
  datatype StartRecord = StartRecord(ins: Instance, status: Statuses)

  predicate GoodStart(table: Table, order: seq<Instance>, r: StartRecord) {
    && r.ins in table && r.ins in order && r.ins in r.status && r.status[r.ins] == Starting
    && table[r.ins].valid && DependsDone(table, r.status, order, table[r.ins])
  }

  // A started instance's dependencies are provided by started instances.
  predicate DependencyClosed(table: Table, status: Statuses, order: seq<Instance>) {
    forall i, g :: i in order && i in table && i in status && status[i] == Started && g in table[i].depends ==>
      SvcStarted(table, status, order, g)
  }

  lemma DependsMonotone(table: Table, a: Statuses, b: Statuses, order: seq<Instance>, s: Service)
    requires DependsDone(table, a, order, s)
    requires forall i :: i in a ==>
      i in b && (a[i] == Started ==> b[i] == Started) && (a[i] != Stopped ==> b[i] != Stopped)
    ensures DependsDone(table, b, order, s)
  {
    forall g | g in s.depends
      ensures SvcStarted(table, b, order, g)
    {
      var i :| i in order && Provider(table, a, i, g) && a[i] == Started;
      assert Provider(table, b, i, g);
    }
    forall g | g in s.after
      ensures SvcTried(table, b, order, g)
    {
      var i :| i in order && Provider(table, a, i, g) && a[i] != Stopped;
      assert Provider(table, b, i, g);
    }
  }

  lemma StartedMonotone(table: Table, a: Statuses, b: Statuses, order: seq<Instance>, g: Guid)
    requires SvcStarted(table, a, order, g)
    requires forall i :: i in a ==> i in b && (a[i] == Started ==> b[i] == Started)
    ensures SvcStarted(table, b, order, g)
  {
    var i :| i in order && Provider(table, a, i, g) && a[i] == Started;
    assert Provider(table, b, i, g);
  }

  // ---- One visit of the loop ----

  // The loop considers the instance at all.
  predicate Eligible(table: Table, status: Statuses, order: seq<Instance>, ins: Instance)
    requires ins in table && ins in status
  {
    table[ins].valid && !table[ins].disabled && DependsDone(table, status, order, table[ins])
  }

  // Its condition can be evaluated now.
  predicate Askable(table: Table, status: Statuses, ins: Instance)
    requires ins in table && ins in status
  {
    table[ins].valid && table[ins].hasCondition && status[ins] in {Skip, Failed, Stopped}
  }

  predicate CanStart(table: Table, status: Statuses, order: seq<Instance>, ins: Instance, holds: bool)
    requires ins in table && ins in status
  {
    && Eligible(table, status, order, ins)
    && if table[ins].hasCondition then Askable(table, status, ins) && holds
       else status[ins] == Stopped || (status[ins] == Failed && table[ins].restart)
  }

  // The statuses after a visit, given what the condition and the start answer.
  function Visited(table: Table, status: Statuses, order: seq<Instance>, ins: Instance, holds: bool,
                   succeeds: bool): Statuses
    requires ins in table && ins in status
  {
    if CanStart(table, status, order, ins, holds) then status[ins := if succeeds then Started else Failed]
    else if Eligible(table, status, order, ins) && Askable(table, status, ins) then status[ins := Skip]
    else status
  }

  // A visit never makes an instance stopped, and loses no started one.
  lemma VisitKeeps(table: Table, status: Statuses, order: seq<Instance>, ins: Instance, holds: bool, succeeds: bool)
    requires ins in table && ins in status
    ensures var after := Visited(table, status, order, ins, holds, succeeds);
      && after.Keys == status.Keys
      && forall i :: i in status ==>
        (status[i] == Started ==> after[i] == Started) && (status[i] != Stopped ==> after[i] != Stopped)
  {
  }

  // An instance that could be started now, and again after a failure.
  predicate Waits(table: Table, status: Statuses, order: seq<Instance>, i: Instance) {
    && i in table && i in status && i in order && Eligible(table, status, order, i)
    && status[i] in {Stopped, Failed} && (table[i].hasCondition || table[i].restart)
  }

  // It goes on waiting, whatever is visited, when all its starts fail.
  lemma VisitWaits(table: Table, status: Statuses, order: seq<Instance>, ins: Instance, holds: bool,
                   succeeds: bool, i: Instance)
    requires ins in table && ins in status && Waits(table, status, order, i)
    requires ins == i ==> !succeeds && (table[i].hasCondition ==> holds)
    ensures Waits(table, Visited(table, status, order, ins, holds, succeeds), order, i)
    ensures ins == i ==> CanStart(table, status, order, ins, holds)
  {
    VisitKeeps(table, status, order, ins, holds, succeeds);
    DependsMonotone(table, status, Visited(table, status, order, ins, holds, succeeds), order, table[i]);
    hide DependsDone;
  }

  // The rounds of the loop when every condition and every start has one answer: the statuses, and the number
  // of starts.
  function RoundOf(table: Table, status: Statuses, order: seq<Instance>, rest: seq<Instance>, holds: set<Instance>,
                   ok: set<Instance>): (Statuses, nat)
    requires forall i :: i in rest ==> i in table && i in status
    decreases |rest|
  {
    if rest == [] then (status, 0)
    else
      var i := rest[0];
      var next := Visited(table, status, order, i, i in holds, i in ok);
      VisitKeeps(table, status, order, i, i in holds, i in ok);
      var r := RoundOf(table, next, order, rest[1..], holds, ok);
      (r.0, r.1 + if CanStart(table, status, order, i, i in holds) then 1 else 0)
  }

  // ---- The start rule and its least fixed point ----

  // For services without condition whose start has a fixed outcome, the statuses once exactly the instances
  // in `tried` have been started.
  function After(init: Statuses, ok: set<Instance>, tried: set<Instance>): Statuses {
    map i | i in init :: if i in tried then (if i in ok then Started else Failed) else init[i]
  }

  // The rule: a stopped, enabled instance whose dependencies are done is started, and so is one that failed
  // before if it has a restart flag.
  predicate Ready(table: Table, init: Statuses, order: seq<Instance>, ok: set<Instance>, tried: set<Instance>,
                  i: Instance) {
    && i in order && Restartable(table, init, i)
    && table[i].valid && !table[i].disabled
    && DependsDone(table, After(init, ok, tried), order, table[i])
  }

  ghost predicate Closed(table: Table, init: Statuses, order: seq<Instance>, ok: set<Instance>, tried: set<Instance>) {
    forall i :: Ready(table, init, order, ok, tried, i) ==> i in tried
  }

  // Instances without condition that a run could start at all.
  predicate Restartable(table: Table, init: Statuses, i: Instance) {
    i in table && i in init && (init[i] == Stopped || (init[i] == Failed && table[i].restart))
  }

  predicate Startable(table: Table, init: Statuses, tried: set<Instance>) {
    forall j :: j in tried ==> Restartable(table, init, j)
  }

  // Instances whose start fails and is repeated.
  predicate Retried(table: Table, ok: set<Instance>, i: Instance) {
    i in table && table[i].restart && i !in ok
  }

  ghost predicate SomeRetried(table: Table, ok: set<Instance>, tried: set<Instance>) {
    exists i :: i in tried && Retried(table, ok, i)
  }

  ghost predicate BelowClosed(table: Table, init: Statuses, order: seq<Instance>, ok: set<Instance>,
                              tried: set<Instance>) {
    forall p: set<Instance> :: Startable(table, init, p) && Closed(table, init, order, ok, p) ==> tried <= p
  }

  ghost predicate AllReady(table: Table, init: Statuses, order: seq<Instance>, ok: set<Instance>,
                           tried: set<Instance>) {
    forall i :: i in tried ==> Ready(table, init, order, ok, tried, i)
  }

  ghost predicate LeastFixedPoint(table: Table, init: Statuses, order: seq<Instance>, ok: set<Instance>,
                                  tried: set<Instance>) {
    && (forall i :: i in tried <==> Ready(table, init, order, ok, tried, i))
    && BelowClosed(table, init, order, ok, tried)
  }

  lemma ReadyMonotone(table: Table, init: Statuses, order: seq<Instance>, ok: set<Instance>,
                      small: set<Instance>, large: set<Instance>, i: Instance)
    requires small <= large && Ready(table, init, order, ok, small, i) && Startable(table, init, large)
    ensures Ready(table, init, order, ok, large, i)
  {
    DependsMonotone(table, After(init, ok, small), After(init, ok, large), order, table[i]);
  }

  // One more start by the rule stays below every closed set, and keeps every
  // earlier start justified.
  lemma StartStep(table: Table, init: Statuses, order: seq<Instance>, ok: set<Instance>, tried: set<Instance>,
                  ins: Instance)
    requires Startable(table, init, tried) && Ready(table, init, order, ok, tried, ins)
    requires AllReady(table, init, order, ok, tried)
    requires BelowClosed(table, init, order, ok, tried)
    ensures var more := tried + {ins};
      && Startable(table, init, more)
      && AllReady(table, init, order, ok, more)
      && BelowClosed(table, init, order, ok, more)
  {
    var more := tried + {ins};
    forall i | i in more
      ensures Ready(table, init, order, ok, more, i)
    {
      ReadyMonotone(table, init, order, ok, tried, more, i);
    }
    forall p: set<Instance> | Startable(table, init, p) && Closed(table, init, order, ok, p)
      ensures more <= p
    {
      ReadyMonotone(table, init, order, ok, tried, p, ins);
    }
  }

  // The rule sees the list of instances as a set.
  lemma ReadyIgnoresOrder(table: Table, init: Statuses, order: seq<Instance>, other: seq<Instance>,
                          ok: set<Instance>, tried: set<Instance>, i: Instance)
    requires forall j :: j in order <==> j in other
    requires Ready(table, init, order, ok, tried, i)
    ensures Ready(table, init, other, ok, tried, i)
  {
    var a := After(init, ok, tried);
    forall g | g in table[i].depends
      ensures SvcStarted(table, a, other, g)
    {
      var j :| j in order && Provider(table, a, j, g) && a[j] == Started;
    }
    forall g | g in table[i].after
      ensures SvcTried(table, a, other, g)
    {
      var j :| j in order && Provider(table, a, j, g) && a[j] != Stopped;
    }
  }

  // The outcome does not depend on the order of the list.
  lemma OrderIrrelevant(table: Table, init: Statuses, order: seq<Instance>, other: seq<Instance>,
                        ok: set<Instance>, t: set<Instance>, u: set<Instance>)
    requires forall j :: j in order <==> j in other
    requires LeastFixedPoint(table, init, order, ok, t) && LeastFixedPoint(table, init, other, ok, u)
    ensures t == u && After(init, ok, t) == After(init, ok, u)
  {
    forall i | Ready(table, init, other, ok, t, i)
      ensures i in t
    {
      ReadyIgnoresOrder(table, init, other, order, ok, t, i);
    }
    assert Closed(table, init, other, ok, t);
    forall i | Ready(table, init, order, ok, u, i)
      ensures i in u
    {
      ReadyIgnoresOrder(table, init, order, other, ok, u, i);
    }
    assert Closed(table, init, order, ok, u);
  }

  // A status change of an instance that is not started, by its condition or its
  // start, loses no started instance and no dependency of one.
  lemma StepClosed(table: Table, a: Statuses, order: seq<Instance>, ins: Instance, st: Status)
    requires ins in table && ins in a && a[ins] != Started
    requires st == Started ==> DependsDone(table, a[ins := Starting], order, table[ins])
    requires DependencyClosed(table, a, order)
    ensures DependencyClosed(table, a[ins := st], order)
  {
    var b := a[ins := st];
    forall i, g | i in order && i in table && i in b && b[i] == Started && g in table[i].depends
      ensures SvcStarted(table, b, order, g)
    {
      if i == ins {
        StartedMonotone(table, a[ins := Starting], b, order, g);
      } else {
        StartedMonotone(table, a, b, order, g);
      }
    }
  }

  // What a visit of an instance without condition comes to in the tracked statuses: it is started exactly
  // if the rule says so and it has not been started yet or failed and is repeated.
  lemma VisitTracked(table: Table, init: Statuses, order: seq<Instance>, ok: set<Instance>, tried: set<Instance>,
                     ins: Instance, holds: bool, succeeds: bool)
    requires ins in table && ins in init && ins in order && !table[ins].hasCondition && (succeeds <==> ins in ok)
    requires Startable(table, init, tried) && AllReady(table, init, order, ok, tried)
    ensures var a := After(init, ok, tried);
      var starts := Ready(table, init, order, ok, tried, ins);
      && (CanStart(table, a, order, ins, holds) <==> starts && (ins !in tried || Retried(table, ok, ins)))
      && Visited(table, a, order, ins, holds, succeeds) == After(init, ok, if starts then tried + {ins} else tried)
  {
    hide DependsDone;
    if ins in tried {
      assert Ready(table, init, order, ok, tried, ins);
      assert tried + {ins} == tried;
    }
  }

  // A round can leave the instance where it is.
  predicate Passed(table: Table, init: Statuses, order: seq<Instance>, ok: set<Instance>, tried: set<Instance>,
                   i: Instance) {
    Ready(table, init, order, ok, tried, i) ==> i in tried && !Retried(table, ok, i)
  }

  lemma RoundClosed(table: Table, init: Statuses, order: seq<Instance>, ok: set<Instance>, tried: set<Instance>)
    requires forall j :: 0 <= j < |order| ==> Passed(table, init, order, ok, tried, order[j])
    requires AllReady(table, init, order, ok, tried)
    ensures Closed(table, init, order, ok, tried) && !SomeRetried(table, ok, tried)
  {
    forall i | Ready(table, init, order, ok, tried, i)
      ensures i in tried && !Retried(table, ok, i)
    {
      var j :| 0 <= j < |order| && order[j] == i;
      assert Passed(table, init, order, ok, tried, order[j]);
    }
  }

  // What a round over the first k instances has done to the set of tried ones.
  ghost predicate Counted(table: Table, init: Statuses, order: seq<Instance>, ok: set<Instance>, tried: set<Instance>,
                          more: set<Instance>, k: nat, round: nat) {
    && k <= |order| && tried <= more
    && (round > 0 ==> tried != more || SomeRetried(table, ok, more))
    && (round == 0 ==> more == tried && forall j :: 0 <= j < k ==> Passed(table, init, order, ok, tried, order[j]))
  }

  lemma StepCounts(table: Table, init: Statuses, order: seq<Instance>, ok: set<Instance>, tried: set<Instance>,
                   was: set<Instance>, k: nat, round: nat, started: bool)
    requires k < |order| && Counted(table, init, order, ok, tried, was, k, round)
    requires started <==>
      Ready(table, init, order, ok, was, order[k]) && (order[k] !in was || Retried(table, ok, order[k]))
    ensures var more := if Ready(table, init, order, ok, was, order[k]) then was + {order[k]} else was;
      Counted(table, init, order, ok, tried, more, k + 1, if started then round + 1 else round)
  {
    hide Ready;
    var ins := order[k];
    if Ready(table, init, order, ok, was, ins) {
      var more := was + {ins};
      assert SomeRetried(table, ok, was) ==> SomeRetried(table, ok, more);
      assert ins in more;
      if ins in was {
        assert more == was;
      }
    }
  }

  lemma RoundEnds(table: Table, init: Statuses, order: seq<Instance>, ok: set<Instance>, tried: set<Instance>,
                  more: set<Instance>, round: nat)
    requires Counted(table, init, order, ok, tried, more, |order|, round) && AllReady(table, init, order, ok, more)
    ensures tried <= more && (round > 0 ==> tried != more || SomeRetried(table, ok, more))
    ensures round == 0 ==> more == tried && Closed(table, init, order, ok, more) && !SomeRetried(table, ok, more)
  {
    hide Ready, AllReady, Closed, SomeRetried, Passed;
    if round == 0 {
      RoundClosed(table, init, order, ok, more);
    }
  }

  // Those of a set that waited at the start of a round wait on, and have been started if visited.
  ghost predicate WaitOn(table: Table, order: seq<Instance>, hopeless: set<Instance>, a: Statuses, b: Statuses,
                         k: nat, round: nat) {
    && k <= |order|
    && forall i :: i in hopeless && Waits(table, a, order, i) ==>
      Waits(table, b, order, i) && (i in order[..k] ==> round > 0)
  }

  lemma StepWaits(table: Table, order: seq<Instance>, hopeless: set<Instance>, a: Statuses, b: Statuses, k: nat,
                  round: nat, holds: bool, succeeds: bool)
    requires k < |order| && order[k] in table && order[k] in b && WaitOn(table, order, hopeless, a, b, k, round)
    requires order[k] in hopeless ==> !succeeds && (table[order[k]].hasCondition ==> holds)
    ensures WaitOn(table, order, hopeless, a, Visited(table, b, order, order[k], holds, succeeds), k + 1,
      if CanStart(table, b, order, order[k], holds) then round + 1 else round)
  {
    assert order[..k + 1] == order[..k] + [order[k]];
    forall i | i in hopeless && Waits(table, b, order, i)
      ensures Waits(table, Visited(table, b, order, order[k], holds, succeeds), order, i)
      ensures i == order[k] ==> CanStart(table, b, order, order[k], holds)
    {
      VisitWaits(table, b, order, order[k], holds, succeeds, i);
    }
    hide Waits, CanStart, Visited;
  }

  // What is left of a round for fixed answers.
  ghost predicate RoundLeft(table: Table, order: seq<Instance>, a: Statuses, b: Statuses, k: nat, round: nat,
                            holds: set<Instance>, ok: set<Instance>) {
    && k <= |order| && (forall i :: i in order ==> i in table && i in a && i in b)
    && var r := RoundOf(table, b, order, order[k..], holds, ok);
      RoundOf(table, a, order, order, holds, ok) == (r.0, round + r.1)
  }

  lemma RoundStarts(table: Table, order: seq<Instance>, a: Statuses, holds: set<Instance>, ok: set<Instance>,
                    hopeless: set<Instance>)
    requires forall i :: i in order ==> i in table && i in a
    ensures RoundLeft(table, order, a, a, 0, 0, holds, ok) && WaitOn(table, order, hopeless, a, a, 0, 0)
  {
    assert order[0..] == order;
  }

  lemma NothingLeft(table: Table, order: seq<Instance>, a: Statuses, b: Statuses, round: nat,
                    holds: set<Instance>, ok: set<Instance>)
    requires RoundLeft(table, order, a, b, |order|, round, holds, ok)
    ensures (forall i :: i in order ==> i in table && i in a)
    ensures (b, round) == RoundOf(table, a, order, order, holds, ok)
  {
    assert order[|order|..] == [];
  }

  lemma NoneCounted(table: Table, init: Statuses, order: seq<Instance>, ok: set<Instance>, tried: set<Instance>)
    ensures Counted(table, init, order, ok, tried, tried, 0, 0)
  {
  }

  lemma StepLeft(table: Table, order: seq<Instance>, a: Statuses, b: Statuses, k: nat, round: nat,
                 holds: set<Instance>, ok: set<Instance>)
    requires k < |order| && RoundLeft(table, order, a, b, k, round, holds, ok)
    ensures order[k] in table && order[k] in b
    ensures var i := order[k];
      RoundLeft(table, order, a, Visited(table, b, order, i, i in holds, i in ok), k + 1,
        if CanStart(table, b, order, i, i in holds) then round + 1 else round, holds, ok)
  {
    var i := order[k];
    VisitKeeps(table, b, order, i, i in holds, i in ok);
    hide CanStart, Visited;
    assert order[k..][1..] == order[k + 1..];
  }

  // The condition under which the loop ends, seen from the least fixed point.
  lemma EndsExactly(table: Table, init: Statuses, order: seq<Instance>, ok: set<Instance>, tried: set<Instance>,
                    u: set<Instance>, done: bool)
    requires Startable(table, init, tried) && BelowClosed(table, init, order, ok, tried)
    requires LeastFixedPoint(table, init, order, ok, u)
    requires done ==> LeastFixedPoint(table, init, order, ok, tried) && !SomeRetried(table, ok, tried)
    requires !done ==> SomeRetried(table, ok, tried)
    ensures done <==> !SomeRetried(table, ok, u)
  {
    assert Closed(table, init, order, ok, u);
    assert Startable(table, init, u) by {
      forall j | j in u
        ensures Restartable(table, init, j)
      {
        assert Ready(table, init, order, ok, u, j);
      }
    }
    assert tried <= u;
    if done {
      assert Closed(table, init, order, ok, tried);
      assert u <= tried;
    }
  }

  lemma NothingTried(table: Table, init: Statuses, order: seq<Instance>, ok: set<Instance>)
    ensures After(init, ok, {}) == init && Startable(table, init, {})
    ensures AllReady(table, init, order, ok, {}) && BelowClosed(table, init, order, ok, {})
  {
  }

  lemma TriedInOrder(table: Table, init: Statuses, order: seq<Instance>, ok: set<Instance>, tried: set<Instance>)
    requires AllReady(table, init, order, ok, tried)
    ensures |tried| <= |order|
  {
    SubsetOfSequence(tried, order);
  }

  lemma ClosedIsLeast(table: Table, init: Statuses, order: seq<Instance>, ok: set<Instance>, tried: set<Instance>)
    requires AllReady(table, init, order, ok, tried)
    requires BelowClosed(table, init, order, ok, tried)
    requires Closed(table, init, order, ok, tried)
    ensures LeastFixedPoint(table, init, order, ok, tried)
  {
  }

  lemma {:induction false} SubsetOfSequence(s: set<Instance>, order: seq<Instance>)
    requires forall i :: i in s ==> i in order
    ensures |s| <= |order|
  {
    if order == [] {
      assert s == {};
    } else {
      SubsetOfSequence(s - {order[0]}, order[1..]);
    }
  }

  // ---- The run ----

  // A run of services without condition has started exactly `tried`, by the rule, each instance once that is
  // not repeated.
  ghost predicate Tracked(table: Table, init: Statuses, order: seq<Instance>, ok: set<Instance>, tried: set<Instance>,
                          from: nat, status: Statuses, log: seq<StartRecord>) {
    && Startable(table, init, tried) && status == After(init, ok, tried)
    && AllReady(table, init, order, ok, tried)
    && BelowClosed(table, init, order, ok, tried)
    && from <= |log|
    && (forall x :: from <= x < |log| ==> log[x].ins in tried)
    && (!SomeRetried(table, ok, tried) ==> |log| == from + |tried|)
    && (forall x, y :: from <= x < y < |log| ==> log[x].ins != log[y].ins || Retried(table, ok, log[x].ins))
  }

  lemma TrackedReady(table: Table, init: Statuses, order: seq<Instance>, ok: set<Instance>, tried: set<Instance>,
                     from: nat, status: Statuses, log: seq<StartRecord>)
    requires Tracked(table, init, order, ok, tried, from, status, log)
    ensures AllReady(table, init, order, ok, tried)
  {
  }

  // Started is never lost, and stays dependency-closed, and the log grows.
  predicate Progressed(table: Table, order: seq<Instance>, a: Statuses, b: Statuses, log: seq<StartRecord>,
                       more: seq<StartRecord>) {
    && (forall i :: i in a && a[i] == Started ==> i in b && b[i] == Started)
    && (DependencyClosed(table, a, order) ==> DependencyClosed(table, b, order))
    && log <= more
  }

  lemma ProgressRefl(table: Table, order: seq<Instance>, a: Statuses, l: seq<StartRecord>)
    ensures Progressed(table, order, a, a, l, l)
  {
  }

  lemma ProgressTrans(table: Table, order: seq<Instance>, a: Statuses, b: Statuses, c: Statuses,
                      l: seq<StartRecord>, m: seq<StartRecord>, n: seq<StartRecord>)
    requires Progressed(table, order, a, b, l, m) && Progressed(table, order, b, c, m, n)
    ensures Progressed(table, order, a, c, l, n)
  {
    hide DependencyClosed;
  }

  // The log of one more visit.
  predicate Logged(a: seq<StartRecord>, b: seq<StartRecord>, ins: Instance, started: bool) {
    a <= b && |b| == |a| + (if started then 1 else 0) && (started ==> b[|a|].ins == ins)
  }

  lemma TrackStep(table: Table, init: Statuses, order: seq<Instance>, ok: set<Instance>, tried: set<Instance>,
                  from: nat, a: Statuses, log: seq<StartRecord>, b: Statuses, more: seq<StartRecord>, ins: Instance,
                  holds: bool, succeeds: bool, started: bool)
    requires Tracked(table, init, order, ok, tried, from, a, log) && Logged(log, more, ins, started)
    requires ins in table && ins in a && ins in order && !table[ins].hasCondition && (succeeds <==> ins in ok)
    requires started <==> CanStart(table, a, order, ins, holds)
    requires b == Visited(table, a, order, ins, holds, succeeds)
    ensures var ready := Ready(table, init, order, ok, tried, ins);
      && Tracked(table, init, order, ok, if ready then tried + {ins} else tried, from, b, more)
      && (started <==> ready && (ins !in tried || Retried(table, ok, ins)))
  {
    hide DependsDone, Eligible, Closed;
    VisitTracked(table, init, order, ok, tried, ins, holds, succeeds);
    hide CanStart, Visited, After;
    if Ready(table, init, order, ok, tried, ins) {
      StartStep(table, init, order, ok, tried, ins);
      hide Ready, AllReady, BelowClosed, Startable;
      if ins in tried {
        assert tried + {ins} == tried;
      }
      assert SomeRetried(table, ok, tried) ==> SomeRetried(table, ok, tried + {ins});
      assert started && Retried(table, ok, ins) ==> SomeRetried(table, ok, tried + {ins});
    }
  }

  // The callbacks of a run: whether the n-th call made for an instance succeeds.  They
  // change no status themselves.
  class RunContext {
    const table: Table
    const order: seq<Instance>       // ctx->svc_ins
    const condition: (Instance, nat) -> bool
    const start: (Instance, nat) -> bool
    var status: Statuses
    var calls: nat
    ghost var log: seq<StartRecord>

    ghost predicate Valid()
      reads this
    {
      && status.Keys == table.Keys
      && (forall i :: i in order ==> i in table)
      && (forall r :: r in log ==> GoodStart(table, order, r))
    }

    // What every call keeps.
    twostate predicate Progress()
      reads this
    {
      Progressed(table, order, old(status), status, old(log), log)
    }

    // efi_service_run_instance_condition; ok is false for every error status.
    method RunInstanceCondition(ins: Instance) returns (ok: bool)
      requires Valid() && ins in table
      modifies this`status, this`calls
      ensures Valid() && log == old(log)
      ensures var holds, asked := condition(ins, old(calls)), Askable(table, old(status), ins);
        && status == (if asked then old(status)[ins := if holds then Stopped else Skip] else old(status))
        && calls == old(calls) + (if asked then 1 else 0)
        && (ok <==> table[ins].valid && (!table[ins].hasCondition || (asked && holds)))
    {
      if !table[ins].valid {
        return false;
      }
      if !table[ins].hasCondition {
        return true;
      }
      if status[ins] !in {Skip, Failed, Stopped} {
        return false;
      }
      status := status[ins := Conditioning];
      ok := condition(ins, calls);
      calls := calls + 1;
      status := status[ins := if ok then Stopped else Skip];
    }

    // efi_service_run_instance_start
    method RunInstanceStart(ins: Instance) returns (ok: bool)
      requires Valid() && ins in table && ins in order
      requires DependsDone(table, status[ins := Starting], order, table[ins])
      modifies this
      ensures Valid()
      ensures var begins := table[ins].valid &&
          (old(status[ins]) == Stopped || (old(status[ins]) == Failed && table[ins].restart));
        && status == (if begins then old(status)[ins := if start(ins, old(calls)) then Started else Failed]
                      else old(status))
        && log == (if begins then old(log) + [StartRecord(ins, old(status)[ins := Starting])] else old(log))
        && calls == old(calls) + (if begins then 1 else 0)
        && (ok <==> begins && start(ins, old(calls)))
    {
      if !table[ins].valid {
        return false;
      }
      if status[ins] == Stopped || (status[ins] == Failed && table[ins].restart) {
        status := status[ins := Starting];
        log := log + [StartRecord(ins, status)];
        ok := start(ins, calls);
        calls := calls + 1;
        status := status[ins := if ok then Started else Failed];
      } else {
        ok := false;
      }
    }

    // efi_service_can_instance_start
    method CanInstanceStart(ins: Instance) returns (can: bool)
      requires Valid() && ins in table
      modifies this`status, this`calls
      ensures Valid() && log == old(log)
      ensures can ==> table[ins].valid && !table[ins].disabled
      ensures can ==> DependsDone(table, status[ins := Starting], order, table[ins])
      ensures can ==> status[ins] == Stopped || (status[ins] == Failed && table[ins].restart)
      // The exact answer, and what the condition left.
      ensures var holds := condition(ins, old(calls));
        var asked := Eligible(table, old(status), order, ins) && Askable(table, old(status), ins);
        && status == (if asked then old(status)[ins := if holds then Stopped else Skip] else old(status))
        && calls == old(calls) + (if asked then 1 else 0)
        && (can <==> CanStart(table, old(status), order, ins, holds))
    {
      if !table[ins].valid || table[ins].disabled {
        return false;
      }
      if !DependsDone(table, status, order, table[ins]) {
        return false;
      }
      ghost var before := status;
      var ok := RunInstanceCondition(ins);
      if !ok {
        return false;
      }
      if before[ins] != Started {
        DependsMonotone(table, before, status[ins := Starting], order, table[ins]);
      }
      match status[ins]
      case Failed => can := table[ins].restart;
      case Stopped => can := true;
      case _ => can := false;
    }

    // Services without condition, each with one outcome.
    ghost predicate Plain(ok: set<Instance>) {
      && (forall i :: i in table ==> !table[i].hasCondition)
      && (forall i, n :: i in table ==> (start(i, n) <==> i in ok))
    }

    // Every condition and every start has one answer.
    ghost predicate Fixed(holds: set<Instance>, ok: set<Instance>) {
      && (forall i, n :: i in table ==> (condition(i, n) <==> i in holds))
      && (forall i, n :: i in table ==> (start(i, n) <==> i in ok))
    }

    // Every start of the instance fails, and its condition, if it has one, always holds.
    ghost predicate Hopeless(i: Instance) {
      i in table && forall n :: !start(i, n) && (table[i].hasCondition ==> condition(i, n))
    }

    ghost function HopelessOnes(): set<Instance> {
      set i | i in table && Hopeless(i)
    }

    // A hopeless instance that waits keeps the loop busy.
    ghost predicate KeptBusy(a: Statuses, b: Statuses, round: nat) {
      forall i :: Waits(table, a, order, i) && Hopeless(i) ==> round > 0 && Waits(table, b, order, i)
    }

    lemma WaitersStarted(a: Statuses, b: Statuses, round: nat)
      requires WaitOn(table, order, HopelessOnes(), a, b, |order|, round)
      ensures KeptBusy(a, b, round)
    {
      assert order[..|order|] == order;
    }

    lemma Answers(holds: set<Instance>, ok: set<Instance>, i: Instance, m: nat, n: nat)
      requires i in table
      ensures Plain(ok) ==> !table[i].hasCondition && (start(i, n) <==> i in ok)
      ensures Fixed(holds, ok) ==> (condition(i, m) <==> i in holds) && (start(i, n) <==> i in ok)
      ensures i in HopelessOnes() ==> !start(i, n) && (table[i].hasCondition ==> condition(i, m))
    {
    }

    ghost predicate Track(init: Statuses, ok: set<Instance>, tried: set<Instance>, from: nat)
      reads this
    {
      Tracked(table, init, order, ok, tried, from, status, log)
    }

    // One step of the loop of efi_service_auto_start.
    method Step(ins: Instance) returns (started: bool)
      requires Valid() && ins in table && ins in order
      modifies this
      ensures Valid() && Progress()
      ensures var holds := condition(ins, old(calls));
        var asked := Eligible(table, old(status), order, ins) && Askable(table, old(status), ins);
        var succeeds := start(ins, old(calls) + if asked then 1 else 0);
        && (started <==> CanStart(table, old(status), order, ins, holds))
        && status == Visited(table, old(status), order, ins, holds, succeeds)
      ensures Logged(old(log), log, ins, started)
    {
      hide DependencyClosed, DependsDone, GoodStart;
      var can := CanInstanceStart(ins);
      started := can;
      if status != old(status) && old(DependencyClosed(table, status, order)) {
        StepClosed(table, old(status), order, ins, status[ins]);
      }
      if can {
        label Able:
        var _ := RunInstanceStart(ins);
        if old@Able(DependencyClosed(table, status, order)) {
          StepClosed(table, old@Able(status), order, ins, status[ins]);
        }
      }
    }

    // A round over the first k instances, from statuses a to b.
    ghost predicate RoundState(init: Statuses, ok: set<Instance>, tried: set<Instance>, from: nat, holds: set<Instance>,
                               a: Statuses, b: Statuses, l: seq<StartRecord>, more: set<Instance>, k: nat, round: nat) {
      && (Plain(ok) ==>
           && Tracked(table, init, order, ok, more, from, b, l)
           && Counted(table, init, order, ok, tried, more, k, round))
      && WaitOn(table, order, HopelessOnes(), a, b, k, round)
      && (Fixed(holds, ok) ==> RoundLeft(table, order, a, b, k, round, holds, ok))
    }

    ghost function NextTried(init: Statuses, ok: set<Instance>, tried: set<Instance>, ins: Instance): set<Instance> {
      if Plain(ok) && Ready(table, init, order, ok, tried, ins) then tried + {ins} else tried
    }

    lemma RoundBegins(init: Statuses, ok: set<Instance>, tried: set<Instance>, from: nat, holds: set<Instance>,
                      a: Statuses, l: seq<StartRecord>)
      requires forall i :: i in order ==> i in table && i in a
      requires Plain(ok) ==> Tracked(table, init, order, ok, tried, from, a, l)
      ensures RoundState(init, ok, tried, from, holds, a, a, l, tried, 0, 0)
    {
      RoundStarts(table, order, a, holds, ok, HopelessOnes());
      NoneCounted(table, init, order, ok, tried);
    }

    // n is the number of callbacks before the visit.
    lemma RoundStep(init: Statuses, ok: set<Instance>, tried: set<Instance>, from: nat, holds: set<Instance>,
                    a: Statuses, b: Statuses, l: seq<StartRecord>, more: set<Instance>, k: nat, round: nat,
                    n: nat, c: Statuses, m: seq<StartRecord>, started: bool)
      requires k < |order| && order[k] in table && order[k] in b
      requires RoundState(init, ok, tried, from, holds, a, b, l, more, k, round) && Logged(l, m, order[k], started)
      requires var ins := order[k]; var h := condition(ins, n);
        var asked := Eligible(table, b, order, ins) && Askable(table, b, ins);
        && (started <==> CanStart(table, b, order, ins, h))
        && c == Visited(table, b, order, ins, h, start(ins, n + if asked then 1 else 0))
      ensures RoundState(init, ok, tried, from, holds, a, c, m, NextTried(init, ok, more, order[k]), k + 1,
        if started then round + 1 else round)
    {
      var ins := order[k];
      var h := condition(ins, n);
      var at := n + if Eligible(table, b, order, ins) && Askable(table, b, ins) then 1 else 0;
      Answers(holds, ok, ins, n, at);
      hide *;
      OneVisit(init, ok, tried, from, holds, a, b, l, more, k, round, h, start(ins, at), c, m, started);
    }

    lemma OneVisit(init: Statuses, ok: set<Instance>, tried: set<Instance>, from: nat, holds: set<Instance>,
                   a: Statuses, b: Statuses, l: seq<StartRecord>, more: set<Instance>, k: nat, round: nat,
                   h: bool, s: bool, c: Statuses, m: seq<StartRecord>, started: bool)
      requires k < |order| && order[k] in table && order[k] in b
      requires RoundState(init, ok, tried, from, holds, a, b, l, more, k, round) && Logged(l, m, order[k], started)
      requires started <==> CanStart(table, b, order, order[k], h)
      requires c == Visited(table, b, order, order[k], h, s)
      requires Plain(ok) ==> !table[order[k]].hasCondition && (s <==> order[k] in ok)
      requires Fixed(holds, ok) ==> (h <==> order[k] in holds) && (s <==> order[k] in ok)
      requires order[k] in HopelessOnes() ==> !s && (table[order[k]].hasCondition ==> h)
      ensures RoundState(init, ok, tried, from, holds, a, c, m, NextTried(init, ok, more, order[k]), k + 1,
        if started then round + 1 else round)
    {
      hide CanStart, Visited, Tracked, Counted, WaitOn, RoundLeft, Ready, Plain, Fixed, Logged, HopelessOnes;
      StepWaits(table, order, HopelessOnes(), a, b, k, round, h, s);
      if Fixed(holds, ok) {
        StepLeft(table, order, a, b, k, round, holds, ok);
      }
      if Plain(ok) {
        TrackStep(table, init, order, ok, more, from, b, l, c, m, order[k], h, s, started);
        StepCounts(table, init, order, ok, tried, more, k, round, started);
      }
    }

    lemma RoundDone(init: Statuses, ok: set<Instance>, tried: set<Instance>, from: nat, holds: set<Instance>,
                    a: Statuses, b: Statuses, l: seq<StartRecord>, more: set<Instance>, round: nat)
      requires RoundState(init, ok, tried, from, holds, a, b, l, more, |order|, round)
      requires forall i :: i in order ==> i in table && i in a
      ensures Plain(ok) ==> Tracked(table, init, order, ok, more, from, b, l) && tried <= more
      ensures Plain(ok) && round > 0 ==> tried != more || SomeRetried(table, ok, more)
      ensures Plain(ok) && round == 0 ==>
        more == tried && Closed(table, init, order, ok, more) && !SomeRetried(table, ok, more)
      ensures KeptBusy(a, b, round)
      ensures Fixed(holds, ok) ==> (b, round) == RoundOf(table, a, order, order, holds, ok)
    {
      hide Tracked, Counted, WaitOn, RoundLeft, Plain, Fixed, Closed, SomeRetried, KeptBusy, HopelessOnes;
      WaitersStarted(a, b, round);
      if Plain(ok) {
        TrackedReady(table, init, order, ok, more, from, b, l);
        RoundEnds(table, init, order, ok, tried, more, round);
      }
      if Fixed(holds, ok) {
        NothingLeft(table, order, a, b, round, holds, ok);
      }
    }

    // One round of efi_service_auto_start over the list.
    method Round(ghost init: Statuses, ghost ok: set<Instance>, ghost tried: set<Instance>, ghost from: nat,
                 ghost holds: set<Instance>)
      returns (round: nat, ghost more: set<Instance>)
      requires Valid()
      requires Plain(ok) ==> Track(init, ok, tried, from)
      modifies this
      ensures Valid() && Progress()
      ensures Plain(ok) ==> Track(init, ok, more, from) && tried <= more
      ensures Plain(ok) && round > 0 ==> tried != more || SomeRetried(table, ok, more)
      ensures Plain(ok) && round == 0 ==>
        more == tried && Closed(table, init, order, ok, more) && !SomeRetried(table, ok, more)
      // A hopeless instance that waits is started, and waits on.
      ensures KeptBusy(old(status), status, round)
      ensures Fixed(holds, ok) ==> (status, round) == RoundOf(table, old(status), order, order, holds, ok)
    {
      hide DependencyClosed, DependsDone, Ready, Closed, After, AllReady, BelowClosed, Startable, GoodStart;
      hide Eligible, Askable, SomeRetried, CanStart, Visited, Tracked, Progressed, RoundState, KeptBusy;
      hide RoundOf, Logged;
      round := 0;
      more := tried;
      ghost var s0 := status;
      ProgressRefl(table, order, status, log);
      RoundBegins(init, ok, tried, from, holds, status, log);
      for k := 0 to |order|
        invariant Valid() && Progress()
        invariant RoundState(init, ok, tried, from, holds, s0, status, log, more, k, round)
      {
        var ins := order[k];
        ghost var h, before, log0 := condition(ins, calls), status, log;
        ghost var m := calls;
        var started := Step(ins);
        ProgressTrans(table, order, s0, before, status, old(log), log0, log);
        RoundStep(init, ok, tried, from, holds, s0, before, log0, more, k, round, m, status, log, started);
        more := NextTried(init, ok, more, ins);
        if started {
          round := round + 1;
        }
      }
      RoundDone(init, ok, tried, from, holds, s0, status, log, more, round);
    }

    // efi_service_auto_start, cut off after maxRounds rounds.
    method AutoStart(maxRounds: nat, ghost ok: set<Instance>, ghost holds: set<Instance>)
      returns (done: bool, ghost tried: set<Instance>)
      requires Valid()
      modifies this
      ensures Valid() && Progress()
      // Services without condition: the least fixed point is reached, and the loop ends, exactly if no start
      // that fails is repeated there.
      ensures Plain(ok) ==> Track(old(status), ok, tried, |old(log)|)
      ensures Plain(ok) && done ==>
        LeastFixedPoint(table, old(status), order, ok, tried) && !SomeRetried(table, ok, tried)
      ensures Plain(ok) && maxRounds > |order| ==> forall u :: LeastFixedPoint(table, old(status), order, ok, u) ==>
        (done <==> !SomeRetried(table, ok, u))
      // The loop never ends while an instance waits whose starts all fail.
      ensures (exists i :: old(Waits(table, status, order, i)) && Hopeless(i)) ==> !done
      ensures Fixed(holds, ok) ==>
        (status, done) == RunOf(table, old(status), order, maxRounds, holds, ok)
    {
      hide DependencyClosed, DependsDone, Ready, Closed, After, Startable, GoodStart, AllReady, BelowClosed;
      hide SomeRetried, Waits;
      tried := {};
      done := false;
      NothingTried(table, status, order, ok);
      NoneRetried(table, ok);
      var rounds := 0;
      while rounds < maxRounds && !done
        invariant rounds <= maxRounds && Valid() && Progress()
        invariant Plain(ok) ==> Track(old(status), ok, tried, |old(log)|)
        invariant Plain(ok) && !done ==> |tried| >= rounds || SomeRetried(table, ok, tried)
        invariant Plain(ok) && done ==> Closed(table, old(status), order, ok, tried) && !SomeRetried(table, ok, tried)
        invariant forall i :: old(Waits(table, status, order, i)) && Hopeless(i) ==>
          !done && Waits(table, status, order, i)
        invariant Fixed(holds, ok) ==>
          (RunOf(table, old(status), order, maxRounds, holds, ok) ==
           if done then (status, true) else RunOf(table, status, order, maxRounds - rounds, holds, ok))
        decreases maxRounds - rounds
      {
        var round;
        ghost var was := tried;
        round, tried := Round(old(status), ok, tried, |old(log)|, holds);
        if Plain(ok) && round > 0 {
          MoreTried(table, ok, was, tried);
        }
        rounds := rounds + 1;
        done := round == 0;
      }
      if Plain(ok) {
        TriedInOrder(table, old(status), order, ok, tried);
        if done {
          ClosedIsLeast(table, old(status), order, ok, tried);
        }
        if maxRounds > |order| {
          forall u | LeastFixedPoint(table, old(status), order, ok, u)
            ensures done <==> !SomeRetried(table, ok, u)
          {
            EndsExactly(table, old(status), order, ok, tried, u, done);
          }
        }
      }
    }
  }

  lemma NoneRetried(table: Table, ok: set<Instance>)
    ensures !SomeRetried(table, ok, {})
  {
  }

  lemma MoreTried(table: Table, ok: set<Instance>, was: set<Instance>, tried: set<Instance>)
    requires was <= tried && (tried != was || SomeRetried(table, ok, tried))
    ensures |tried| > |was| || SomeRetried(table, ok, tried)
    ensures SomeRetried(table, ok, was) ==> SomeRetried(table, ok, tried)
  {
    if tried != was {
      assert tried == was + (tried - was);
      var x :| x in tried && x !in was;
      assert |tried - was| > 0 && |tried| == |was| + |tried - was|;
    }
  }

  // The run for fixed answers: the statuses, and whether it has ended within this many rounds.
  function RunOf(table: Table, status: Statuses, order: seq<Instance>, rounds: nat, holds: set<Instance>,
                 ok: set<Instance>): (Statuses, bool)
    requires forall i :: i in order ==> i in table && i in status
  {
    if rounds == 0 then (status, false)
    else
      var r := RoundOf(table, status, order, order, holds, ok);
      RoundKeys(table, status, order, order, holds, ok);
      if r.1 == 0 then (r.0, true) else RunOf(table, r.0, order, rounds - 1, holds, ok)
  }

  lemma {:induction false} RoundKeys(table: Table, status: Statuses, order: seq<Instance>, rest: seq<Instance>,
                                     holds: set<Instance>, ok: set<Instance>)
    requires forall i :: i in rest ==> i in table && i in status
    ensures RoundOf(table, status, order, rest, holds, ok).0.Keys == status.Keys
    decreases |rest|
  {
    if rest != [] {
      VisitKeeps(table, status, order, rest[0], rest[0] in holds, rest[0] in ok);
      var next := Visited(table, status, order, rest[0], rest[0] in holds, rest[0] in ok);
      RoundKeys(table, next, order, rest[1..], holds, ok);
    }
  }

  // With conditions the order of the list matters: a failed condition lets through what comes after it, but is
  // no start, so that the loop may end in the same round. B comes after A, whose condition is false. The list
  // [B, A] leaves B stopped, the list [A, B] starts it.
  const AFTER_SKIPPED: Table := map[1 := Service(true, 1, [], [], [], true, false, false),
                                    2 := Service(true, 2, [], [], [1], false, false, false)]

  lemma OrderMatters(n: nat)
    requires n >= 2
    ensures var init := map[1 := Stopped, 2 := Stopped];
      && RunOf(AFTER_SKIPPED, init, [2, 1], n, {}, {2}) == (map[1 := Skip, 2 := Stopped], true)
      && RunOf(AFTER_SKIPPED, init, [1, 2], n, {}, {2}) == (map[1 := Skip, 2 := Started], true)
  {
    FirstListed();
    LastListed(map[1 := Stopped, 2 := Stopped], false);
    LastListed(map[1 := Skip, 2 := Started], true);
    hide RoundOf;
  }

  lemma FirstListed()
    ensures RoundOf(AFTER_SKIPPED, map[1 := Stopped, 2 := Stopped], [2, 1], [2, 1], {}, {2})
         == (map[1 := Skip, 2 := Stopped], 0)
  {
    var t, init := AFTER_SKIPPED, map[1 := Stopped, 2 := Stopped];
    assert 1 in [2, 1] && Provider(t, init, 1, 1);
    assert 1 in t[2].after && !SvcTried(t, init, [2, 1], 1);
    assert !CanStart(t, init, [2, 1], 2, false);
    assert Visited(t, init, [2, 1], 1, false, false) == map[1 := Skip, 2 := Stopped];
    assert [2, 1][1..] == [1];
    assert RoundOf(t, init, [2, 1], [1], {}, {2}) == (map[1 := Skip, 2 := Stopped], 0);
  }

  lemma LastListed(init: Statuses, started: bool)
    requires init == if started then map[1 := Skip, 2 := Started] else map[1 := Stopped, 2 := Stopped]
    ensures RoundOf(AFTER_SKIPPED, init, [1, 2], [1, 2], {}, {2})
         == (map[1 := Skip, 2 := Started], if started then 0 else 1)
  {
    var t, mid := AFTER_SKIPPED, init[1 := Skip];
    assert 1 in [1, 2] && Provider(t, mid, 1, 1);
    assert Visited(t, init, [1, 2], 1, false, false) == mid;
    assert [1, 2][1..] == [2];
    assert CanStart(t, mid, [1, 2], 2, false) <==> !started;
    assert Visited(t, mid, [1, 2], 2, false, true) == map[1 := Skip, 2 := Started];
    assert RoundOf(t, mid, [1, 2], [2], {}, {2}) == (map[1 := Skip, 2 := Started], if started then 0 else 1);
  }
}
