/** Schedulers, cycles, the bounded inbox and the shutdown order, as a transition system.

    Each tenant's scheduler fires cycles without joining the previous one; cycles and the publisher
    interleave freely, and a select with several ready cases may take any of them. */
module Cycles {
  import opened Values
  import opened Steps
  import opened Cadence

  const CAPACITY: nat := 1024

  /** How the deferred function of a cycle counts it. */
  datatype Outcome = Completed | Killed | Uncounted

  /** Where a cycle stands. Check(k) is the head of the query loop; past the last query there is no
      check, only the pool message. Its statistics are read when the select is entered, at Sampling,
      and can wait at SendingPool while other cycles sample and send. Unwinding is everything between
      the return (or panic) and the deferred function. */
  datatype Point =
    | Check(k: nat)
    | Querying(k: nat)
    | Sending(k: nat, result: Message)
    | Sampling
    | SendingPool(stats: Stats)
    | Unwinding(completed: bool, panicked: bool)
    | Exited(outcome: Outcome, panicked: bool)

  /** sentAtCancel remembers how many messages had been accepted when the context was cancelled. */
  datatype Cycle = Cycle(due: seq<Query>, at: Point, cancelled: bool, sent: seq<Message>, sentAtCancel: nat)

  datatype Phase = Waiting | Ticking | Returned

  datatype Tenant = Tenant(
    name: string,
    phase: Phase,
    fireTimes: seq<int>,
    lastRun: LastRun,
    cycles: seq<Cycle>,
    completed: nat,
    killed: nat,
    panics: nat)

  /** A message in the inbox, with the cycle that sent it. */
  datatype Envelope = Envelope(tenant: nat, cycle: nat, msg: Message)

  /** accepted records every successful send; it is history, not part of the program. */
  datatype System = System(
    tenants: seq<Tenant>,
    inbox: seq<Envelope>,
    applied: seq<Envelope>,
    accepted: seq<Envelope>,
    root: bool,
    closed: bool,
    publisherDone: bool)

  // ----- one cycle -----

  datatype CycleStep =
    | Cancel
    | Begin
    | QueryReturns(rows: seq<Row>, cols: seq<string>, failed: bool)
    | Send
    | Sample(stats: Stats)
    | SendPool
    | GiveUp
    | Panic
    | Exit

  predicate CanStep(c: Cycle, step: CycleStep, room: bool, closed: bool) {
    match step
    case Cancel => !c.cancelled
    case Begin => c.at.Check?
    case QueryReturns(_, _, _) => c.at.Querying?
    case Send => c.at.Sending? && room && !closed
    case Sample(_) => c.at.Sampling?
    case SendPool => c.at.SendingPool? && room && !closed
    case GiveUp => (c.at.Sending? || c.at.SendingPool?) && c.cancelled
    case Panic => c.at.Querying? || c.at.Sampling? || ((c.at.Sending? || c.at.SendingPool?) && closed)
    case Exit => c.at.Unwinding?
  }

  function CancelCycle(c: Cycle): Cycle {
    if c.cancelled then c else c.(cancelled := true, sentAtCancel := |c.sent|)
  }

  /** What the step hands to the inbox, if anything. */
  function Emits(tenant: string, c: Cycle, step: CycleStep): Option<Message> {
    if step.Send? && c.at.Sending? then Some(c.at.result)
    else if step.SendPool? && c.at.SendingPool? then Some(PoolStat(tenant, c.at.stats))
    else None
  }

  function StepCycle(tenant: string, c: Cycle, step: CycleStep): Cycle {
    match step
    case Cancel => CancelCycle(c)
    case Begin =>
      if !c.at.Check? then c
      else if c.at.k >= |c.due| then c.(at := Sampling)
      else if c.cancelled then c.(at := Unwinding(false, false))
      else c.(at := Querying(c.at.k))
    case QueryReturns(rows, cols, failed) =>
      if !c.at.Querying? || c.at.k >= |c.due| then c
      else c.(at := Sending(c.at.k, QueryResult(tenant, c.due[c.at.k].name, rows, cols, failed)))
    case Send =>
      if !c.at.Sending? then c else c.(at := Check(c.at.k + 1), sent := c.sent + [c.at.result])
    case Sample(stats) => c.(at := SendingPool(stats))
    case SendPool =>
      if !c.at.SendingPool? then c
      else c.(at := Unwinding(true, false), sent := c.sent + [PoolStat(tenant, c.at.stats)])
    case GiveUp => c.(at := Unwinding(false, false))
    case Panic => c.(at := Unwinding(false, true))
    case Exit =>
      if !c.at.Unwinding? then c
      else
        var outcome := if c.at.completed then Completed else if c.cancelled then Killed else Uncounted;
        c.(at := Exited(outcome, c.at.panicked))
  }

  // ----- the system -----

  datatype Action =
    | RootCancel
    | Fire(tenant: nat, now: int)
    | Return(tenant: nat)
    | StepOf(tenant: nat, cycle: nat, step: CycleStep)
    | Receive
    | PublisherReturn
    | CloseInbox

  /** cancelPrev: only the newest cycle can still have a live context. */
  function CancelNewest(cycles: seq<Cycle>): seq<Cycle> {
    if cycles == [] then []
    else cycles[|cycles| - 1 := CancelCycle(cycles[|cycles| - 1])]
  }

  function FireTenant(qs: seq<Query>, t: Tenant, now: int, root: bool): Tenant {
    var admission := Due(qs, t.lastRun, now);
    t.(phase := Ticking,
       fireTimes := t.fireTimes + [now],
       lastRun := admission.lastRun,
       cycles := CancelNewest(t.cycles) + [Cycle(admission.due, Check(0), root, [], 0)])
  }

  function ReturnTenant(t: Tenant): Tenant {
    t.(phase := Returned, cycles := CancelNewest(t.cycles))
  }

  function StepTenant(t: Tenant, cycle: nat, step: CycleStep): Tenant
    requires cycle < |t.cycles|
  {
    var after := StepCycle(t.name, t.cycles[cycle], step);
    var exits := step.Exit? && after.at.Exited?;
    t.(cycles := t.cycles[cycle := after],
       completed := t.completed + if exits && after.at.outcome.Completed? then 1 else 0,
       killed := t.killed + if exits && after.at.outcome.Killed? then 1 else 0,
       panics := t.panics + if exits && after.at.panicked then 1 else 0)
  }

  predicate Enabled(s: System, a: Action) {
    match a
    case RootCancel => !s.root
    case Fire(t, now) =>
      && t < |s.tenants|
      && !s.tenants[t].phase.Returned?
      && var times := s.tenants[t].fireTimes; times == [] || times[|times| - 1] <= now
    case Return(t) => t < |s.tenants| && !s.tenants[t].phase.Returned? && s.root
    case StepOf(t, i, step) =>
      && t < |s.tenants|
      && i < |s.tenants[t].cycles|
      && CanStep(s.tenants[t].cycles[i], step, |s.inbox| < CAPACITY, s.closed)
      && (step.Cancel? ==> s.root)
    case Receive => s.inbox != [] && !s.publisherDone
    case PublisherReturn => !s.publisherDone && (s.root || (s.closed && s.inbox == []))
    case CloseInbox => s.root && !s.closed && forall t :: 0 <= t < |s.tenants| ==> s.tenants[t].phase.Returned?
  }

  function Do(qs: seq<Query>, s: System, a: Action): System
    requires Enabled(s, a)
  {
    match a
    case RootCancel => s.(root := true)
    case Fire(t, now) => s.(tenants := s.tenants[t := FireTenant(qs, s.tenants[t], now, s.root)])
    case Return(t) => s.(tenants := s.tenants[t := ReturnTenant(s.tenants[t])])
    case StepOf(t, i, step) =>
      var moved := s.(tenants := s.tenants[t := StepTenant(s.tenants[t], i, step)]);
      var out := Emits(s.tenants[t].name, s.tenants[t].cycles[i], step);
      if out.None? then moved
      else moved.(inbox := s.inbox + [Envelope(t, i, out.value)], accepted := s.accepted + [Envelope(t, i, out.value)])
    case Receive => s.(inbox := s.inbox[1..], applied := s.applied + [s.inbox[0]])
    case PublisherReturn => s.(publisherDone := true)
    case CloseInbox => s.(closed := true)
  }

  /** Startup: every tenant still connecting or staggering, nothing sent. */
  predicate Initial(s: System) {
    && s.inbox == [] && s.applied == [] && s.accepted == []
    && !s.root && !s.closed && !s.publisherDone
    && forall t :: 0 <= t < |s.tenants| ==> s.tenants[t] == Tenant(s.tenants[t].name, Waiting, [], map[], [], 0, 0, 0)
  }

  predicate ValidTrace(qs: seq<Query>, s: System, actions: seq<Action>)
    decreases |actions|, 0
  {
    actions != [] ==>
      var n := |actions| - 1;
      ValidTrace(qs, s, actions[..n]) && Enabled(After(qs, s, actions[..n]), actions[n])
  }

  function After(qs: seq<Query>, s: System, actions: seq<Action>): System
    requires ValidTrace(qs, s, actions)
    decreases |actions|, 1
  {
    if actions == [] then s
    else
      var n := |actions| - 1;
      Do(qs, After(qs, s, actions[..n]), actions[n])
  }

  // ----- what every cycle keeps -----

  predicate ResultFor(tenant: string, q: Query, msg: Message) {
    msg.QueryResult? && msg.tenant == tenant && msg.query == q.name
  }

  /** The messages are the results of the due queries, in order, then one pool message, as far as they go. */
  ghost predicate InOrder(tenant: string, c: Cycle) {
    && |c.sent| <= |c.due| + 1
    && (forall k :: 0 <= k < |c.sent| && k < |c.due| ==> ResultFor(tenant, c.due[k], c.sent[k]))
    && (|c.sent| == |c.due| + 1 ==> c.sent[|c.due|].PoolStat? && c.sent[|c.due|].tenant == tenant)
  }

  predicate FullySent(c: Cycle) {
    |c.sent| == |c.due| + 1
  }

  ghost predicate PointOk(tenant: string, c: Cycle) {
    match c.at
    case Check(k) => k <= |c.due| && |c.sent| == k
    case Querying(k) => k < |c.due| && |c.sent| == k
    case Sending(k, result) => k < |c.due| && |c.sent| == k && ResultFor(tenant, c.due[k], result)
    case Sampling => |c.sent| == |c.due|
    case SendingPool(_) => |c.sent| == |c.due|
    case Unwinding(completed, panicked) =>
      (completed <==> FullySent(c)) && !(completed && panicked) && (!completed && !panicked ==> c.cancelled)
    case Exited(outcome, panicked) =>
      && (outcome.Completed? <==> FullySent(c))
      && (outcome.Killed? ==> c.cancelled)
      && (outcome.Uncounted? ==> panicked)
  }

  /** After the cancellation at most one more message, or two if they are the last result and the pool message. */
  ghost predicate LateOk(c: Cycle) {
    c.cancelled ==>
      && c.sentAtCancel <= |c.sent| <= c.sentAtCancel + 2
      && (|c.sent| == c.sentAtCancel + 2 ==> FullySent(c) && c.sentAtCancel == |c.due| - 1)
      && (c.at.Querying? || c.at.Sending? ==> |c.sent| == c.sentAtCancel)
  }

  ghost predicate CycleOk(tenant: string, c: Cycle) {
    InOrder(tenant, c) && PointOk(tenant, c) && LateOk(c)
  }

  lemma CycleStepOk(tenant: string, c: Cycle, step: CycleStep, room: bool, closed: bool)
    requires CycleOk(tenant, c) && CanStep(c, step, room, closed)
    ensures CycleOk(tenant, StepCycle(tenant, c, step))
  {
  }

  /** A live context stays live and a cancelled one cancelled; the due list never changes; messages are
      only appended, exactly when the step emits. */
  lemma CycleStepFrame(tenant: string, c: Cycle, step: CycleStep, room: bool, closed: bool)
    requires CanStep(c, step, room, closed)
    ensures var d := StepCycle(tenant, c, step);
            && d.due == c.due
            && (d.cancelled <==> c.cancelled || step.Cancel?)
            && d.sent == c.sent + match Emits(tenant, c, step) case None => [] case Some(m) => [m]
  {
  }
}
