/** The main results about cycles: what each sends, how it is counted, and how shutdown ends. */
module Protocol {
  import opened Values
  import opened Steps
  import opened Cadence
  import opened Cycles
  import opened Discipline

  ghost predicate Reached(qs: seq<Query>, start: System, actions: seq<Action>, s: System) {
    Initial(start) && ValidTrace(qs, start, actions) && s == After(qs, start, actions)
  }

  ghost predicate HasCycle(s: System, t: nat, i: nat) {
    t < |s.tenants| && i < |s.tenants[t].cycles|
  }

  /** The cycle has sent everything it had to: it is past its last send. */
  predicate RanToCompletion(c: Cycle) {
    (c.at.Unwinding? && c.at.completed) || (c.at.Exited? && c.at.outcome.Completed?)
  }

  /** In every reachable state each cycle's due list is what the cadence says for its fire, what it has
      sent is a prefix of those queries' results and then one pool message, it is all of that exactly
      when the cycle completed, and the channel delivers it in that order. */
  lemma MessageDiscipline(qs: seq<Query>, start: System, actions: seq<Action>, s: System, t: nat, i: nat)
    requires Reached(qs, start, actions, s) && HasCycle(s, t, i)
    ensures var tenant := s.tenants[t]; var c := tenant.cycles[i];
            && |tenant.fireTimes| == |tenant.cycles|
            && c.due == DueAt(qs, tenant.fireTimes, i)
            && InOrder(tenant.name, c)
            && (FullySent(c) <==> RanToCompletion(c))
            && FromCycle(s.accepted, t, i) == c.sent
  {
    AlwaysOk(qs, start, actions);
    assert TenantOk(qs, s.tenants[t]) && CycleOk(s.tenants[t].name, s.tenants[t].cycles[i]);
  }

  // ----- after cancellation -----

  ghost predicate CycleGrew(c: Cycle, d: Cycle) {
    && d.due == c.due
    && c.sent <= d.sent
    && (c.cancelled ==> d.cancelled && d.sentAtCancel == c.sentAtCancel)
  }

  ghost predicate TenantGrew(t: Tenant, u: Tenant) {
    && u.name == t.name
    && |t.cycles| <= |u.cycles|
    && forall i :: 0 <= i < |t.cycles| ==> CycleGrew(t.cycles[i], u.cycles[i])
  }

  lemma StepGrowsTenant(t: Tenant, i: nat, step: CycleStep, room: bool, closed: bool)
    requires i < |t.cycles| && CanStep(t.cycles[i], step, room, closed)
    ensures TenantGrew(t, StepTenant(t, i, step))
  {
  }

  lemma ActionGrowsTenant(qs: seq<Query>, s: System, a: Action, t: nat)
    requires Enabled(s, a) && t < |s.tenants|
    ensures |Do(qs, s, a).tenants| == |s.tenants|
    ensures TenantGrew(s.tenants[t], Do(qs, s, a).tenants[t])
  {
    match a
    case Fire(u, now) => assert TenantGrew(s.tenants[u], FireTenant(qs, s.tenants[u], now, s.root));
    case Return(u) => assert TenantGrew(s.tenants[u], ReturnTenant(s.tenants[u]));
    case StepOf(u, i, step) => StepGrowsTenant(s.tenants[u], i, step, |s.inbox| < CAPACITY, s.closed);
    case RootCancel =>
    case Receive =>
    case PublisherReturn =>
    case CloseInbox =>
  }

  lemma {:induction false} CycleHistory(qs: seq<Query>, start: System, actions: seq<Action>, m: nat, t: nat, i: nat)
    requires Initial(start) && ValidTrace(qs, start, actions) && m <= |actions|
    requires ValidTrace(qs, start, actions[..m]) && HasCycle(After(qs, start, actions[..m]), t, i)
    ensures var before, after := After(qs, start, actions[..m]), After(qs, start, actions);
            HasCycle(after, t, i) && CycleGrew(before.tenants[t].cycles[i], after.tenants[t].cycles[i])
            && after.tenants[t].name == before.tenants[t].name
    decreases |actions|
  {
    var n := |actions| - 1;
    if m == |actions| {
      assert actions[..m] == actions;
    } else {
      assert actions[..n][..m] == actions[..m];
      CycleHistory(qs, start, actions[..n], m, t, i);
      ActionGrowsTenant(qs, After(qs, start, actions[..n]), actions[n], t);
    }
  }

  /** Once a cycle's context is cancelled it gets at most two more messages accepted, and two only if
      they are the last query's result and then the pool message. */
  lemma AtMostTwoLateMessages(qs: seq<Query>, start: System, actions: seq<Action>, m: nat, t: nat, i: nat)
    requires Initial(start) && ValidTrace(qs, start, actions) && m <= |actions|
    requires ValidTrace(qs, start, actions[..m]) && HasCycle(After(qs, start, actions[..m]), t, i)
    requires After(qs, start, actions[..m]).tenants[t].cycles[i].cancelled
    ensures HasCycle(After(qs, start, actions), t, i)
    ensures var then' := After(qs, start, actions[..m]).tenants[t].cycles[i].sent;
            var now := After(qs, start, actions).tenants[t];
            && then' <= now.cycles[i].sent
            && var late := now.cycles[i].sent[|then'|..];
               && |late| <= 2
               && (|late| == 2 ==>
                    var due := now.cycles[i].due;
                    && due != []
                    && ResultFor(now.name, due[|due| - 1], late[0])
                    && late[1].PoolStat? && late[1].tenant == now.name)
  {
    CycleHistory(qs, start, actions, m, t, i);
    AlwaysOk(qs, start, actions);
    AlwaysOk(qs, start, actions[..m]);
    var before, after := After(qs, start, actions[..m]), After(qs, start, actions);
    assert TenantOk(qs, before.tenants[t]) && CycleOk(before.tenants[t].name, before.tenants[t].cycles[i]);
    assert TenantOk(qs, after.tenants[t]) && CycleOk(after.tenants[t].name, after.tenants[t].cycles[i]);
  }

  // ----- counting -----

  /** Per tenant, in every reachable state: all but the newest cycle are cancelled, and all of them once
      Run has returned; every fire is completed, killed, still running, or an exit by panic that no
      counter but the panic counter shows; and a cycle that ended neither by completing nor by a panic
      had been cancelled. */
  lemma FiresAccountedFor(qs: seq<Query>, start: System, actions: seq<Action>, s: System, t: nat)
    requires Reached(qs, start, actions, s) && t < |s.tenants|
    ensures var tenant := s.tenants[t];
            && OnlyNewestLive(tenant) && CauseOk(tenant, s.root)
            && |tenant.fireTimes| == tenant.completed + tenant.killed
                                     + Tally(tenant.cycles, RunningCycle) + Tally(tenant.cycles, UncountedCycle)
            && Tally(tenant.cycles, UncountedCycle) <= tenant.panics
            && (forall i :: 0 <= i < |tenant.cycles| && tenant.cycles[i].at.Exited? ==> EndedFairly(tenant.cycles[i]))
  {
    AlwaysOk(qs, start, actions);
    var tenant := s.tenants[t];
    assert TenantOk(qs, tenant);
    TallySplit(tenant.cycles);
    forall i | 0 <= i < |tenant.cycles| && tenant.cycles[i].at.Exited? ensures EndedFairly(tenant.cycles[i]) {
      assert CycleOk(tenant.name, tenant.cycles[i]);
    }
    UncountedPanicked(tenant.name, tenant.cycles);
  }

  /** An ended cycle completed, panicked, or had been cancelled and counts as killed. */
  predicate EndedFairly(c: Cycle)
    requires c.at.Exited?
  {
    c.at.outcome.Completed? || c.at.panicked || (c.at.outcome.Killed? && c.cancelled)
  }

  lemma {:induction false} UncountedPanicked(tenant: string, cycles: seq<Cycle>)
    requires CyclesOk(tenant, cycles)
    ensures Tally(cycles, UncountedCycle) <= Tally(cycles, PanickedCycle)
  {
    if cycles != [] {
      UncountedPanicked(tenant, cycles[..|cycles| - 1]);
      assert CycleOk(tenant, cycles[|cycles| - 1]);
    }
  }

  // ----- the closed inbox -----

  lemma {:induction false} NothingEnqueuedAfterClose(qs: seq<Query>, start: System, actions: seq<Action>, m: nat)
    requires Initial(start) && ValidTrace(qs, start, actions) && m <= |actions|
    requires ValidTrace(qs, start, actions[..m]) && After(qs, start, actions[..m]).closed
    ensures After(qs, start, actions).closed
    ensures After(qs, start, actions).accepted == After(qs, start, actions[..m]).accepted
  {
    var n := |actions| - 1;
    if m == |actions| {
      assert actions[..m] == actions;
    } else {
      assert actions[..n][..m] == actions[..m];
      NothingEnqueuedAfterClose(qs, start, actions[..n], m);
    }
  }

  /** A panic in a cycle always counts: the deferred function adds 1 to the panics, and 1 to the killed
      exactly if the context was cancelled; no message is sent. */
  lemma PanicCounted(qs: seq<Query>, s: System, t: nat, i: nat)
    requires Enabled(s, StepOf(t, i, Panic))
    ensures var c, p := s.tenants[t].cycles[i], Do(qs, s, StepOf(t, i, Panic));
            && Enabled(p, StepOf(t, i, Exit))
            && var after := Do(qs, p, StepOf(t, i, Exit));
               && after.tenants[t].panics == s.tenants[t].panics + 1
               && after.tenants[t].killed == s.tenants[t].killed + (if c.cancelled then 1 else 0)
               && after.tenants[t].completed == s.tenants[t].completed
               && after.tenants[t].cycles[i]
                    == c.(at := Exited(if c.cancelled then Killed else Uncounted, true))
               && after.accepted == s.accepted
  {
  }

  // ----- cycles fired after the root cancellation -----

  /** Cancelled from the start: with queries to run it runs none, sends nothing and ends as killed;
      without any it can send at most the pool message. */
  ghost predicate Stillborn(tenant: string, c: Cycle) {
    && c.cancelled && c.sentAtCancel == 0
    && (c.due != [] ==>
         && c.sent == []
         && (c.at == Check(0) || c.at == Unwinding(false, false) || c.at == Exited(Killed, false)))
    && (c.due == [] ==>
         c.sent == [] || (|c.sent| == 1 && c.sent[0].PoolStat? && c.sent[0].tenant == tenant))
  }

  lemma StepStillborn(tenant: string, c: Cycle, step: CycleStep, room: bool, closed: bool)
    requires Stillborn(tenant, c) && CycleOk(tenant, c) && CanStep(c, step, room, closed)
    ensures Stillborn(tenant, StepCycle(tenant, c, step))
  {
    CycleStepOk(tenant, c, step, room, closed);
  }

  /** Every cycle from the n-th on is stillborn. */
  ghost predicate StillbornFrom(t: Tenant, n: nat) {
    n <= |t.cycles| && forall i :: n <= i < |t.cycles| ==> Stillborn(t.name, t.cycles[i])
  }

  lemma FireStillborn(qs: seq<Query>, t: Tenant, now: int, n: nat)
    requires StillbornFrom(t, n)
    ensures StillbornFrom(FireTenant(qs, t, now, true), n)
  {
    var after := FireTenant(qs, t, now, true);
    forall i | n <= i < |after.cycles| ensures Stillborn(t.name, after.cycles[i]) {
      assert i < |t.cycles| ==> Stillborn(t.name, t.cycles[i]) && after.cycles[i] == t.cycles[i];
    }
  }

  lemma ReturnStillborn(t: Tenant, n: nat)
    requires StillbornFrom(t, n)
    ensures StillbornFrom(ReturnTenant(t), n)
  {
    forall i | n <= i < |t.cycles| ensures Stillborn(t.name, ReturnTenant(t).cycles[i]) {
      assert Stillborn(t.name, t.cycles[i]) && ReturnTenant(t).cycles[i] == t.cycles[i];
    }
  }

  lemma StepTenantStillborn(t: Tenant, i: nat, step: CycleStep, room: bool, closed: bool, n: nat)
    requires StillbornFrom(t, n) && i < |t.cycles| && CycleOk(t.name, t.cycles[i])
    requires CanStep(t.cycles[i], step, room, closed)
    ensures StillbornFrom(StepTenant(t, i, step), n)
  {
    if n <= i {
      assert Stillborn(t.name, t.cycles[i]);
      StepStillborn(t.name, t.cycles[i], step, room, closed);
    }
    forall j | n <= j < |t.cycles| ensures Stillborn(t.name, StepTenant(t, i, step).cycles[j]) {
      assert Stillborn(t.name, t.cycles[j]);
    }
  }

  lemma ActionStillborn(qs: seq<Query>, s: System, a: Action, t: nat, n: nat)
    requires SystemOk(qs, s) && s.root && Enabled(s, a) && t < |s.tenants| && StillbornFrom(s.tenants[t], n)
    ensures var after := Do(qs, s, a);
            after.root && t < |after.tenants| && StillbornFrom(after.tenants[t], n)
  {
    var tenant := s.tenants[t];
    if a.Fire? && a.tenant == t {
      FireStillborn(qs, tenant, a.now, n);
    } else if a.Return? && a.tenant == t {
      ReturnStillborn(tenant, n);
    } else if a.StepOf? && a.tenant == t {
      assert TenantOk(qs, tenant) && CycleOk(tenant.name, tenant.cycles[a.cycle]);
      StepTenantStillborn(tenant, a.cycle, a.step, |s.inbox| < CAPACITY, s.closed, n);
    } else {
      OthersTenant(qs, s, a, t);
    }
  }

  lemma OthersTenant(qs: seq<Query>, s: System, a: Action, t: nat)
    requires Enabled(s, a) && t < |s.tenants|
    requires a.Fire? || a.Return? || a.StepOf? ==> a.tenant != t
    ensures var after := Do(qs, s, a);
            (s.root ==> after.root) && t < |after.tenants| && after.tenants[t] == s.tenants[t]
  {
  }

  /** In every run, a cycle that is fired after the root context was cancelled is stillborn ever after. */
  lemma {:induction false} FiredAfterRootIsStillborn(
    qs: seq<Query>, start: System, actions: seq<Action>, m: nat, t: nat)
    requires Initial(start) && ValidTrace(qs, start, actions) && m <= |actions|
    requires ValidTrace(qs, start, actions[..m]) && After(qs, start, actions[..m]).root && t < |start.tenants|
    ensures var before, after := After(qs, start, actions[..m]), After(qs, start, actions);
            && after.root && t < |before.tenants| && t < |after.tenants|
            && StillbornFrom(after.tenants[t], |before.tenants[t].cycles|)
    decreases |actions|
  {
    var n := |actions| - 1;
    if m == |actions| {
      assert actions[..m] == actions;
      TenantsStay(qs, start, actions);
    } else {
      assert actions[..n][..m] == actions[..m];
      FiredAfterRootIsStillborn(qs, start, actions[..n], m, t);
      AlwaysOk(qs, start, actions[..n]);
      var before, here := After(qs, start, actions[..m]), After(qs, start, actions[..n]);
      ActionStillborn(qs, here, actions[n], t, |before.tenants[t].cycles|);
    }
  }

  lemma {:induction false} TenantsStay(qs: seq<Query>, s: System, actions: seq<Action>)
    requires ValidTrace(qs, s, actions)
    ensures |After(qs, s, actions).tenants| == |s.tenants|
  {
    if actions != [] {
      TenantsStay(qs, s, actions[..|actions| - 1]);
    }
  }

  // ----- sends on the closed inbox -----

  /** A cycle that outlives the close has been cancelled; if a send on the closed inbox panics, the
      deferred function bumps both the panic counter and the killed counter. */
  lemma LateSendCountsTwice(qs: seq<Query>, s: System, t: nat, i: nat)
    requires SystemOk(qs, s) && s.closed && HasCycle(s, t, i)
    requires s.tenants[t].cycles[i].at.Sending? || s.tenants[t].cycles[i].at.SendingPool?
    ensures Enabled(s, StepOf(t, i, Panic))
    ensures var p := Do(qs, s, StepOf(t, i, Panic));
            && Enabled(p, StepOf(t, i, Exit))
            && var after := Do(qs, p, StepOf(t, i, Exit));
               && after.tenants[t].killed == s.tenants[t].killed + 1
               && after.tenants[t].panics == s.tenants[t].panics + 1
               && after.tenants[t].completed == s.tenants[t].completed
               && after.accepted == s.accepted
  {
    assert TenantOk(qs, s.tenants[t]);
    assert s.tenants[t].cycles[i].cancelled;
  }

  // ----- quiescence -----

  /** The steps a cycle can still take, weighing what each send leaves for the publisher to receive. */
  function Left(c: Cycle): nat {
    (match c.at
     case Check(k) => if k <= |c.due| then 4 * (|c.due| - k) + 5 else 5
     case Querying(k) => if k < |c.due| then 4 * (|c.due| - k) + 4 else 4
     case Sending(k, _) => if k < |c.due| then 4 * (|c.due| - k) + 3 else 3
     case Sampling => 4
     case SendingPool(_) => 3
     case Unwinding(_, _) => 1
     case Exited(_, _) => 0)
    + if c.cancelled then 0 else 1
  }

  function LeftAll(cycles: seq<Cycle>): nat {
    if cycles == [] then 0 else LeftAll(cycles[..|cycles| - 1]) + Left(cycles[|cycles| - 1])
  }

  function LeftTenant(t: Tenant): nat {
    LeftAll(t.cycles) + if t.phase.Returned? then 0 else 1
  }

  function LeftTenants(ts: seq<Tenant>): nat {
    if ts == [] then 0 else LeftTenants(ts[..|ts| - 1]) + LeftTenant(ts[|ts| - 1])
  }

  function Flag(b: bool): nat {
    if b then 0 else 1
  }

  function Measure(s: System): nat {
    LeftTenants(s.tenants) + |s.inbox| + Flag(s.root) + Flag(s.closed) + Flag(s.publisherDone)
  }

  lemma {:induction false} LeftAllUpdate(cycles: seq<Cycle>, i: nat, c: Cycle)
    requires i < |cycles|
    ensures LeftAll(cycles[i := c]) == LeftAll(cycles) - Left(cycles[i]) + Left(c)
  {
    var n := |cycles| - 1;
    if i == n {
      assert cycles[i := c][..n] == cycles[..n];
    } else {
      assert cycles[i := c][..n] == cycles[..n][i := c];
      LeftAllUpdate(cycles[..n], i, c);
    }
  }

  lemma {:induction false} LeftTenantsUpdate(ts: seq<Tenant>, t: nat, after: Tenant)
    requires t < |ts|
    ensures LeftTenants(ts[t := after]) == LeftTenants(ts) - LeftTenant(ts[t]) + LeftTenant(after)
  {
    var n := |ts| - 1;
    if t == n {
      assert ts[t := after][..n] == ts[..n];
    } else {
      assert ts[t := after][..n] == ts[..n][t := after];
      LeftTenantsUpdate(ts[..n], t, after);
    }
  }

  lemma StepShrinks(tenant: string, c: Cycle, step: CycleStep, room: bool, closed: bool)
    requires CycleOk(tenant, c) && CanStep(c, step, room, closed)
    ensures Left(StepCycle(tenant, c, step)) + (if Emits(tenant, c, step).Some? then 1 else 0) < Left(c)
  {
  }

  lemma ReturnShrinks(t: Tenant)
    requires !t.phase.Returned?
    ensures LeftTenant(ReturnTenant(t)) < LeftTenant(t)
  {
  }

  lemma StepShrinksTenant(t: Tenant, i: nat, step: CycleStep, room: bool, closed: bool)
    requires i < |t.cycles| && CycleOk(t.name, t.cycles[i]) && CanStep(t.cycles[i], step, room, closed)
    ensures LeftTenant(StepTenant(t, i, step)) + (if Emits(t.name, t.cycles[i], step).Some? then 1 else 0)
              < LeftTenant(t)
  {
    StepShrinks(t.name, t.cycles[i], step, room, closed);
    LeftAllUpdate(t.cycles, i, StepCycle(t.name, t.cycles[i], step));
  }

  /** Every action but a fire brings the system closer to rest. */
  lemma ActionShrinks(qs: seq<Query>, s: System, a: Action)
    requires SystemOk(qs, s) && Enabled(s, a) && !a.Fire?
    ensures Measure(Do(qs, s, a)) < Measure(s)
  {
    match a
    case Return(t) =>
      ReturnShrinks(s.tenants[t]);
      LeftTenantsUpdate(s.tenants, t, ReturnTenant(s.tenants[t]));
    case StepOf(t, i, step) =>
      assert TenantOk(qs, s.tenants[t]) && CycleOk(s.tenants[t].name, s.tenants[t].cycles[i]);
      StepShrinksTenant(s.tenants[t], i, step, |s.inbox| < CAPACITY, s.closed);
      LeftTenantsUpdate(s.tenants, t, StepTenant(s.tenants[t], i, step));
    case RootCancel =>
    case Receive =>
    case PublisherReturn =>
    case CloseInbox =>
  }

  /** Once ticks cease, a run can go on for only so long. */
  lemma {:induction false} BoundedWithoutFires(qs: seq<Query>, s: System, actions: seq<Action>)
    requires SystemOk(qs, s) && ValidTrace(qs, s, actions)
    requires forall k :: 0 <= k < |actions| ==> !actions[k].Fire?
    ensures SystemOk(qs, After(qs, s, actions))
    ensures Measure(After(qs, s, actions)) + |actions| <= Measure(s)
  {
    if actions != [] {
      var n := |actions| - 1;
      BoundedWithoutFires(qs, s, actions[..n]);
      ActionKeepsOk(qs, After(qs, s, actions[..n]), actions[n]);
      ActionShrinks(qs, After(qs, s, actions[..n]), actions[n]);
    }
  }

  /** Everything has ended: no cycle is running, every scheduler has returned, the inbox is closed and
      the publisher has returned. The inbox need not be empty. */
  ghost predicate AtRest(s: System) {
    && (forall t :: 0 <= t < |s.tenants| ==> s.tenants[t].phase.Returned?)
    && (forall t, i :: 0 <= t < |s.tenants| && 0 <= i < |s.tenants[t].cycles| ==> s.tenants[t].cycles[i].at.Exited?)
    && s.closed && s.publisherDone
  }

  /** Once the root context is cancelled every running cycle can move on by itself, even with the inbox
      full and the publisher gone, provided running queries return. */
  lemma EveryCycleCanMove(s: System, t: nat, i: nat) returns (step: CycleStep)
    requires s.root && HasCycle(s, t, i) && !s.tenants[t].cycles[i].at.Exited?
    ensures Enabled(s, StepOf(t, i, step))
  {
    var c := s.tenants[t].cycles[i];
    step := match c.at
      case Check(_) => Begin
      case Querying(_) => QueryReturns([], [], true)
      case Sampling => Sample(Stats(0, 0, 0, 0))
      case Unwinding(_, _) => Exit
      case _ => if c.cancelled then GiveUp else Cancel;
  }

  /** So shutdown ends: a run without ticks that cannot be continued has come to rest. */
  lemma QuietMeansAtRest(qs: seq<Query>, s: System)
    requires SystemOk(qs, s) && s.root
    requires forall a :: Enabled(s, a) ==> a.Fire?
    ensures AtRest(s) && forall a :: !Enabled(s, a)
  {
    forall t | 0 <= t < |s.tenants| ensures s.tenants[t].phase.Returned? {
      assert !Enabled(s, Return(t));
    }
    forall t, i | 0 <= t < |s.tenants| && 0 <= i < |s.tenants[t].cycles|
      ensures s.tenants[t].cycles[i].at.Exited?
    {
      if !s.tenants[t].cycles[i].at.Exited? {
        var step := EveryCycleCanMove(s, t, i);
        assert false;
      }
    }
    assert !Enabled(s, CloseInbox) && !Enabled(s, PublisherReturn);
  }
}
