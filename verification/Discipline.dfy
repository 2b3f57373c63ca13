/** What holds in every reachable state of the cycle protocol. */
module Discipline {
  import opened Values
  import opened Steps
  import opened Cadence
  import opened Cycles

  // ----- counting cycles -----

  function Tally(cycles: seq<Cycle>, p: Cycle -> bool): nat {
    if cycles == [] then 0
    else Tally(cycles[..|cycles| - 1], p) + if p(cycles[|cycles| - 1]) then 1 else 0
  }

  predicate CompletedCycle(c: Cycle) { c.at.Exited? && c.at.outcome.Completed? }
  predicate KilledCycle(c: Cycle) { c.at.Exited? && c.at.outcome.Killed? }
  predicate UncountedCycle(c: Cycle) { c.at.Exited? && c.at.outcome.Uncounted? }
  predicate PanickedCycle(c: Cycle) { c.at.Exited? && c.at.panicked }
  predicate RunningCycle(c: Cycle) { !c.at.Exited? }

  lemma {:induction false} TallyUpdate(cycles: seq<Cycle>, i: nat, c: Cycle, p: Cycle -> bool)
    requires i < |cycles|
    ensures Tally(cycles[i := c], p) ==
              Tally(cycles, p) - (if p(cycles[i]) then 1 else 0) + (if p(c) then 1 else 0)
  {
    var n := |cycles| - 1;
    if i == n {
      assert cycles[i := c][..n] == cycles[..n];
    } else {
      assert cycles[i := c][..n] == cycles[..n][i := c];
      TallyUpdate(cycles[..n], i, c, p);
    }
  }

  lemma {:induction false} TallySplit(cycles: seq<Cycle>)
    ensures |cycles| == Tally(cycles, CompletedCycle) + Tally(cycles, KilledCycle)
                        + Tally(cycles, UncountedCycle) + Tally(cycles, RunningCycle)
  {
    if cycles != [] {
      TallySplit(cycles[..|cycles| - 1]);
    }
  }

  // ----- one tenant -----

  ghost predicate NonDecreasing(times: seq<int>) {
    forall i :: 0 <= i < |times| - 1 ==> times[i] <= times[i + 1]
  }

  ghost predicate ScheduleOk(qs: seq<Query>, t: Tenant) {
    && |t.cycles| == |t.fireTimes|
    && NonDecreasing(t.fireTimes)
    && t.lastRun == LastRunAfter(qs, t.fireTimes)
    && (forall i :: 0 <= i < |t.cycles| ==> t.cycles[i].due == DueAt(qs, t.fireTimes, i))
  }

  /** At most the newest cycle has a live context, and none once Run has returned. */
  ghost predicate OnlyNewestLive(t: Tenant) {
    && (forall i :: 0 <= i < |t.cycles| - 1 ==> t.cycles[i].cancelled)
    && (t.phase.Returned? ==> forall i :: 0 <= i < |t.cycles| ==> t.cycles[i].cancelled)
  }

  ghost predicate CountersOk(t: Tenant) {
    && t.completed == Tally(t.cycles, CompletedCycle)
    && t.killed == Tally(t.cycles, KilledCycle)
    && t.panics == Tally(t.cycles, PanickedCycle)
  }

  ghost predicate TenantOk(qs: seq<Query>, t: Tenant) {
    && ScheduleOk(qs, t)
    && OnlyNewestLive(t)
    && CountersOk(t)
    && CyclesOk(t.name, t.cycles)
  }

  lemma CancelNewestCounters(cycles: seq<Cycle>)
    ensures Tally(CancelNewest(cycles), CompletedCycle) == Tally(cycles, CompletedCycle)
    ensures Tally(CancelNewest(cycles), KilledCycle) == Tally(cycles, KilledCycle)
    ensures Tally(CancelNewest(cycles), PanickedCycle) == Tally(cycles, PanickedCycle)
  {
  }

  lemma FireSchedule(qs: seq<Query>, t: Tenant, now: int, root: bool)
    requires ScheduleOk(qs, t)
    requires t.fireTimes == [] || t.fireTimes[|t.fireTimes| - 1] <= now
    ensures ScheduleOk(qs, FireTenant(qs, t, now, root))
  {
    var times := t.fireTimes + [now];
    var n := |t.fireTimes|;
    assert times[..n] == t.fireTimes;
    forall i | 0 <= i < n ensures DueAt(qs, times, i) == DueAt(qs, t.fireTimes, i) {
      assert times[..i] == t.fireTimes[..i];
    }
  }

  ghost predicate CyclesOk(tenant: string, cycles: seq<Cycle>) {
    forall i :: 0 <= i < |cycles| ==> CycleOk(tenant, cycles[i])
  }

  lemma CancelNewestOk(tenant: string, cycles: seq<Cycle>)
    requires CyclesOk(tenant, cycles)
    ensures CyclesOk(tenant, CancelNewest(cycles))
  {
  }

  lemma FireCounters(qs: seq<Query>, t: Tenant, now: int, root: bool)
    requires CountersOk(t)
    ensures CountersOk(FireTenant(qs, t, now, root))
  {
  }

  lemma FireTenantOk(qs: seq<Query>, t: Tenant, now: int, root: bool)
    requires TenantOk(qs, t) && !t.phase.Returned?
    requires t.fireTimes == [] || t.fireTimes[|t.fireTimes| - 1] <= now
    ensures TenantOk(qs, FireTenant(qs, t, now, root))
  {
    FireSchedule(qs, t, now, root);
    FireCounters(qs, t, now, root);
    CancelNewestOk(t.name, t.cycles);
    var added := Cycle(Due(qs, t.lastRun, now).due, Check(0), root, [], 0);
    assert CycleOk(t.name, added);
    assert CyclesOk(t.name, CancelNewest(t.cycles) + [added]);
  }

  lemma ReturnTenantOk(qs: seq<Query>, t: Tenant)
    requires TenantOk(qs, t)
    ensures TenantOk(qs, ReturnTenant(t))
  {
    CancelNewestCounters(t.cycles);
    CancelNewestOk(t.name, t.cycles);
  }

  lemma StepCounters(t: Tenant, i: nat, step: CycleStep, room: bool, closed: bool)
    requires CountersOk(t) && i < |t.cycles| && CanStep(t.cycles[i], step, room, closed)
    ensures CountersOk(StepTenant(t, i, step))
  {
    var c := StepCycle(t.name, t.cycles[i], step);
    TallyUpdate(t.cycles, i, c, CompletedCycle);
    TallyUpdate(t.cycles, i, c, KilledCycle);
    TallyUpdate(t.cycles, i, c, PanickedCycle);
  }

  lemma StepTenantOk(qs: seq<Query>, t: Tenant, i: nat, step: CycleStep, room: bool, closed: bool)
    requires TenantOk(qs, t) && i < |t.cycles| && CanStep(t.cycles[i], step, room, closed)
    ensures TenantOk(qs, StepTenant(t, i, step))
  {
    CycleStepOk(t.name, t.cycles[i], step, room, closed);
    CycleStepFrame(t.name, t.cycles[i], step, room, closed);
    StepCounters(t, i, step, room, closed);
  }

  // ----- the channel -----

  /** The messages of one cycle among the envelopes, in order. */
  function FromCycle(es: seq<Envelope>, t: nat, i: nat): seq<Message> {
    if es == [] then []
    else
      var last := es[|es| - 1];
      FromCycle(es[..|es| - 1], t, i) + if last.tenant == t && last.cycle == i then [last.msg] else []
  }

  ghost predicate SentByKnownCycle(s: System, e: Envelope) {
    e.tenant < |s.tenants| && e.cycle < |s.tenants[e.tenant].cycles|
  }

  /** What was accepted is what was applied followed by what is waiting, first in first out; and per
      cycle it is exactly what that cycle sent. */
  ghost predicate ChannelOk(s: System) {
    && s.accepted == s.applied + s.inbox
    && |s.inbox| <= 1024
    && (forall k :: 0 <= k < |s.accepted| ==> SentByKnownCycle(s, s.accepted[k]))
    && (forall t, i :: 0 <= t < |s.tenants| && 0 <= i < |s.tenants[t].cycles| ==>
         FromCycle(s.accepted, t, i) == s.tenants[t].cycles[i].sent)
  }

  ghost predicate ClosedOk(s: System) {
    s.closed ==> s.root && forall t :: 0 <= t < |s.tenants| ==> s.tenants[t].phase.Returned?
  }

  /** Without the root cancellation no scheduler has returned, and nothing has cancelled the newest cycle. */
  ghost predicate CauseOk(t: Tenant, root: bool) {
    !root ==> !t.phase.Returned? && (t.cycles != [] ==> !t.cycles[|t.cycles| - 1].cancelled)
  }

  ghost predicate CausesOk(s: System) {
    forall t :: 0 <= t < |s.tenants| ==> CauseOk(s.tenants[t], s.root)
  }

  ghost predicate SystemOk(qs: seq<Query>, s: System) {
    && AllTenantsOk(qs, s.tenants)
    && ChannelOk(s)
    && ClosedOk(s)
    && CausesOk(s)
  }

  lemma {:induction false} FromCycleNone(es: seq<Envelope>, t: nat, i: nat)
    requires forall k :: 0 <= k < |es| ==> !(es[k].tenant == t && es[k].cycle == i)
    ensures FromCycle(es, t, i) == []
  {
    if es != [] {
      FromCycleNone(es[..|es| - 1], t, i);
    }
  }

  ghost predicate AllTenantsOk(qs: seq<Query>, ts: seq<Tenant>) {
    forall t :: 0 <= t < |ts| ==> TenantOk(qs, ts[t])
  }

  lemma OneTenantChanged(qs: seq<Query>, ts: seq<Tenant>, t: nat, after: Tenant)
    requires AllTenantsOk(qs, ts) && t < |ts| && TenantOk(qs, after)
    ensures AllTenantsOk(qs, ts[t := after])
  {
  }

  lemma TenantsKept(qs: seq<Query>, s: System, a: Action)
    requires AllTenantsOk(qs, s.tenants) && Enabled(s, a)
    ensures AllTenantsOk(qs, Do(qs, s, a).tenants)
  {
    match a
    case Fire(t, now) =>
      FireTenantOk(qs, s.tenants[t], now, s.root);
      OneTenantChanged(qs, s.tenants, t, FireTenant(qs, s.tenants[t], now, s.root));
    case Return(t) =>
      ReturnTenantOk(qs, s.tenants[t]);
      OneTenantChanged(qs, s.tenants, t, ReturnTenant(s.tenants[t]));
    case StepOf(t, i, step) =>
      StepTenantOk(qs, s.tenants[t], i, step, |s.inbox| < CAPACITY, s.closed);
      OneTenantChanged(qs, s.tenants, t, StepTenant(s.tenants[t], i, step));
    case RootCancel =>
    case Receive =>
    case PublisherReturn =>
    case CloseInbox =>
  }

  /** Nothing has come from a cycle that does not exist yet. */
  lemma NothingFromUnborn(s: System, t: nat)
    requires ChannelOk(s) && t < |s.tenants|
    ensures FromCycle(s.accepted, t, |s.tenants[t].cycles|) == []
  {
    assert forall k :: 0 <= k < |s.accepted| ==> SentByKnownCycle(s, s.accepted[k]);
    FromCycleNone(s.accepted, t, |s.tenants[t].cycles|);
  }

  lemma CyclesKept(qs: seq<Query>, t: Tenant, now: int, root: bool)
    ensures var cycles := FireTenant(qs, t, now, root).cycles;
            && |cycles| == |t.cycles| + 1 && cycles[|t.cycles|].sent == []
            && forall i :: 0 <= i < |t.cycles| ==> cycles[i].sent == t.cycles[i].sent
  {
  }

  lemma FireChannel(qs: seq<Query>, s: System, t: nat, now: int)
    requires ChannelOk(s) && Enabled(s, Fire(t, now))
    ensures ChannelOk(Do(qs, s, Fire(t, now)))
  {
    var after := Do(qs, s, Fire(t, now));
    NothingFromUnborn(s, t);
    CyclesKept(qs, s.tenants[t], now, s.root);
    assert after.tenants == s.tenants[t := FireTenant(qs, s.tenants[t], now, s.root)];
    forall k | 0 <= k < |after.accepted| ensures SentByKnownCycle(after, after.accepted[k]) {
      assert SentByKnownCycle(s, s.accepted[k]);
    }
  }

  lemma FromCycleSnoc(es: seq<Envelope>, e: Envelope, t: nat, i: nat)
    ensures FromCycle(es + [e], t, i) ==
              if e.tenant == t && e.cycle == i then FromCycle(es, t, i) + [e.msg] else FromCycle(es, t, i)
  {
    assert (es + [e])[..|es|] == es;
    assert FromCycle(es, t, i) + [] == FromCycle(es, t, i);
  }

  /** What the messages of each cycle are after a step of one of them. */
  lemma StepSent(qs: seq<Query>, s: System, t: nat, i: nat, step: CycleStep, u: nat, j: nat)
    requires Enabled(s, StepOf(t, i, step)) && u < |s.tenants| && j < |s.tenants[u].cycles|
    ensures var after, out := Do(qs, s, StepOf(t, i, step)), Emits(s.tenants[t].name, s.tenants[t].cycles[i], step);
            && |after.tenants| == |s.tenants| && |after.tenants[u].cycles| == |s.tenants[u].cycles|
            && after.tenants[u].cycles[j].sent ==
                 if u == t && j == i && out.Some? then s.tenants[u].cycles[j].sent + [out.value]
                 else s.tenants[u].cycles[j].sent
  {
    CycleStepFrame(s.tenants[t].name, s.tenants[t].cycles[i], step, |s.inbox| < CAPACITY, s.closed);
  }

  lemma StepAccepts(qs: seq<Query>, s: System, t: nat, i: nat, step: CycleStep)
    requires ChannelOk(s) && Enabled(s, StepOf(t, i, step))
    ensures var after, out := Do(qs, s, StepOf(t, i, step)), Emits(s.tenants[t].name, s.tenants[t].cycles[i], step);
            && after.accepted == after.applied + after.inbox && |after.inbox| <= 1024
            && after.accepted == if out.Some? then s.accepted + [Envelope(t, i, out.value)] else s.accepted
  {
  }

  lemma StepChannel(qs: seq<Query>, s: System, t: nat, i: nat, step: CycleStep)
    requires ChannelOk(s) && Enabled(s, StepOf(t, i, step))
    ensures ChannelOk(Do(qs, s, StepOf(t, i, step)))
  {
    var after, out := Do(qs, s, StepOf(t, i, step)), Emits(s.tenants[t].name, s.tenants[t].cycles[i], step);
    StepAccepts(qs, s, t, i, step);
    forall k | 0 <= k < |after.accepted| ensures SentByKnownCycle(after, after.accepted[k]) {
      if k < |s.accepted| {
        assert SentByKnownCycle(s, s.accepted[k]);
      }
    }
    forall u, j | 0 <= u < |after.tenants| && 0 <= j < |after.tenants[u].cycles|
      ensures FromCycle(after.accepted, u, j) == after.tenants[u].cycles[j].sent
    {
      StepSent(qs, s, t, i, step, u, j);
      if out.Some? {
        FromCycleSnoc(s.accepted, Envelope(t, i, out.value), u, j);
      }
    }
  }

  lemma ChannelKept(qs: seq<Query>, s: System, a: Action)
    requires ChannelOk(s) && Enabled(s, a)
    ensures ChannelOk(Do(qs, s, a))
  {
    match a
    case Fire(t, now) => FireChannel(qs, s, t, now);
    case StepOf(t, i, step) => StepChannel(qs, s, t, i, step);
    case Return(t) => ReturnChannel(s, t);
    case _ => SameSenders(s, Do(qs, s, a));
  }

  lemma ReturnChannel(s: System, t: nat)
    requires ChannelOk(s) && t < |s.tenants|
    ensures ChannelOk(s.(tenants := s.tenants[t := ReturnTenant(s.tenants[t])]))
  {
    var after := s.(tenants := s.tenants[t := ReturnTenant(s.tenants[t])]);
    forall k | 0 <= k < |after.accepted| ensures SentByKnownCycle(after, after.accepted[k]) {
      assert SentByKnownCycle(s, s.accepted[k]);
    }
  }

  lemma SameSenders(s: System, after: System)
    requires ChannelOk(s) && after.tenants == s.tenants && after.accepted == s.accepted
    requires (after.inbox == s.inbox && after.applied == s.applied)
          || (s.inbox != [] && after.inbox == s.inbox[1..] && after.applied == s.applied + [s.inbox[0]])
    ensures ChannelOk(after)
  {
    forall k | 0 <= k < |after.accepted| ensures SentByKnownCycle(after, after.accepted[k]) {
      assert SentByKnownCycle(s, s.accepted[k]);
    }
    assert s.inbox != [] ==> s.accepted == (s.applied + [s.inbox[0]]) + s.inbox[1..];
  }

  lemma ClosedKept(qs: seq<Query>, s: System, a: Action)
    requires ClosedOk(s) && Enabled(s, a)
    ensures ClosedOk(Do(qs, s, a))
  {
  }

  lemma CausesKept(qs: seq<Query>, s: System, a: Action)
    requires CausesOk(s) && Enabled(s, a)
    ensures CausesOk(Do(qs, s, a))
  {
    var after := Do(qs, s, a);
    forall t | 0 <= t < |after.tenants| ensures CauseOk(after.tenants[t], after.root) {
      assert CauseOk(s.tenants[t], s.root);
    }
  }

  lemma ActionKeepsOk(qs: seq<Query>, s: System, a: Action)
    requires SystemOk(qs, s) && Enabled(s, a)
    ensures SystemOk(qs, Do(qs, s, a))
  {
    TenantsKept(qs, s, a);
    ChannelKept(qs, s, a);
    ClosedKept(qs, s, a);
    CausesKept(qs, s, a);
  }

  lemma InitialOk(qs: seq<Query>, s: System)
    requires Initial(s)
    ensures SystemOk(qs, s)
  {
  }

  /** The invariant holds after every trace from startup. */
  lemma {:induction false} AlwaysOk(qs: seq<Query>, s: System, actions: seq<Action>)
    requires Initial(s) && ValidTrace(qs, s, actions)
    ensures SystemOk(qs, After(qs, s, actions))
  {
    if actions == [] {
      InitialOk(qs, s);
    } else {
      var n := |actions| - 1;
      AlwaysOk(qs, s, actions[..n]);
      ActionKeepsOk(qs, After(qs, s, actions[..n]), actions[n]);
    }
  }
}
