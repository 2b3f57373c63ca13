/** What can still happen: when a cancelled cycle can complete, when a late send can panic, what is
    drained, and that shutdown can always be finished. */
module Endings {
  import opened Values
  import opened Steps
  import opened Cycles
  import opened Discipline
  import opened Protocol

  // ----- continuing a run -----

  ghost predicate Leads(qs: seq<Query>, s: System, actions: seq<Action>, end: System) {
    ValidTrace(qs, s, actions) && After(qs, s, actions) == end
  }

  lemma LeadsOn(qs: seq<Query>, s: System, actions: seq<Action>, here: System, a: Action)
    requires Leads(qs, s, actions, here) && Enabled(here, a)
    ensures Leads(qs, s, actions + [a], Do(qs, here, a))
  {
    assert (actions + [a])[..|actions|] == actions;
  }

  lemma LastStep(qs: seq<Query>, s: System, actions: seq<Action>, end: System) returns (here: System)
    requires Leads(qs, s, actions, end) && actions != []
    ensures Leads(qs, s, actions[..|actions| - 1], here)
    ensures Enabled(here, actions[|actions| - 1]) && end == Do(qs, here, actions[|actions| - 1])
  {
    here := After(qs, s, actions[..|actions| - 1]);
  }

  lemma {:induction false} LeadsAppend(
    qs: seq<Query>, s: System, a: seq<Action>, mid: System, b: seq<Action>, end: System)
    requires Leads(qs, s, a, mid) && Leads(qs, mid, b, end)
    ensures Leads(qs, s, a + b, end)
  {
    if b == [] {
      assert a + b == a;
    } else {
      var n := |b| - 1;
      var here := LastStep(qs, mid, b, end);
      LeadsAppend(qs, s, a, mid, b[..n], here);
      LeadsOn(qs, s, a + b[..n], here, b[n]);
      assert a + b[..n] + [b[n]] == a + b;
    }
  }

  lemma TraceAppend(qs: seq<Query>, s: System, a: seq<Action>, b: seq<Action>)
    requires ValidTrace(qs, s, a) && ValidTrace(qs, After(qs, s, a), b)
    ensures ValidTrace(qs, s, a + b) && After(qs, s, a + b) == After(qs, After(qs, s, a), b)
  {
    LeadsAppend(qs, s, a, After(qs, s, a), b, After(qs, After(qs, s, a), b));
  }

  lemma FirstAction(qs: seq<Query>, s: System, a: Action, rest: seq<Action>)
    requires Enabled(s, a) && ValidTrace(qs, Do(qs, s, a), rest)
    ensures ValidTrace(qs, s, [a] + rest) && After(qs, s, [a] + rest) == After(qs, Do(qs, s, a), rest)
  {
    assert [a][..0] == [];
    TraceAppend(qs, s, [a], rest);
  }

  lemma {:induction false} OkThroughout(qs: seq<Query>, s: System, actions: seq<Action>)
    requires SystemOk(qs, s) && ValidTrace(qs, s, actions)
    ensures SystemOk(qs, After(qs, s, actions))
  {
    if actions != [] {
      OkThroughout(qs, s, actions[..|actions| - 1]);
      ActionKeepsOk(qs, After(qs, s, actions[..|actions| - 1]), actions[|actions| - 1]);
    }
  }

  // ----- a cancelled cycle that can still complete -----

  /** The cycle has begun its last query, or has none left: no check of the context is ahead of it. */
  predicate LastBegun(c: Cycle) {
    match c.at
    case Check(k) => k >= |c.due|
    case Querying(k) => k + 1 >= |c.due|
    case Sending(k, _) => k + 1 >= |c.due|
    case Sampling => true
    case SendingPool(_) => true
    case Unwinding(completed, _) => completed
    case Exited(outcome, _) => outcome.Completed?
  }

  /** The sends that stand between such a cycle and its completion. */
  function SendsLeft(c: Cycle): nat {
    match c.at
    case Querying(_) => 2
    case Sending(_, _) => 2
    case Unwinding(_, _) => 0
    case Exited(_, _) => 0
    case _ => 1
  }

  /** The inbox can still take that many messages: it is open, and has the room or a receiver. */
  predicate CanTake(s: System, n: nat) {
    n == 0 || (!s.closed && (s.publisherDone ==> |s.inbox| + n <= 1024))
  }

  predicate Completable(s: System, c: Cycle) {
    LastBegun(c) && CanTake(s, SendsLeft(c))
  }

  /** This run counts the cycle as completed. */
  ghost predicate CountedCompleted(qs: seq<Query>, s: System, actions: seq<Action>, t: nat, i: nat) {
    && ValidTrace(qs, s, actions)
    && HasCycle(After(qs, s, actions), t, i)
    && CompletedCycle(After(qs, s, actions).tenants[t].cycles[i])
  }

  lemma StepKeepsIncomplete(qs: seq<Query>, s: System, t: nat, i: nat, step: CycleStep)
    requires Enabled(s, StepOf(t, i, step)) && s.tenants[t].cycles[i].cancelled
    requires CycleOk(s.tenants[t].name, s.tenants[t].cycles[i]) && !Completable(s, s.tenants[t].cycles[i])
    ensures var after := Do(qs, s, StepOf(t, i, step)); !Completable(after, after.tenants[t].cycles[i])
  {
  }

  /** What the rest of the system does to a cancelled cycle: nothing. */
  lemma CancelledUntouched(qs: seq<Query>, s: System, a: Action, t: nat, i: nat)
    requires Enabled(s, a) && HasCycle(s, t, i) && s.tenants[t].cycles[i].cancelled
    requires !(a.StepOf? && a.tenant == t && a.cycle == i)
    ensures HasCycle(Do(qs, s, a), t, i) && Do(qs, s, a).tenants[t].cycles[i] == s.tenants[t].cycles[i]
  {
  }

  lemma RoomNeverReturns(qs: seq<Query>, s: System, a: Action, n: nat)
    requires Enabled(s, a) && !CanTake(s, n)
    ensures !CanTake(Do(qs, s, a), n)
  {
  }

  /** Nothing revives a cancelled cycle that cannot complete. */
  lemma ActionKeepsIncomplete(qs: seq<Query>, s: System, a: Action, t: nat, i: nat)
    requires SystemOk(qs, s) && Enabled(s, a) && HasCycle(s, t, i)
    requires s.tenants[t].cycles[i].cancelled && !Completable(s, s.tenants[t].cycles[i])
    ensures var after := Do(qs, s, a);
            && HasCycle(after, t, i)
            && after.tenants[t].cycles[i].cancelled && !Completable(after, after.tenants[t].cycles[i])
  {
    var c := s.tenants[t].cycles[i];
    if a.StepOf? && a.tenant == t && a.cycle == i {
      assert TenantOk(qs, s.tenants[t]) && CycleOk(s.tenants[t].name, c);
      StepKeepsIncomplete(qs, s, t, i, a.step);
      CycleStepFrame(s.tenants[t].name, c, a.step, |s.inbox| < CAPACITY, s.closed);
    } else {
      CancelledUntouched(qs, s, a, t, i);
      if LastBegun(c) {
        RoomNeverReturns(qs, s, a, SendsLeft(c));
      }
    }
  }

  lemma {:induction false} NeverCompletes(qs: seq<Query>, s: System, actions: seq<Action>, t: nat, i: nat)
    requires SystemOk(qs, s) && ValidTrace(qs, s, actions) && HasCycle(s, t, i)
    requires s.tenants[t].cycles[i].cancelled && !Completable(s, s.tenants[t].cycles[i])
    ensures var after := After(qs, s, actions);
            && HasCycle(after, t, i)
            && after.tenants[t].cycles[i].cancelled && !Completable(after, after.tenants[t].cycles[i])
  {
    if actions != [] {
      var n := |actions| - 1;
      NeverCompletes(qs, s, actions[..n], t, i);
      OkThroughout(qs, s, actions[..n]);
      ActionKeepsIncomplete(qs, After(qs, s, actions[..n]), actions[n], t, i);
    }
  }

  /** The cycle's own next step on the way to completion. */
  function StepToComplete(c: Cycle): CycleStep {
    match c.at
    case Check(_) => Begin
    case Querying(_) => QueryReturns([], [], true)
    case Sending(_, _) => Send
    case Sampling => Sample(Stats(0, 0, 0, 0))
    case SendingPool(_) => SendPool
    case _ => Exit
  }

  lemma StepCompletes(qs: seq<Query>, s: System, t: nat, i: nat)
    requires HasCycle(s, t, i) && s.tenants[t].cycles[i].cancelled
    requires var c := s.tenants[t].cycles[i];
             && CycleOk(s.tenants[t].name, c) && Completable(s, c) && !c.at.Exited?
             && (c.at.Sending? || c.at.SendingPool? ==> |s.inbox| < 1024)
    ensures var a := StepOf(t, i, StepToComplete(s.tenants[t].cycles[i]));
            && Enabled(s, a) && HasCycle(Do(qs, s, a), t, i)
            && var d := Do(qs, s, a).tenants[t].cycles[i]; d.cancelled && Completable(Do(qs, s, a), d)
  {
  }

  /** The next action on the way to completion: the cycle's own step, or a receive to make room. */
  lemma NextToComplete(qs: seq<Query>, s: System, t: nat, i: nat) returns (a: Action)
    requires SystemOk(qs, s) && HasCycle(s, t, i) && s.tenants[t].cycles[i].cancelled
    requires Completable(s, s.tenants[t].cycles[i]) && !s.tenants[t].cycles[i].at.Exited?
    ensures Enabled(s, a) && !a.Fire? && HasCycle(Do(qs, s, a), t, i)
    ensures var d := Do(qs, s, a).tenants[t].cycles[i]; d.cancelled && Completable(Do(qs, s, a), d)
  {
    var c := s.tenants[t].cycles[i];
    assert TenantOk(qs, s.tenants[t]) && CycleOk(s.tenants[t].name, c);
    if (c.at.Sending? || c.at.SendingPool?) && |s.inbox| == 1024 {
      a := Receive;
    } else {
      a := StepOf(t, i, StepToComplete(c));
      StepCompletes(qs, s, t, i);
    }
  }

  lemma {:induction false} Completion(qs: seq<Query>, s: System, t: nat, i: nat) returns (actions: seq<Action>)
    requires SystemOk(qs, s) && HasCycle(s, t, i) && s.tenants[t].cycles[i].cancelled
    requires Completable(s, s.tenants[t].cycles[i])
    ensures CountedCompleted(qs, s, actions, t, i)
    decreases Measure(s)
  {
    if s.tenants[t].cycles[i].at.Exited? {
      actions := [];
    } else {
      var a := NextToComplete(qs, s, t, i);
      ActionShrinks(qs, s, a);
      ActionKeepsOk(qs, s, a);
      var rest := Completion(qs, Do(qs, s, a), t, i);
      FirstAction(qs, s, a, rest);
      actions := [a] + rest;
    }
  }

  /** A cancelled cycle can still be counted as completed if and only if its last query has begun and the
      inbox can take what it has left to send. */
  lemma CancelledCompletesIff(qs: seq<Query>, s: System, t: nat, i: nat)
    requires SystemOk(qs, s) && HasCycle(s, t, i) && s.tenants[t].cycles[i].cancelled
    ensures (exists actions :: CountedCompleted(qs, s, actions, t, i)) <==> Completable(s, s.tenants[t].cycles[i])
  {
    if Completable(s, s.tenants[t].cycles[i]) {
      var actions := Completion(qs, s, t, i);
    } else {
      forall actions | ValidTrace(qs, s, actions) ensures !CountedCompleted(qs, s, actions, t, i) {
        NeverCompletes(qs, s, actions, t, i);
      }
    }
  }

  // ----- sends on the closed inbox -----

  /** The cycle is on its way to a send: no check of the context is ahead of it, or a query is running. */
  predicate BoundToSend(c: Cycle) {
    match c.at
    case Check(k) => k >= |c.due|
    case Querying(_) => true
    case Sending(_, _) => true
    case Sampling => true
    case SendingPool(_) => true
    case _ => false
  }

  ghost predicate SomeBoundToSend(s: System) {
    exists t: nat, i: nat :: HasCycle(s, t, i) && BoundToSend(s.tenants[t].cycles[i])
  }

  /** A panic at a send. */
  ghost predicate SendPanics(s: System, a: Action) {
    && a.StepOf? && a.step.Panic? && Enabled(s, a)
    && (s.tenants[a.tenant].cycles[a.cycle].at.Sending? || s.tenants[a.tenant].cycles[a.cycle].at.SendingPool?)
  }

  ghost predicate LateSendAhead(qs: seq<Query>, s: System) {
    exists actions, a :: ValidTrace(qs, s, actions) && SendPanics(After(qs, s, actions), a)
  }

  lemma StepStaysUnbound(tenant: string, c: Cycle, step: CycleStep, room: bool)
    requires CycleOk(tenant, c) && c.cancelled && !BoundToSend(c) && CanStep(c, step, room, true)
    ensures !BoundToSend(StepCycle(tenant, c, step))
  {
  }

  /** Once the inbox is closed every scheduler has returned, so there are only cancelled cycles. */
  lemma AllCancelled(qs: seq<Query>, s: System, t: nat, i: nat)
    requires SystemOk(qs, s) && s.closed && HasCycle(s, t, i)
    ensures CycleOk(s.tenants[t].name, s.tenants[t].cycles[i]) && s.tenants[t].cycles[i].cancelled
  {
    assert TenantOk(qs, s.tenants[t]);
  }

  lemma NoNewCycles(qs: seq<Query>, s: System, a: Action, t: nat, i: nat)
    requires ClosedOk(s) && s.closed && Enabled(s, a) && HasCycle(Do(qs, s, a), t, i)
    ensures HasCycle(s, t, i) && Do(qs, s, a).closed
  {
  }

  /** After the close no cycle becomes bound to send. */
  lemma NoneNewlyBound(qs: seq<Query>, s: System, a: Action)
    requires SystemOk(qs, s) && s.closed && Enabled(s, a) && !SomeBoundToSend(s)
    ensures !SomeBoundToSend(Do(qs, s, a))
  {
    forall t: nat, i: nat | HasCycle(Do(qs, s, a), t, i) ensures !BoundToSend(Do(qs, s, a).tenants[t].cycles[i]) {
      NoNewCycles(qs, s, a, t, i);
      AllCancelled(qs, s, t, i);
      StaysUnbound(qs, s, a, t, i);
    }
  }

  lemma StaysUnbound(qs: seq<Query>, s: System, a: Action, t: nat, i: nat)
    requires s.closed && Enabled(s, a) && HasCycle(s, t, i)
    requires var c := s.tenants[t].cycles[i]; CycleOk(s.tenants[t].name, c) && c.cancelled && !BoundToSend(c)
    ensures HasCycle(Do(qs, s, a), t, i) && !BoundToSend(Do(qs, s, a).tenants[t].cycles[i])
  {
    if a.StepOf? && a.tenant == t && a.cycle == i {
      StepStaysUnbound(s.tenants[t].name, s.tenants[t].cycles[i], a.step, |s.inbox| < CAPACITY);
    } else {
      CancelledUntouched(qs, s, a, t, i);
    }
  }

  lemma {:induction false} NoneEverBound(qs: seq<Query>, s: System, actions: seq<Action>)
    requires SystemOk(qs, s) && s.closed && ValidTrace(qs, s, actions) && !SomeBoundToSend(s)
    ensures After(qs, s, actions).closed && !SomeBoundToSend(After(qs, s, actions))
  {
    if actions != [] {
      var n := |actions| - 1;
      NoneEverBound(qs, s, actions[..n]);
      OkThroughout(qs, s, actions[..n]);
      assert ClosedOk(After(qs, s, actions[..n]));
      NoneNewlyBound(qs, After(qs, s, actions[..n]), actions[n]);
    }
  }

  /** The next step on the way to a send. */
  lemma NextToSend(qs: seq<Query>, s: System, t: nat, i: nat) returns (a: Action)
    requires SystemOk(qs, s) && HasCycle(s, t, i) && BoundToSend(s.tenants[t].cycles[i])
    requires !s.tenants[t].cycles[i].at.Sending? && !s.tenants[t].cycles[i].at.SendingPool?
    ensures Enabled(s, a) && !a.Fire? && Do(qs, s, a).closed == s.closed
    ensures HasCycle(Do(qs, s, a), t, i) && BoundToSend(Do(qs, s, a).tenants[t].cycles[i])
  {
    var c := s.tenants[t].cycles[i];
    assert TenantOk(qs, s.tenants[t]) && CycleOk(s.tenants[t].name, c);
    a := StepOf(t, i, if c.at.Check? then Begin
                      else if c.at.Querying? then QueryReturns([], [], true)
                      else Sample(Stats(0, 0, 0, 0)));
  }

  lemma {:induction false} LateSend(qs: seq<Query>, s: System, t: nat, i: nat) returns (actions: seq<Action>)
    requires SystemOk(qs, s) && s.closed && HasCycle(s, t, i) && BoundToSend(s.tenants[t].cycles[i])
    ensures ValidTrace(qs, s, actions) && SendPanics(After(qs, s, actions), StepOf(t, i, Panic))
    decreases Measure(s)
  {
    if s.tenants[t].cycles[i].at.Sending? || s.tenants[t].cycles[i].at.SendingPool? {
      actions := [];
    } else {
      var a := NextToSend(qs, s, t, i);
      ActionShrinks(qs, s, a);
      ActionKeepsOk(qs, s, a);
      var rest := LateSend(qs, Do(qs, s, a), t, i);
      FirstAction(qs, s, a, rest);
      actions := [a] + rest;
    }
  }

  lemma PanicIsBound(s: System, a: Action)
    requires SendPanics(s, a)
    ensures SomeBoundToSend(s)
  {
    assert HasCycle(s, a.tenant, a.cycle) && BoundToSend(s.tenants[a.tenant].cycles[a.cycle]);
  }

  /** After the close a send on the closed inbox can still panic if and only if some cycle is bound to send. */
  lemma LateSendIff(qs: seq<Query>, s: System)
    requires SystemOk(qs, s) && s.closed
    ensures LateSendAhead(qs, s) <==> SomeBoundToSend(s)
  {
    if SomeBoundToSend(s) {
      var t: nat, i: nat :| HasCycle(s, t, i) && BoundToSend(s.tenants[t].cycles[i]);
      var actions := LateSend(qs, s, t, i);
    } else {
      forall actions, a | ValidTrace(qs, s, actions) ensures !SendPanics(After(qs, s, actions), a) {
        if SendPanics(After(qs, s, actions), a) {
          PanicIsBound(After(qs, s, actions), a);
        }
        NoneEverBound(qs, s, actions);
      }
    }
  }

  // ----- what is drained -----

  ghost predicate Drained(s: System) {
    s.applied == s.accepted
  }

  /** Without the publisher the applied log stands still, and after the close the accepted log too. */
  ghost predicate Onward(s: System, after: System) {
    && after.publisherDone && after.applied == s.applied
    && s.accepted <= after.accepted
    && (s.closed ==> after.closed && after.accepted == s.accepted)
  }

  lemma ActionOnward(qs: seq<Query>, s: System, a: Action)
    requires s.publisherDone && Enabled(s, a)
    ensures Onward(s, Do(qs, s, a))
  {
  }

  lemma {:induction false} AfterReturn(qs: seq<Query>, s: System, actions: seq<Action>)
    requires s.publisherDone && ValidTrace(qs, s, actions)
    ensures Onward(s, After(qs, s, actions))
  {
    if actions != [] {
      var n := |actions| - 1;
      AfterReturn(qs, s, actions[..n]);
      ActionOnward(qs, After(qs, s, actions[..n]), actions[n]);
    }
  }

  /** From the publisher's return on, everything accepted has been applied if and only if nothing was
      waiting at that return and nothing has been accepted since. If it returned because the inbox was
      closed and empty, that is always so. */
  lemma DrainedIff(qs: seq<Query>, s: System, actions: seq<Action>)
    requires SystemOk(qs, s) && Enabled(s, PublisherReturn)
    requires ValidTrace(qs, Do(qs, s, PublisherReturn), actions)
    ensures var after := After(qs, Do(qs, s, PublisherReturn), actions);
            && (Drained(after) <==> s.inbox == [] && after.accepted == s.accepted)
            && (s.closed && s.inbox == [] ==> Drained(after))
  {
    var after := After(qs, Do(qs, s, PublisherReturn), actions);
    AfterReturn(qs, Do(qs, s, PublisherReturn), actions);
    assert |s.accepted| == |s.applied| + |s.inbox|;
    assert s.inbox == [] ==> s.applied + s.inbox == s.applied;
  }

  // ----- shutdown -----

  ghost predicate FireFree(actions: seq<Action>) {
    forall k :: 0 <= k < |actions| ==> !actions[k].Fire?
  }

  lemma {:induction false} RootStays(qs: seq<Query>, s: System, actions: seq<Action>)
    requires s.root && ValidTrace(qs, s, actions)
    ensures After(qs, s, actions).root
  {
    if actions != [] {
      RootStays(qs, s, actions[..|actions| - 1]);
    }
  }

  lemma {:induction false} WayToRest(qs: seq<Query>, s: System) returns (actions: seq<Action>)
    requires SystemOk(qs, s) && s.root
    ensures ValidTrace(qs, s, actions) && FireFree(actions) && AtRest(After(qs, s, actions))
    decreases Measure(s)
  {
    if a :| Enabled(s, a) && !a.Fire? {
      ActionShrinks(qs, s, a);
      ActionKeepsOk(qs, s, a);
      var rest := WayToRest(qs, Do(qs, s, a));
      FirstAction(qs, s, a, rest);
      actions := [a] + rest;
    } else {
      QuietMeansAtRest(qs, s);
      actions := [];
    }
  }

  /** Once the root context is cancelled, every run without ticks, however it went so far, can go on to
      rest, and is there after at most as many actions as there was work left. */
  lemma ShutdownFinishes(qs: seq<Query>, s: System, actions: seq<Action>) returns (more: seq<Action>)
    requires SystemOk(qs, s) && s.root && ValidTrace(qs, s, actions) && FireFree(actions)
    ensures ValidTrace(qs, s, actions + more) && FireFree(actions + more)
    ensures AtRest(After(qs, s, actions + more)) && |actions + more| <= Measure(s)
  {
    OkThroughout(qs, s, actions);
    RootStays(qs, s, actions);
    more := WayToRest(qs, After(qs, s, actions));
    TraceAppend(qs, s, actions, more);
    BoundedWithoutFires(qs, s, actions + more);
  }
}
