/** Runs that show the bounds of Protocol are met, and what is therefore not guaranteed. */
module Witnesses {
  import opened Values
  import opened Steps
  import opened Cadence
  import opened Cycles
  import opened Protocol
  import EmptyAcquires

  const QUERY: Query := Query("q", "h", [], ["v"], "s", 0)
  const RESULT: Message := QueryResult("t", "q", [], [], false)
  const POOL: Message := PoolStat("t", Stats(0, 0, 0, 0))

  /** A system with one tenant in which nothing has been received yet. */
  datatype Snapshot = Snapshot(
    phase: Phase, times: seq<int>, cycles: seq<Cycle>, completed: nat, killed: nat, panics: nat,
    mail: seq<Envelope>, root: bool, closed: bool, gone: bool)
  {
    function System(): System {
      Cycles.System([Tenant("t", phase, times, map[], cycles, completed, killed, panics)],
                    mail, [], mail, root, closed, gone)
    }

    ghost predicate Reachable(qs: seq<Query>, actions: seq<Action>) {
      Reached(qs, START.System(), actions, System())
    }
  }

  const START: Snapshot := Snapshot(Waiting, [], [], 0, 0, 0, [], false, false, false)
  const FRESH: Cycle := Cycle([QUERY], Check(0), false, [], 0)

  lemma Extend(qs: seq<Query>, w: Snapshot, actions: seq<Action>, a: Action, next: Snapshot)
    requires w.Reachable(qs, actions) && Enabled(w.System(), a)
    requires next.System() == Do(qs, w.System(), a)
    ensures next.Reachable(qs, actions + [a])
  {
    assert (actions + [a])[..|actions|] == actions;
  }

  lemma FireNow(qs: seq<Query>, w: Snapshot, actions: seq<Action>, now: int, next: Snapshot)
    requires w.Reachable(qs, actions) && Enabled(w.System(), Fire(0, now)) && !AnyInterval(qs)
    requires next == w.(phase := Ticking, times := next.times, cycles := next.cycles)
    requires next.times == w.times + [now]
    requires next.cycles == CancelNewest(w.cycles) + [Cycle(qs, Check(0), w.root, [], 0)]
    ensures next.Reachable(qs, actions + [Fire(0, now)])
  {
    Extend(qs, w, actions, Fire(0, now), next);
  }

  lemma Move(qs: seq<Query>, w: Snapshot, actions: seq<Action>, i: nat, step: CycleStep, next: Snapshot)
    requires w.Reachable(qs, actions) && i < |w.cycles|
    requires CanStep(w.cycles[i], step, |w.mail| < CAPACITY, w.closed) && !step.Cancel? && !step.Exit?
    requires next == w.(cycles := next.cycles, mail := next.mail)
    requires next.cycles == w.cycles[i := StepCycle("t", w.cycles[i], step)]
    requires var out := Emits("t", w.cycles[i], step);
             next.mail == w.mail + if out.Some? then [Envelope(0, i, out.value)] else []
    ensures next.Reachable(qs, actions + [StepOf(0, i, step)])
  {
    Extend(qs, w, actions, StepOf(0, i, step), next);
  }

  lemma Finish(qs: seq<Query>, w: Snapshot, actions: seq<Action>, i: nat, outcome: Outcome, next: Snapshot)
    requires w.Reachable(qs, actions) && i < |w.cycles| && w.cycles[i].at.Unwinding?
    requires outcome == if w.cycles[i].at.completed then Completed
                        else if w.cycles[i].cancelled then Killed else Uncounted
    requires next == w.(cycles := next.cycles,
                        completed := w.completed + if outcome.Completed? then 1 else 0,
                        killed := w.killed + if outcome.Killed? then 1 else 0,
                        panics := w.panics + if w.cycles[i].at.panicked then 1 else 0)
    requires next.cycles == w.cycles[i := w.cycles[i].(at := Exited(outcome, w.cycles[i].at.panicked))]
    ensures next.Reachable(qs, actions + [StepOf(0, i, Exit)])
  {
    Extend(qs, w, actions, StepOf(0, i, Exit), next);
  }

  lemma ReturnNow(qs: seq<Query>, w: Snapshot, actions: seq<Action>, next: Snapshot)
    requires w.Reachable(qs, actions) && w.root && !w.phase.Returned?
    requires next == w.(phase := Returned, cycles := next.cycles) && next.cycles == CancelNewest(w.cycles)
    ensures next.Reachable(qs, actions + [Return(0)])
  {
    Extend(qs, w, actions, Return(0), next);
  }

  // ----- stretches of a cycle -----

  /** From the loop head a cycle runs its query and its result is accepted. */
  lemma SendResult(w: Snapshot, actions: seq<Action>, i: nat, next: Snapshot) returns (longer: seq<Action>)
    requires w.Reachable([QUERY], actions) && i < |w.cycles| && w.cycles[i] == FRESH
    requires |w.mail| < CAPACITY && !w.closed
    requires next == w.(cycles := w.cycles[i := Cycle([QUERY], Check(1), false, [RESULT], 0)],
                        mail := w.mail + [Envelope(0, i, RESULT)])
    ensures next.Reachable([QUERY], longer) && actions <= longer
  {
    var w1 := w.(cycles := w.cycles[i := Cycle([QUERY], Querying(0), false, [], 0)]);
    var w2 := w.(cycles := w.cycles[i := Cycle([QUERY], Sending(0, RESULT), false, [], 0)]);
    Move([QUERY], w, actions, i, Begin, w1);
    longer := actions + [StepOf(0, i, Begin)];
    Move([QUERY], w1, longer, i, QueryReturns([], [], false), w2);
    longer := longer + [StepOf(0, i, QueryReturns([], [], false))];
    assert [] + [RESULT] == [RESULT];
    Move([QUERY], w2, longer, i, Send, next);
    longer := longer + [StepOf(0, i, Send)];
  }

  /** Past its queries a cycle reads the pool's statistics and comes to the pool send. */
  lemma TakeSample(qs: seq<Query>, w: Snapshot, actions: seq<Action>, i: nat, stats: Stats, next: Snapshot)
    returns (longer: seq<Action>)
    requires w.Reachable(qs, actions) && i < |w.cycles| && w.cycles[i].at == Check(|w.cycles[i].due|)
    requires next == w.(cycles := w.cycles[i := w.cycles[i].(at := SendingPool(stats))])
    ensures next.Reachable(qs, longer) && actions <= longer
  {
    var w1 := w.(cycles := w.cycles[i := w.cycles[i].(at := Sampling)]);
    Move(qs, w, actions, i, Begin, w1);
    longer := actions + [StepOf(0, i, Begin)];
    Move(qs, w1, longer, i, Sample(stats), next);
    longer := longer + [StepOf(0, i, Sample(stats))];
  }

  lemma SendSample(qs: seq<Query>, w: Snapshot, actions: seq<Action>, i: nat, next: Snapshot)
    returns (longer: seq<Action>)
    requires w.Reachable(qs, actions) && i < |w.cycles| && w.cycles[i].at.SendingPool?
    requires |w.mail| < CAPACITY && !w.closed
    requires var c := w.cycles[i]; var msg := PoolStat("t", c.at.stats);
             next == w.(cycles := w.cycles[i := c.(at := Unwinding(true, false), sent := c.sent + [msg])],
                        mail := w.mail + [Envelope(0, i, msg)])
    ensures next.Reachable(qs, longer) && actions <= longer
  {
    Move(qs, w, actions, i, SendPool, next);
    longer := actions + [StepOf(0, i, SendPool)];
  }

  // ----- late messages -----

  const OVERRUN: Snapshot :=
    Snapshot(Ticking, [0, 1], [Cycle([QUERY], Querying(0), true, [], 0), FRESH], 0, 0, 0, [], false, false, false)

  /** Two fires: the second cancels the first cycle while its only query runs. */
  lemma OverrunStarts() returns (actions: seq<Action>)
    ensures OVERRUN.Reachable([QUERY], actions)
  {
    var w1 := START.(phase := Ticking, times := [0], cycles := [FRESH]);
    var w2 := w1.(cycles := [Cycle([QUERY], Querying(0), false, [], 0)]);
    FireNow([QUERY], START, [], 0, w1);
    Move([QUERY], w1, [Fire(0, 0)], 0, Begin, w2);
    actions := [Fire(0, 0)] + [StepOf(0, 0, Begin)];
    FireNow([QUERY], w2, actions, 1, OVERRUN);
    actions := actions + [Fire(0, 1)];
  }

  /** After that the new cycle sends its result, and only then the cancelled one gets its own. */
  lemma LateResult(early: seq<Action>, w: Snapshot) returns (actions: seq<Action>)
    requires OVERRUN.Reachable([QUERY], early)
    requires w == OVERRUN.(cycles := [Cycle([QUERY], Check(1), true, [RESULT], 0),
                                      Cycle([QUERY], Check(1), false, [RESULT], 0)],
                           mail := [Envelope(0, 1, RESULT), Envelope(0, 0, RESULT)])
    ensures w.Reachable([QUERY], actions) && early <= actions
  {
    var newer := Cycle([QUERY], Check(1), false, [RESULT], 0);
    var w1 := OVERRUN.(cycles := [OVERRUN.cycles[0], newer], mail := [Envelope(0, 1, RESULT)]);
    actions := SendResult(OVERRUN, early, 1, w1);
    var w2 := w1.(cycles := [Cycle([QUERY], Sending(0, RESULT), true, [], 0), newer]);
    Move([QUERY], w1, actions, 0, QueryReturns([], [], false), w2);
    actions := actions + [StepOf(0, 0, QueryReturns([], [], false))];
    assert [] + [RESULT] == [RESULT];
    Move([QUERY], w2, actions, 0, Send, w);
    actions := actions + [StepOf(0, 0, Send)];
  }

  /** A cycle cancelled while its last query is running can still get two messages accepted and count as
      completed; and its result can reach the inbox after the newer cycle's. */
  lemma CancelledCycleCompletes() returns (early: seq<Action>, actions: seq<Action>, w: Snapshot)
    ensures OVERRUN.Reachable([QUERY], early) && w.Reachable([QUERY], actions) && early <= actions
    ensures |w.cycles| == 2 && w.cycles[0].sent == [RESULT, POOL] && w.completed == 1
    ensures w.mail == [Envelope(0, 1, RESULT), Envelope(0, 0, RESULT), Envelope(0, 0, POOL)]
  {
    early := OverrunStarts();
    var newer := Cycle([QUERY], Check(1), false, [RESULT], 0);
    var w0 := OVERRUN.(cycles := [Cycle([QUERY], Check(1), true, [RESULT], 0), newer],
                       mail := [Envelope(0, 1, RESULT), Envelope(0, 0, RESULT)]);
    actions := LateResult(early, w0);
    var w1 := w0.(cycles := [Cycle([QUERY], SendingPool(POOL.stats), true, [RESULT], 0), newer]);
    actions := TakeSample([QUERY], w0, actions, 0, POOL.stats, w1);
    var done := Cycle([QUERY], Unwinding(true, false), true, [RESULT] + [POOL], 0);
    var w2 := w0.(cycles := [done, newer], mail := w0.mail + [Envelope(0, 0, POOL)]);
    actions := SendSample([QUERY], w1, actions, 0, w2);
    w := w2.(cycles := [done.(at := Exited(Completed, false)), newer], completed := 1);
    Finish([QUERY], w2, actions, 0, Completed, w);
    actions := actions + [StepOf(0, 0, Exit)];
  }

  // ----- samples out of order -----

  function Level(n: int): Stats {
    Stats(0, 0, 0, n)
  }

  /** A cycle that has sent its sample, and one that still holds it. */
  function SentSample(n: int, cancelled: bool, sentAtCancel: nat): Cycle {
    Cycle([], Unwinding(true, false), cancelled, [PoolStat("t", Level(n))], sentAtCancel)
  }

  function HeldSample(n: int, cancelled: bool): Cycle {
    Cycle([], SendingPool(Level(n)), cancelled, [], 0)
  }

  /** A fire whose cycle, without queries, reads the pool and sends what it read. */
  lemma FireAndSend(w: Snapshot, actions: seq<Action>, now: int, n: int, next: Snapshot)
    returns (longer: seq<Action>)
    requires w.Reachable([], actions) && Enabled(w.System(), Fire(0, now)) && !w.root
    requires |w.mail| < CAPACITY && !w.closed
    requires next == w.(phase := Ticking, times := w.times + [now],
                        cycles := CancelNewest(w.cycles) + [SentSample(n, false, 0)],
                        mail := w.mail + [Envelope(0, |w.cycles|, PoolStat("t", Level(n)))])
    ensures next.Reachable([], longer)
  {
    var i := |w.cycles|;
    var old' := CancelNewest(w.cycles);
    var w1 := w.(phase := Ticking, times := w.times + [now], cycles := old' + [Cycle([], Check(0), false, [], 0)]);
    FireNow([], w, actions, now, w1);
    longer := actions + [Fire(0, now)];
    var w2 := w1.(cycles := old' + [HeldSample(n, false)]);
    assert w2.cycles == w1.cycles[i := HeldSample(n, false)];
    longer := TakeSample([], w1, longer, i, Level(n), w2);
    assert [] + [PoolStat("t", Level(n))] == [PoolStat("t", Level(n))];
    assert next.cycles == w2.cycles[i := SentSample(n, false, 0)];
    longer := SendSample([], w2, longer, i, next);
  }

  const OVERTAKEN: Snapshot :=
    Snapshot(Ticking, [0, 1], [HeldSample(5, true), SentSample(8, false, 0)], 0, 0, 0,
             [Envelope(0, 1, PoolStat("t", Level(8)))], false, false, false)

  /** A cycle reads 5 and is cancelled at the send; the next reads 8 and sends. */
  lemma SampleOvertaken() returns (actions: seq<Action>)
    ensures OVERTAKEN.Reachable([], actions)
  {
    var w1 := START.(phase := Ticking, times := [0], cycles := [Cycle([], Check(0), false, [], 0)]);
    FireNow([], START, [], 0, w1);
    var w2 := w1.(cycles := [HeldSample(5, false)]);
    actions := TakeSample([], w1, [] + [Fire(0, 0)], 0, Level(5), w2);
    actions := FireAndSend(w2, actions, 1, 8, OVERTAKEN);
  }

  /** Then the first sends its 5, and a third reads and sends 9. */
  lemma LateSampleAccepted() returns (actions: seq<Action>, w: Snapshot)
    ensures w.Reachable([], actions)
    ensures w.mail == [Envelope(0, 1, PoolStat("t", Level(8))), Envelope(0, 0, PoolStat("t", Level(5))),
                       Envelope(0, 2, PoolStat("t", Level(9)))]
  {
    actions := SampleOvertaken();
    var w1 := OVERTAKEN.(cycles := [SentSample(5, true, 0), SentSample(8, false, 0)],
                         mail := OVERTAKEN.mail + [Envelope(0, 0, PoolStat("t", Level(5)))]);
    assert [] + [PoolStat("t", Level(5))] == [PoolStat("t", Level(5))];
    actions := SendSample([], OVERTAKEN, actions, 0, w1);
    w := w1.(times := [0, 1, 2], cycles := [SentSample(5, true, 0), SentSample(8, true, 1), SentSample(9, false, 0)],
             mail := w1.mail + [Envelope(0, 2, PoolStat("t", Level(9)))]);
    actions := FireAndSend(w1, actions, 2, 9, w);
  }

  /** So the exported counter can overstate without any pool recreation: the inbox carries 8, 5, 9, and
      the publisher emits 4 where one empty acquire happened since its first observation. */
  lemma LateSampleOverstates() returns (actions: seq<Action>, w: Snapshot)
    ensures w.Reachable([], actions)
    ensures |w.mail| == 3 && forall k :: 0 <= k < 3 ==> w.mail[k].msg.PoolStat?
    ensures var samples := seq(3, k requires 0 <= k < 3 => w.mail[k].msg.stats.emptyAcquires);
            && Count(EmptyAcquires.ObserveAll(INITIAL.acquires, "t", samples).total, "t") == 4
            && samples[2] - samples[0] == 1
  {
    actions, w := LateSampleAccepted();
    var samples := seq(3, k requires 0 <= k < 3 => w.mail[k].msg.stats.emptyAcquires);
    assert samples == [8, 5, 9];
    EmptyAcquires.EmittedIsRises(INITIAL.acquires, "t", [8, 5, 9]);
    EmptyAcquires.RisesOfThree(8, 5, 9);
  }

  // ----- panics -----

  /** A panic inside a query of a live cycle: the cycle shows in the panic counter and in no other. */
  lemma QueryPanicUncounted() returns (actions: seq<Action>, w: Snapshot)
    ensures w.Reachable([QUERY], actions)
    ensures w.cycles == [Cycle([QUERY], Exited(Uncounted, true), false, [], 0)]
    ensures w.panics == 1 && w.killed == 0 && w.completed == 0 && w.mail == []
  {
    var w1 := START.(phase := Ticking, times := [0], cycles := [FRESH]);
    FireNow([QUERY], START, [], 0, w1);
    actions := [] + [Fire(0, 0)];
    var w2 := w1.(cycles := [Cycle([QUERY], Querying(0), false, [], 0)]);
    Move([QUERY], w1, actions, 0, Begin, w2);
    actions := actions + [StepOf(0, 0, Begin)];
    var w3 := w1.(cycles := [Cycle([QUERY], Unwinding(false, true), false, [], 0)]);
    Move([QUERY], w2, actions, 0, Panic, w3);
    actions := actions + [StepOf(0, 0, Panic)];
    w := w1.(cycles := [Cycle([QUERY], Exited(Uncounted, true), false, [], 0)], panics := 1);
    Finish([QUERY], w3, actions, 0, Uncounted, w);
    actions := actions + [StepOf(0, 0, Exit)];
  }

  // ----- shutdown -----

  /** The ticker can win against the cancelled context: a cycle is fired after the root cancellation, and
      is killed at its first check. */
  lemma FireAfterRoot() returns (actions: seq<Action>, w: Snapshot)
    ensures w.Reachable([QUERY], [RootCancel] + actions) && Fire(0, 0) in actions
    ensures w.cycles == [Cycle([QUERY], Exited(Killed, false), true, [], 0)] && w.killed == 1 && w.mail == []
  {
    var w1 := START.(root := true);
    Extend([QUERY], START, [], RootCancel, w1);
    var w2 := w1.(phase := Ticking, times := [0], cycles := [Cycle([QUERY], Check(0), true, [], 0)]);
    FireNow([QUERY], w1, [] + [RootCancel], 0, w2);
    var w3 := w2.(cycles := [Cycle([QUERY], Unwinding(false, false), true, [], 0)]);
    Move([QUERY], w2, [] + [RootCancel] + [Fire(0, 0)], 0, Begin, w3);
    w := w3.(cycles := [Cycle([QUERY], Exited(Killed, false), true, [], 0)], killed := 1);
    Finish([QUERY], w3, [] + [RootCancel] + [Fire(0, 0)] + [StepOf(0, 0, Begin)], 0, Killed, w);
    actions := [Fire(0, 0), StepOf(0, 0, Begin), StepOf(0, 0, Exit)];
    assert [] + [RootCancel] + [Fire(0, 0)] + [StepOf(0, 0, Begin)] + [StepOf(0, 0, Exit)] == [RootCancel] + actions;
  }

  /** The inbox is closed with a message waiting, and a cancelled cycle still has one to send. */
  const CLOSED: Snapshot :=
    Snapshot(Returned, [0], [Cycle([QUERY], SendingPool(POOL.stats), true, [RESULT], 1)], 0, 0, 0,
             [Envelope(0, 0, RESULT)], true, true, true)

  /** Shutdown in the middle of a cycle: the publisher notices the cancelled context before it receives
      what is waiting, the scheduler returns, the inbox is closed, and the cycle goes on to its last send. */
  lemma CloseMidCycle() returns (actions: seq<Action>)
    ensures CLOSED.Reachable([QUERY], actions)
  {
    var start := START.(phase := Ticking, times := [0], cycles := [FRESH]);
    FireNow([QUERY], START, [], 0, start);
    var w0 := start.(cycles := [Cycle([QUERY], Check(1), false, [RESULT], 0)], mail := [Envelope(0, 0, RESULT)]);
    actions := SendResult(start, [] + [Fire(0, 0)], 0, w0);
    var w1 := w0.(root := true);
    Extend([QUERY], w0, actions, RootCancel, w1);
    actions := actions + [RootCancel];
    var w2 := w1.(gone := true);
    Extend([QUERY], w1, actions, PublisherReturn, w2);
    actions := actions + [PublisherReturn];
    var w3 := w2.(phase := Returned, cycles := [Cycle([QUERY], Check(1), true, [RESULT], 1)]);
    ReturnNow([QUERY], w2, actions, w3);
    actions := actions + [Return(0)];
    var w4 := w3.(closed := true);
    Extend([QUERY], w3, actions, CloseInbox, w4);
    actions := actions + [CloseInbox];
    actions := TakeSample([QUERY], w4, actions, 0, POOL.stats, CLOSED);
  }

  /** An accepted message can be lost at shutdown: everything comes to rest with the inbox not drained. */
  lemma ShutdownCanDropAccepted() returns (actions: seq<Action>, w: Snapshot)
    ensures w.Reachable([QUERY], actions)
    ensures AtRest(w.System()) && w.System().applied == [] && |w.System().accepted| == 1
  {
    actions := CloseMidCycle();
    var w1 := CLOSED.(cycles := [CLOSED.cycles[0].(at := Unwinding(false, false))]);
    Move([QUERY], CLOSED, actions, 0, GiveUp, w1);
    w := w1.(cycles := [CLOSED.cycles[0].(at := Exited(Killed, false))], killed := 1);
    Finish([QUERY], w1, actions + [StepOf(0, 0, GiveUp)], 0, Killed, w);
    actions := actions + [StepOf(0, 0, GiveUp)] + [StepOf(0, 0, Exit)];
  }

  /** In the same place the send on the closed inbox can panic instead: the cycle is counted once as a
      panic and once as killed. */
  lemma LateSendCanPanic() returns (actions: seq<Action>, w: Snapshot)
    ensures CLOSED.Reachable([QUERY], actions)
    ensures w.Reachable([QUERY], actions + [StepOf(0, 0, Panic)] + [StepOf(0, 0, Exit)])
    ensures CLOSED.closed && CLOSED.cycles[0].at.SendingPool? && CLOSED.killed == CLOSED.panics == 0
    ensures AtRest(w.System()) && w.killed == 1 && w.panics == 1 && w.completed == 0 && w.mail == CLOSED.mail
  {
    actions := CloseMidCycle();
    var w1 := CLOSED.(cycles := [CLOSED.cycles[0].(at := Unwinding(false, true))]);
    Move([QUERY], CLOSED, actions, 0, Panic, w1);
    w := w1.(cycles := [CLOSED.cycles[0].(at := Exited(Killed, true))], killed := 1, panics := 1);
    Finish([QUERY], w1, actions + [StepOf(0, 0, Panic)], 0, Killed, w);
  }
}
