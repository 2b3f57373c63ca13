/** When pool samples reach the inbox in the order they were taken. */
module SamplingOrder {
  import opened Values
  import opened Steps
  import opened Cadence
  import opened Cycles
  import opened Discipline

  /** A sample and the cycle that took it. */
  datatype Taken = Taken(cycle: nat, stats: Stats)

  /** The samples a run took for a tenant, in order. */
  function TakenIn(actions: seq<Action>, t: nat): seq<Taken> {
    if actions == [] then []
    else TakenIn(actions[..|actions| - 1], t) + TakenBy(actions[|actions| - 1], t)
  }

  function TakenBy(a: Action, t: nat): seq<Taken> {
    if a.StepOf? && a.tenant == t && a.step.Sample? then [Taken(a.cycle, a.step.stats)] else []
  }

  /** The samples of a tenant among the envelopes, in order. */
  function PoolsOf(es: seq<Envelope>, t: nat): seq<Taken> {
    if es == [] then []
    else
      var last := es[|es| - 1];
      PoolsOf(es[..|es| - 1], t)
      + if last.tenant == t && last.msg.PoolStat? then [Taken(last.cycle, last.msg.stats)] else []
  }

  /** The samples that cycles hold, waiting to be sent. */
  function Held(cycles: seq<Cycle>): seq<Taken> {
    if cycles == [] then []
    else
      var n := |cycles| - 1;
      Held(cycles[..n]) + if cycles[n].at.SendingPool? then [Taken(n, cycles[n].at.stats)] else []
  }

  /** The first sequence is the second with some elements left out. */
  predicate Within<T(==)>(a: seq<T>, b: seq<T>) {
    a == [] || (b != [] && (Within(a, b[..|b| - 1])
                            || (a[|a| - 1] == b[|b| - 1] && Within(a[..|a| - 1], b[..|b| - 1]))))
  }

  lemma {:induction false} WithinDropLast<T>(a: seq<T>, x: T, b: seq<T>)
    requires Within(a + [x], b)
    ensures Within(a, b)
  {
    var front := b[..|b| - 1];
    assert (a + [x])[..|a|] == a;
    if Within(a + [x], front) {
      WithinDropLast(a, x, front);
    }
  }

  lemma WithinBoth<T>(a: seq<T>, b: seq<T>, x: T)
    requires Within(a, b)
    ensures Within(a + [x], b + [x])
  {
    assert (a + [x])[..|a|] == a && (b + [x])[..|b|] == b;
  }

  // ----- what is held -----

  function Holds(c: Cycle): nat {
    if c.at.SendingPool? then 1 else 0
  }

  lemma {:induction false} HeldUpdate(cycles: seq<Cycle>, i: nat, c: Cycle)
    requires i < |cycles|
    ensures |Held(cycles[i := c])| == |Held(cycles)| - Holds(cycles[i]) + Holds(c)
    ensures (c.at.SendingPool? ==> c.at == cycles[i].at) && Holds(c) == Holds(cycles[i]) ==>
              Held(cycles[i := c]) == Held(cycles)
  {
    var n := |cycles| - 1;
    if i == n {
      assert cycles[i := c][..n] == cycles[..n];
    } else {
      assert cycles[i := c][..n] == cycles[..n][i := c];
      HeldUpdate(cycles[..n], i, c);
    }
  }

  lemma {:induction false} HeldAlone(cycles: seq<Cycle>, i: nat)
    requires i < |cycles| && cycles[i].at.SendingPool? && |Held(cycles)| <= 1
    ensures Held(cycles) == [Taken(i, cycles[i].at.stats)]
  {
    var n := |cycles| - 1;
    if i < n {
      HeldAlone(cycles[..n], i);
    }
  }

  lemma HeldAfterCancel(cycles: seq<Cycle>)
    ensures Held(CancelNewest(cycles)) == Held(cycles)
  {
    if cycles != [] {
      HeldUpdate(cycles, |cycles| - 1, CancelCycle(cycles[|cycles| - 1]));
    }
  }

  lemma HeldAfterFire(cycles: seq<Cycle>, added: Cycle)
    requires !added.at.SendingPool?
    ensures Held(CancelNewest(cycles) + [added]) == Held(cycles)
  {
    HeldAfterCancel(cycles);
    assert (CancelNewest(cycles) + [added])[..|cycles|] == CancelNewest(cycles);
  }

  // ----- the invariant -----

  /** What was sent, with what is held, is in the order it was taken. */
  ghost predicate Ordered(s: System, t: nat, taken: seq<Taken>)
    requires t < |s.tenants|
  {
    Within(PoolsOf(s.accepted, t) + Held(s.tenants[t].cycles), taken)
  }

  lemma TakeKeeps(cycles: seq<Cycle>, i: nat, c: Cycle, sent: seq<Taken>, taken: seq<Taken>)
    requires i < |cycles| && !cycles[i].at.SendingPool? && c.at.SendingPool? && |Held(cycles[i := c])| <= 1
    requires Within(sent + Held(cycles), taken)
    ensures Within(sent + Held(cycles[i := c]), taken + [Taken(i, c.at.stats)])
  {
    HeldUpdate(cycles, i, c);
    HeldAlone(cycles[i := c], i);
    assert sent + [] == sent;
    WithinBoth(sent, taken, Taken(i, c.at.stats));
  }

  lemma LeaveKeeps(cycles: seq<Cycle>, i: nat, c: Cycle, sent: seq<Taken>, taken: seq<Taken>)
    requires i < |cycles| && cycles[i].at.SendingPool? && !c.at.SendingPool? && |Held(cycles)| <= 1
    requires Within(sent + Held(cycles), taken)
    ensures Held(cycles[i := c]) == []
    ensures Within(sent, taken) && Within(sent + [Taken(i, cycles[i].at.stats)], taken)
  {
    HeldUpdate(cycles, i, c);
    HeldAlone(cycles, i);
    WithinDropLast(sent, Taken(i, cycles[i].at.stats), taken);
  }

  /** Which steps touch what is held. */
  lemma StepHolds(tenant: string, c: Cycle, step: CycleStep, room: bool, closed: bool)
    requires CanStep(c, step, room, closed)
    ensures var d, out := StepCycle(tenant, c, step), Emits(tenant, c, step);
            && (step.Sample? ==> !c.at.SendingPool? && d.at == SendingPool(step.stats) && out.None?)
            && (step.SendPool? ==> c.at.SendingPool? && !d.at.SendingPool? && out == Some(PoolStat(tenant, c.at.stats)))
            && (!step.Sample? && !step.SendPool? ==>
                 && (d.at.SendingPool? ==> c.at == d.at)
                 && (step.Send? || out.None?))
  {
  }

  lemma StepOrdered(qs: seq<Query>, s: System, t: nat, i: nat, step: CycleStep, taken: seq<Taken>)
    requires Enabled(s, StepOf(t, i, step)) && Ordered(s, t, taken) && ResultsToSend(s, t)
    requires |Held(s.tenants[t].cycles)| <= 1
    requires |Held(Do(qs, s, StepOf(t, i, step)).tenants[t].cycles)| <= 1
    ensures Ordered(Do(qs, s, StepOf(t, i, step)), t, taken + TakenBy(StepOf(t, i, step), t))
  {
    var cycles, after := s.tenants[t].cycles, Do(qs, s, StepOf(t, i, step));
    var c := StepCycle(s.tenants[t].name, cycles[i], step);
    var sent := PoolsOf(s.accepted, t);
    assert after.tenants[t].cycles == cycles[i := c];
    SentAfter(qs, s, t, i, step);
    StepHolds(s.tenants[t].name, cycles[i], step, |s.inbox| < CAPACITY, s.closed);
    if step.Sample? {
      TakeKeeps(cycles, i, c, sent, taken);
    } else {
      assert taken + [] == taken;
      if cycles[i].at.SendingPool? && !c.at.SendingPool? {
        LeaveKeeps(cycles, i, c, sent, taken);
        assert PoolsOf(after.accepted, t) + [] == PoolsOf(after.accepted, t);
      } else {
        HeldUpdate(cycles, i, c);
        assert Held(cycles[i := c]) == Held(cycles);
      }
    }
  }

  /** Only results are held at a query's send. */
  ghost predicate ResultsToSend(s: System, t: nat)
    requires t < |s.tenants|
  {
    forall i :: 0 <= i < |s.tenants[t].cycles| && s.tenants[t].cycles[i].at.Sending? ==>
      s.tenants[t].cycles[i].at.result.QueryResult?
  }

  lemma SentAfter(qs: seq<Query>, s: System, t: nat, i: nat, step: CycleStep)
    requires Enabled(s, StepOf(t, i, step)) && ResultsToSend(s, t)
    ensures var c := s.tenants[t].cycles[i];
            PoolsOf(Do(qs, s, StepOf(t, i, step)).accepted, t)
              == if step.SendPool? then PoolsOf(s.accepted, t) + [Taken(i, c.at.stats)] else PoolsOf(s.accepted, t)
  {
    var out := Emits(s.tenants[t].name, s.tenants[t].cycles[i], step);
    if out.Some? {
      var es := s.accepted + [Envelope(t, i, out.value)];
      assert es[..|es| - 1] == s.accepted;
    }
    assert PoolsOf(s.accepted, t) + [] == PoolsOf(s.accepted, t);
  }

  // ----- whole runs -----

  /** Every other action takes no sample of the tenant, sends none, and leaves what it holds alone. */
  lemma OtherOrdered(qs: seq<Query>, s: System, a: Action, t: nat, taken: seq<Taken>)
    requires Enabled(s, a) && t < |s.tenants| && Ordered(s, t, taken)
    requires !(a.StepOf? && a.tenant == t)
    ensures t < |Do(qs, s, a).tenants| && Ordered(Do(qs, s, a), t, taken + TakenBy(a, t))
  {
    assert taken + [] == taken;
    match a
    case Fire(u, now) =>
      if u == t {
        HeldAfterFire(s.tenants[t].cycles, Cycle(Due(qs, s.tenants[t].lastRun, now).due, Check(0), s.root, [], 0));
      }
    case Return(u) =>
      if u == t {
        HeldAfterCancel(s.tenants[t].cycles);
      }
    case StepOf(u, i, step) =>
      var out := Emits(s.tenants[u].name, s.tenants[u].cycles[i], step);
      if out.Some? {
        var es := s.accepted + [Envelope(u, i, out.value)];
        assert es[..|es| - 1] == s.accepted;
        assert PoolsOf(s.accepted, t) + [] == PoolsOf(s.accepted, t);
      }
    case RootCancel =>
    case Receive =>
    case PublisherReturn =>
    case CloseInbox =>
  }

  /** At no point of the run do two cycles of the tenant hold a sample at once. */
  ghost predicate OneHolder(qs: seq<Query>, s: System, actions: seq<Action>, t: nat)
    requires ValidTrace(qs, s, actions)
  {
    && t < |After(qs, s, actions).tenants|
    && |Held(After(qs, s, actions).tenants[t].cycles)| <= 1
    && (actions != [] ==> OneHolder(qs, s, actions[..|actions| - 1], t))
  }

  lemma {:induction false} OrderedThroughout(qs: seq<Query>, start: System, actions: seq<Action>, t: nat)
    requires Initial(start) && ValidTrace(qs, start, actions) && t < |start.tenants|
    requires OneHolder(qs, start, actions, t)
    ensures Ordered(After(qs, start, actions), t, TakenIn(actions, t))
  {
    if actions != [] {
      var n := |actions| - 1;
      var here := After(qs, start, actions[..n]);
      OrderedThroughout(qs, start, actions[..n], t);
      if actions[n].StepOf? && actions[n].tenant == t {
        AlwaysOk(qs, start, actions[..n]);
        OnlyResults(qs, here, t);
        StepOrdered(qs, here, t, actions[n].cycle, actions[n].step, TakenIn(actions[..n], t));
      } else {
        OtherOrdered(qs, here, actions[n], t, TakenIn(actions[..n], t));
      }
    }
  }

  lemma OnlyResults(qs: seq<Query>, s: System, t: nat)
    requires SystemOk(qs, s) && t < |s.tenants|
    ensures ResultsToSend(s, t)
  {
    assert TenantOk(qs, s.tenants[t]);
    forall i | 0 <= i < |s.tenants[t].cycles| && s.tenants[t].cycles[i].at.Sending?
      ensures s.tenants[t].cycles[i].at.result.QueryResult?
    {
      assert CycleOk(s.tenants[t].name, s.tenants[t].cycles[i]);
    }
  }

  /** If no two cycles of a tenant ever hold a sample at once, the inbox accepts the tenant's samples in
      the order they were taken. */
  lemma SamplesInOrder(qs: seq<Query>, start: System, actions: seq<Action>, t: nat)
    requires Initial(start) && ValidTrace(qs, start, actions) && t < |start.tenants|
    requires OneHolder(qs, start, actions, t)
    ensures Within(PoolsOf(After(qs, start, actions).accepted, t), TakenIn(actions, t))
  {
    OrderedThroughout(qs, start, actions, t);
    var s := After(qs, start, actions);
    WithinDropAll(PoolsOf(s.accepted, t), Held(s.tenants[t].cycles), TakenIn(actions, t));
  }

  lemma {:induction false} WithinDropAll<T>(a: seq<T>, more: seq<T>, b: seq<T>)
    requires Within(a + more, b)
    ensures Within(a, b)
  {
    if more == [] {
      assert a + more == a;
    } else {
      var n := |more| - 1;
      assert a + more == a + more[..n] + [more[n]];
      WithinDropLast(a + more[..n], more[n], b);
      WithinDropAll(a, more[..n], b);
    }
  }
}
