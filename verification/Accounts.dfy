/** Pool gauges and the panic counter over whole runs. */
module Accounts {
  import opened Values
  import opened Steps
  import Outcomes

  // ----- panics -----

  /** The applies of a tenant that a panic ended. */
  ghost function PanicsOf(cfg: Config, s: State, es: seq<Event>, t: string): nat
    requires ValidRun(cfg, s, es)
  {
    if es == [] then 0
    else
      var n := |es| - 1;
      var here := Run(cfg, s, es[..n]);
      PanicsOf(cfg, s, es[..n], t)
      + if es[n].Apply? && es[n].msg.tenant == t && es[n].cut.Some? && es[n].cut.value < |PlanOf(cfg, here, es[n])|
        then 1 else 0
  }

  lemma {:induction false} KeepsPanics(s: State, t: string, query: string, steps: seq<Step>)
    ensures ExecAll(s, t, query, steps).panics == s.panics
  {
    if steps != [] {
      var n := |steps| - 1;
      KeepsPanics(s, t, query, steps[..n]);
      Outcomes.ExecFrame(ExecAll(s, t, query, steps[..n]), t, query, steps[n]);
    }
  }

  /** A panicking apply does the steps before the cut, and one more: it adds 1 to the panics of its
      tenant, and to nothing else. Any other event counts no panic. */
  lemma EventPanics(cfg: Config, s: State, e: Event)
    requires ValidEvent(cfg, s, e)
    ensures var after := Run1(cfg, s, e);
            if e.Apply? && e.cut.Some? && e.cut.value < |PlanOf(cfg, s, e)| then
              var t := e.msg.tenant;
              && after == ExecAll(s, t, QueryName(e.msg), PlanOf(cfg, s, e)[..e.cut.value]).(panics := after.panics)
              && after.panics == s.panics[t := 1 + if t in s.panics then s.panics[t] else 0]
            else after.panics == s.panics
  {
    if Panics(cfg, s, e) {
      PanicOutcome(cfg, s, e);
    } else if e.Apply? {
      KeepsPanics(s, e.msg.tenant, QueryName(e.msg), PlanOf(cfg, s, e));
    }
  }

  lemma PanicOutcome(cfg: Config, s: State, e: Event)
    requires ValidEvent(cfg, s, e) && Panics(cfg, s, e)
    ensures var t, done := e.msg.tenant, ExecAll(s, e.msg.tenant, QueryName(e.msg), PlanOf(cfg, s, e)[..e.cut.value]);
            Run1(cfg, s, e) == done.(panics := s.panics[t := 1 + if t in s.panics then s.panics[t] else 0])
  {
    var t, query, prefix := e.msg.tenant, QueryName(e.msg), PlanOf(cfg, s, e)[..e.cut.value];
    KeepsPanics(s, t, query, prefix);
    CountedOnce(s, ExecAll(s, t, query, prefix), t);
    RunOfPanic(cfg, s, e);
  }

  lemma CountedOnce(s: State, done: State, t: string)
    requires done.panics == s.panics
    ensures CountPanic(done, t) == done.(panics := s.panics[t := 1 + if t in s.panics then s.panics[t] else 0])
  {
  }

  lemma RunOfPanic(cfg: Config, s: State, e: Event)
    requires ValidEvent(cfg, s, e) && Panics(cfg, s, e)
    ensures var done := ExecAll(s, e.msg.tenant, QueryName(e.msg), PlanOf(cfg, s, e)[..e.cut.value]);
            Run1(cfg, s, e) == CountPanic(done, e.msg.tenant)
  {
  }

  /** Over every run the panic counter of a tenant is the number of its applies that a panic ended. */
  lemma {:induction false} PanicsAccounted(cfg: Config, s: State, es: seq<Event>, t: string)
    requires ValidRun(cfg, s, es)
    ensures Count(Run(cfg, s, es).panics, t) == Count(s.panics, t) + PanicsOf(cfg, s, es, t)
  {
    if es != [] {
      var n := |es| - 1;
      PanicsAccounted(cfg, s, es[..n], t);
      EventPanics(cfg, Run(cfg, s, es[..n]), es[n]);
    }
  }

  // ----- pool gauges -----

  function LevelOf(gauge: PoolGauge, stats: Stats): int {
    match gauge
    case Acquired => stats.acquired
    case Idle => stats.idle
    case Total => stats.total
  }

  /** How many operations of a pool message come before the write of this gauge. */
  function PlaceOf(gauge: PoolGauge): nat {
    match gauge
    case Acquired => 0
    case Idle => 1
    case Total => 2
  }

  /** The level of the tenant's last pool message that got as far as this gauge, since its last reset. */
  function PoolLevel(es: seq<Event>, t: string, gauge: PoolGauge, before: Option<int>): Option<int> {
    if es == [] then before
    else
      var e := es[|es| - 1];
      if e.Reset? && e.resetTenant == t then None
      else if e.Apply? && e.msg.PoolStat? && e.msg.tenant == t && (e.cut.None? || e.cut.value > PlaceOf(gauge))
      then Some(LevelOf(gauge, e.msg.stats))
      else PoolLevel(es[..|es| - 1], t, gauge, before)
  }

  lemma PoolStep(s: State, t: string, stats: Stats, n: nat, gauge: PoolGauge, u: string)
    requires n < 4
    ensures |PoolPlan(stats)| == 4
    ensures Get(Exec(s, t, "", PoolPlan(stats)[n]).pool, (gauge, u)) ==
              if u == t && PlaceOf(gauge) == n then Some(LevelOf(gauge, stats)) else Get(s.pool, (gauge, u))
  {
  }

  lemma {:induction false} PoolPrefix(s: State, t: string, stats: Stats, n: nat, gauge: PoolGauge, u: string)
    requires n <= |PoolPlan(stats)| == 4
    ensures Get(ExecAll(s, t, "", PoolPlan(stats)[..n]).pool, (gauge, u)) ==
              if u == t && PlaceOf(gauge) < n then Some(LevelOf(gauge, stats)) else Get(s.pool, (gauge, u))
  {
    if n == 0 {
      assert PoolPlan(stats)[..0] == [];
    } else {
      var plan := PoolPlan(stats);
      PoolPrefix(s, t, stats, n - 1, gauge, u);
      PoolStep(ExecAll(s, t, "", plan[..n - 1]), t, stats, n - 1, gauge, u);
      ExecNext(s, t, "", plan, n - 1);
    }
  }

  lemma {:induction false} KeepsPool(s: State, t: string, query: string, steps: seq<Step>)
    requires forall i :: 0 <= i < |steps| ==> !steps[i].SetPool?
    ensures ExecAll(s, t, query, steps).pool == s.pool
  {
    if steps != [] {
      var n := |steps| - 1;
      KeepsPool(s, t, query, steps[..n]);
      Outcomes.ExecFrame(ExecAll(s, t, query, steps[..n]), t, query, steps[n]);
    }
  }

  /** The steps of a result write no pool gauge. */
  lemma ResultPlan(cfg: Config, s: State, e: Event)
    requires WellFormed(cfg) && e.Apply? && ValidEvent(cfg, s, e) && !e.msg.PoolStat?
    ensures var plan := PlanOf(cfg, s, e); forall i :: 0 <= i < |plan| ==> !plan[i].SetPool?
  {
    if Accepted(cfg, e.msg) {
      Outcomes.GaugePartBumps(cfg, s, e);
      WritesNoPool(Outcomes.GaugePart(cfg, s, e), Commit(NewTuples(cfg.spec[e.msg.query], e.msg.tenant, e.msg.rows)));
      Outcomes.PlanAround(cfg, s, e);
    }
  }

  lemma WritesNoPool(part: seq<Step>, commit: Step)
    requires Outcomes.GaugeSteps(part) && commit.Commit?
    ensures var plan := [OpenTenant] + part + [commit]; forall i :: 0 <= i < |plan| ==> !plan[i].SetPool?
  {
    assert forall i :: 0 <= i < |part| ==> Outcomes.GaugeStep(part[i]);
  }

  lemma EventPool(cfg: Config, s: State, e: Event, t: string, gauge: PoolGauge)
    requires WellFormed(cfg) && ValidEvent(cfg, s, e)
    ensures Get(Run1(cfg, s, e).pool, (gauge, t)) == PoolLevel([e], t, gauge, Get(s.pool, (gauge, t)))
  {
    assert [e][..0] == [];
    if e.Apply? {
      var plan := PlanOf(cfg, s, e);
      var prefix := if Panics(cfg, s, e) then plan[..e.cut.value] else plan;
      if e.msg.PoolStat? {
        assert plan[..|plan|] == plan;
        PoolPrefix(s, e.msg.tenant, e.msg.stats, |prefix|, gauge, t);
      } else {
        ResultPlan(cfg, s, e);
        KeepsPool(s, e.msg.tenant, QueryName(e.msg), prefix);
      }
    }
  }

  /** Over every run, panics included, each pool gauge of a tenant reads what the tenant's last pool
      message that got to it said, and is absent since a reset. */
  lemma {:induction false} PoolGaugesFollow(cfg: Config, s: State, es: seq<Event>, t: string, gauge: PoolGauge)
    requires WellFormed(cfg) && ValidRun(cfg, s, es)
    ensures Get(Run(cfg, s, es).pool, (gauge, t)) == PoolLevel(es, t, gauge, Get(s.pool, (gauge, t)))
  {
    if es != [] {
      var n := |es| - 1;
      PoolGaugesFollow(cfg, s, es[..n], t, gauge);
      EventPool(cfg, Run(cfg, s, es[..n]), es[n], t, gauge);
      assert [es[n]][..0] == [];
    }
  }

  /** A pool message that runs to its end sets exactly its tenant's three gauges to its three levels, and
      beyond them touches only the empty-acquire mirror. */
  lemma PoolStatOutcome(cfg: Config, s: State, e: Event)
    requires ValidEvent(cfg, s, e) && e.Apply? && e.cut.None? && e.msg.PoolStat?
    ensures var after, t, stats := Run1(cfg, s, e), e.msg.tenant, e.msg.stats;
            && after == s.(pool := after.pool, acquires := after.acquires)
            && after.pool == s.pool[(Acquired, t) := stats.acquired][(Idle, t) := stats.idle][(Total, t) := stats.total]
            && after.acquires == Observe(s.acquires, t, stats.emptyAcquires)
  {
    var t, plan := e.msg.tenant, PoolPlan(e.msg.stats);
    assert plan[..0] == [] && plan[..4] == plan;
    ExecNext(s, t, "", plan, 0);
    ExecNext(s, t, "", plan, 1);
    ExecNext(s, t, "", plan, 2);
    ExecNext(s, t, "", plan, 3);
  }
}
