/** Whole-run tenant non-interference, with panics and tenant resets anywhere in the run. */
module Isolation {
  import opened Values
  import opened Steps
  import opened Outcomes

  ghost predicate SameSeries(t: string, a: map<Series, Number>, b: map<Series, Number>) {
    forall k: Series :: OwnedBy(k.tuple, t) ==> Get(a, k) == Get(b, k)
  }

  ghost predicate SameErrors(t: string, a: map<(string, string), nat>, b: map<(string, string), nat>) {
    forall q: string :: Get(a, (t, q)) == Get(b, (t, q))
  }

  ghost predicate SameAcquires(t: string, a: Acquires, b: Acquires) {
    && Get(a.baselines, t) == Get(b.baselines, t)
    && (t in a.seen <==> t in b.seen)
    && Get(a.total, t) == Get(b.total, t)
  }

  ghost predicate SamePool(t: string, a: map<(PoolGauge, string), int>, b: map<(PoolGauge, string), int>) {
    forall g: PoolGauge :: Get(a, (g, t)) == Get(b, (g, t))
  }

  /** Everything the publisher keeps or exposes for tenant t is the same in both states. */
  ghost predicate SameFor(t: string, a: State, b: State) {
    && SameSeries(t, a.series, b.series)
    && Get(a.lastLabels, t) == Get(b.lastLabels, t)
    && SameErrors(t, a.errors, b.errors)
    && Get(a.panics, t) == Get(b.panics, t)
    && SameAcquires(t, a.acquires, b.acquires)
    && SamePool(t, a.pool, b.pool)
  }

  ghost predicate TrackingOwned(tuples: Tracking, t: string) {
    forall sig :: sig in tuples ==> OwnedBy(tuples[sig], t)
  }

  /** Every tuple stored for a tenant carries that tenant's label, and every series has a tenant. */
  ghost predicate Owned(s: State) {
    && (forall t, q :: t in s.lastLabels && q in s.lastLabels[t] ==> TrackingOwned(s.lastLabels[t][q], t))
    && (forall k :: k in s.series ==> k.tuple != [])
  }

  ghost predicate StepOwned(step: Step, t: string) {
    match step
    case Create(_, tuple) => OwnedBy(tuple, t)
    case Set(_, tuple, _) => OwnedBy(tuple, t)
    case Delete(_, tuple) => OwnedBy(tuple, t)
    case Commit(tuples) => TrackingOwned(tuples, t)
    case _ => true
  }

  ghost predicate AllOwned(steps: seq<Step>, t: string) {
    forall i :: 0 <= i < |steps| ==> StepOwned(steps[i], t)
  }

  lemma SameForTransitive(t: string, a: State, b: State, c: State)
    requires SameFor(t, a, b) && SameFor(t, b, c)
    ensures SameFor(t, a, c)
  {
  }

  lemma SameForSymmetric(t: string, a: State, b: State)
    requires SameFor(t, a, b)
    ensures SameFor(t, b, a)
  {
  }

  lemma ExecConfined(s: State, t: string, q: string, step: Step, u: string)
    requires StepOwned(step, t) && u != t
    ensures SameFor(u, s, Exec(s, t, q, step))
  {
  }

  lemma ObserveCongruent(a: Acquires, b: Acquires, t: string, current: int)
    requires SameAcquires(t, a, b)
    ensures SameAcquires(t, Observe(a, t, current), Observe(b, t, current))
  {
  }

  lemma PreviousCongruent(a: State, b: State, t: string, q: string)
    requires SameFor(t, a, b)
    ensures Previous(a, t, q) == Previous(b, t, q)
  {
  }

  lemma CreatedCongruent(a: map<Series, Number>, b: map<Series, Number>, t: string, k: Series)
    requires SameSeries(t, a, b)
    ensures SameSeries(t, Created(a, k), Created(b, k))
  {
    assert OwnedBy(k.tuple, t) ==> Get(a, k) == Get(b, k);
  }

  lemma ExecCongruent(a: State, b: State, t: string, q: string, step: Step)
    requires SameFor(t, a, b)
    ensures SameFor(t, Exec(a, t, q, step), Exec(b, t, q, step))
  {
    match step
    case OpenTenant =>
    case BumpError =>
    case Create(value, tuple) => CreatedCongruent(a.series, b.series, t, Series(q, value, tuple));
    case Set(_, _, _) =>
    case Delete(_, _) =>
    case Commit(_) =>
    case SetPool(_, _) =>
    case ObserveEmptyAcquires(current) =>
      ObserveCongruent(a.acquires, b.acquires, t, current);
  }

  lemma {:induction false} ExecAllOwned(s: State, t: string, q: string, steps: seq<Step>)
    requires Owned(s) && AllOwned(steps, t)
    ensures Owned(ExecAll(s, t, q, steps))
  {
    if steps != [] {
      var n := |steps| - 1;
      ExecAllOwned(s, t, q, steps[..n]);
      assert StepOwned(steps[n], t);
    }
  }

  lemma {:induction false} ExecAllConfined(s: State, t: string, q: string, steps: seq<Step>, u: string)
    requires AllOwned(steps, t) && u != t
    ensures SameFor(u, s, ExecAll(s, t, q, steps))
  {
    if steps != [] {
      var n := |steps| - 1;
      ExecAllConfined(s, t, q, steps[..n], u);
      assert StepOwned(steps[n], t);
      ExecConfined(ExecAll(s, t, q, steps[..n]), t, q, steps[n], u);
      SameForTransitive(u, s, ExecAll(s, t, q, steps[..n]), ExecAll(s, t, q, steps));
    }
  }

  lemma {:induction false} ExecAllCongruent(a: State, b: State, t: string, q: string, steps: seq<Step>)
    requires SameFor(t, a, b)
    ensures SameFor(t, ExecAll(a, t, q, steps), ExecAll(b, t, q, steps))
  {
    if steps != [] {
      var n := |steps| - 1;
      ExecAllCongruent(a, b, t, q, steps[..n]);
      ExecCongruent(ExecAll(a, t, q, steps[..n]), ExecAll(b, t, q, steps[..n]), t, q, steps[n]);
    }
  }

  lemma {:induction false} RowStepsOwned(q: Query, t: string, row: Row, order: seq<string>)
    ensures AllOwned(RowSteps(q, t, row, order), t)
  {
    if order != [] {
      RowStepsOwned(q, t, row, order[..|order| - 1]);
      assert AllOwned(CellSteps(q, t, row, order[|order| - 1]), t);
    }
  }

  lemma {:induction false} SetStepsOwned(q: Query, t: string, rows: seq<Row>, orders: seq<seq<string>>)
    requires |orders| == |rows|
    ensures AllOwned(SetSteps(q, t, rows, orders), t)
  {
    if rows != [] {
      SetStepsOwned(q, t, rows[..|rows| - 1], orders[..|rows| - 1]);
      RowStepsOwned(q, t, rows[|rows| - 1], orders[|rows| - 1]);
    }
  }

  lemma {:induction false} NewTuplesOwned(q: Query, t: string, rows: seq<Row>)
    ensures TrackingOwned(NewTuples(q, t, rows), t)
  {
    if rows != [] {
      NewTuplesOwned(q, t, rows[..|rows| - 1]);
    }
  }

  lemma {:induction false} DeleteStepsOwned(
    t: string, prev: Tracking, current: Tracking, sigs: seq<string>, gauges: seq<seq<string>>)
    requires |gauges| == |sigs|
    requires TrackingOwned(prev, t)
    ensures AllOwned(DeleteSteps(prev, current, sigs, gauges), t)
  {
    if sigs != [] {
      DeleteStepsOwned(t, prev, current, sigs[..|sigs| - 1], gauges[..|sigs| - 1]);
    }
  }

  lemma PlanOwned(cfg: Config, prev: Tracking, msg: Message, sched: Schedule)
    requires ValidSchedule(cfg, prev, msg, sched)
    requires TrackingOwned(prev, msg.tenant)
    ensures AllOwned(Plan(cfg, prev, msg, sched), msg.tenant)
  {
    if Accepted(cfg, msg) {
      var q, t := cfg.spec[msg.query], msg.tenant;
      SetStepsOwned(q, t, msg.rows, sched.columns);
      NewTuplesOwned(q, t, msg.rows);
      DeleteStepsOwned(t, prev, NewTuples(q, t, msg.rows), sched.tracked, sched.gauges);
    }
  }

  /** One event, cut short or not, changes nothing outside its own tenant's slice. */
  lemma EventConfined(cfg: Config, s: State, e: Event, u: string)
    requires Owned(s) && ValidEvent(cfg, s, e)
    ensures Owned(Run1(cfg, s, e))
    ensures u != e.Tenant() ==> SameFor(u, s, Run1(cfg, s, e))
  {
    if e.Apply? {
      var t, q := e.msg.tenant, QueryName(e.msg);
      var plan := PlanOf(cfg, s, e);
      var prefix := if Panics(cfg, s, e) then plan[..e.cut.value] else plan;
      PlanOwned(cfg, Previous(s, t, q), e.msg, e.sched);
      ExecAllOwned(s, t, q, prefix);
      if u != t {
        ExecAllConfined(s, t, q, prefix, u);
      }
    }
  }

  /** What one event does to its tenant depends on that tenant's slice alone. */
  lemma EventCongruent(cfg: Config, a: State, b: State, e: Event)
    requires SameFor(e.Tenant(), a, b)
    ensures ValidEvent(cfg, a, e) <==> ValidEvent(cfg, b, e)
    ensures ValidEvent(cfg, a, e) ==> SameFor(e.Tenant(), Run1(cfg, a, e), Run1(cfg, b, e))
  {
    if e.Apply? {
      var t, q := e.msg.tenant, QueryName(e.msg);
      PreviousCongruent(a, b, t, q);
      if ValidEvent(cfg, a, e) {
        var plan := PlanOf(cfg, a, e);
        if Panics(cfg, a, e) {
          ExecAllCongruent(a, b, t, q, plan[..e.cut.value]);
        } else {
          ExecAllCongruent(a, b, t, q, plan);
        }
      }
    }
  }

  /** The events of one tenant, in order. */
  function Only(es: seq<Event>, t: string): seq<Event> {
    if es == [] then []
    else
      var n := |es| - 1;
      Only(es[..n], t) + if es[n].Tenant() == t then [es[n]] else []
  }

  lemma {:induction false} RunOwned(cfg: Config, s: State, es: seq<Event>)
    requires Owned(s) && ValidRun(cfg, s, es)
    ensures Owned(Run(cfg, s, es))
  {
    if es != [] {
      RunOwned(cfg, s, es[..|es| - 1]);
      EventConfined(cfg, Run(cfg, s, es[..|es| - 1]), es[|es| - 1], "");
    }
  }

  /** Whatever the other tenants send, and wherever panics strike, tenant t ends up exactly as if
      only its own events had happened. */
  lemma {:induction false} NonInterference(cfg: Config, s: State, es: seq<Event>, t: string)
    requires Owned(s) && ValidRun(cfg, s, es)
    ensures ValidRun(cfg, s, Only(es, t))
    ensures SameFor(t, Run(cfg, s, es), Run(cfg, s, Only(es, t)))
  {
    if es != [] {
      var n := |es| - 1;
      NonInterference(cfg, s, es[..n], t);
      RunOwned(cfg, s, es[..n]);
      var here, alone := Run(cfg, s, es[..n]), Run(cfg, s, Only(es[..n], t));
      if es[n].Tenant() == t {
        EventCongruent(cfg, here, alone, es[n]);
        assert Only(es, t)[..|Only(es, t)| - 1] == Only(es[..n], t);
      } else {
        EventConfined(cfg, here, es[n], t);
        SameForSymmetric(t, here, Run(cfg, s, es));
        SameForTransitive(t, Run(cfg, s, es), here, alone);
        assert Only(es, t) == Only(es[..n], t);
      }
    }
  }

  lemma SameForAll(a: State, b: State)
    requires Owned(a) && Owned(b)
    requires forall t :: SameFor(t, a, b)
    ensures a == b
  {
    forall k: Series ensures Get(a.series, k) == Get(b.series, k) {
      if k.tuple != [] {
        assert SameFor(k.tuple[0], a, b) && OwnedBy(k.tuple, k.tuple[0]);
      }
    }
    assert a.series == b.series by { EqualMaps(a.series, b.series); }
    forall t: string
      ensures Get(a.lastLabels, t) == Get(b.lastLabels, t) && Get(a.panics, t) == Get(b.panics, t)
      ensures SameAcquires(t, a.acquires, b.acquires)
    {
      assert SameFor(t, a, b);
    }
    EqualMaps(a.lastLabels, b.lastLabels);
    EqualMaps(a.panics, b.panics);
    forall t: string
      ensures Get(a.acquires.baselines, t) == Get(b.acquires.baselines, t)
      ensures Get(a.acquires.total, t) == Get(b.acquires.total, t)
      ensures t in a.acquires.seen <==> t in b.acquires.seen
    {
      assert SameAcquires(t, a.acquires, b.acquires);
    }
    EqualMaps(a.acquires.baselines, b.acquires.baselines);
    EqualMaps(a.acquires.total, b.acquires.total);
    forall k: (string, string) ensures Get(a.errors, k) == Get(b.errors, k) {
      assert SameFor(k.0, a, b) && k == (k.0, k.1);
    }
    EqualMaps(a.errors, b.errors);
    forall k: (PoolGauge, string) ensures Get(a.pool, k) == Get(b.pool, k) {
      assert SameFor(k.1, a, b) && k == (k.0, k.1);
    }
    EqualMaps(a.pool, b.pool);
  }

  // ----- interleavings -----

  /** The same happening: the same message or reset. How the runtime iterated its maps is left open,
      unless a panic cut the apply short. */
  ghost predicate Alike(d: Event, e: Event) {
    d == e || (d.Apply? && e.Apply? && d.msg == e.msg && d.cut.None? && e.cut.None?)
  }

  ghost predicate AllAlike(es: seq<Event>, fs: seq<Event>) {
    |es| == |fs| && forall i :: 0 <= i < |es| ==> Alike(es[i], fs[i])
  }

  lemma {:induction false} AlikeRunsAgree(cfg: Config, s: State, es: seq<Event>, fs: seq<Event>)
    requires WellFormed(cfg) && ValidRun(cfg, s, es) && ValidRun(cfg, s, fs) && AllAlike(es, fs)
    ensures Run(cfg, s, es) == Run(cfg, s, fs)
  {
    if es != [] {
      var n := |es| - 1;
      AlikeRunsAgree(cfg, s, es[..n], fs[..n]);
      assert Alike(es[n], fs[n]);
      if es[n] != fs[n] {
        OrderIndependence(cfg, Run(cfg, s, es[..n]), es[n], fs[n]);
      }
    }
  }

  /** Any two interleavings with the same messages in the same order within each tenant end in the same
      state, whatever order the maps were iterated in. */
  lemma InterleavingsAgree(cfg: Config, s: State, es: seq<Event>, fs: seq<Event>)
    requires WellFormed(cfg) && Owned(s) && ValidRun(cfg, s, es) && ValidRun(cfg, s, fs)
    requires forall t :: AllAlike(Only(es, t), Only(fs, t))
    ensures Run(cfg, s, es) == Run(cfg, s, fs)
  {
    var a, b := Run(cfg, s, es), Run(cfg, s, fs);
    forall t ensures SameFor(t, a, b) {
      NonInterference(cfg, s, es, t);
      NonInterference(cfg, s, fs, t);
      var own := Run(cfg, s, Only(es, t));
      assert AllAlike(Only(es, t), Only(fs, t));
      AlikeRunsAgree(cfg, s, Only(es, t), Only(fs, t));
      SameForSymmetric(t, b, own);
      SameForTransitive(t, a, own, b);
    }
    RunOwned(cfg, s, es);
    RunOwned(cfg, s, fs);
    SameForAll(a, b);
  }
}
