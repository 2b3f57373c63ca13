/** What a whole plan comes to, whatever order the maps were iterated in. */
module Outcomes {
  import opened Values
  import opened Tuples
  import opened Steps

  /** The number a result gives a series: that of the last row with its tuple whose cell converts. */
  function LastNumber(q: Query, tenant: string, rows: seq<Row>, k: Series): Option<Number> {
    if rows == [] || k.query != q.name || k.value !in q.values then None
    else
      var n := |rows| - 1;
      if TupleOf(tenant, q.labels, rows[n]) == k.tuple && Numeric(rows[n], k.value) then rows[n][k.value].number
      else LastNumber(q, tenant, rows[..n], k)
  }

  function BadColumns(q: Query, row: Row): set<string> {
    set v | v in q.values && (v !in row || row[v].Null? || row[v].number.None?)
  }

  /** The NULL or unconvertible cells in the value columns of a result. */
  function BadCells(q: Query, rows: seq<Row>): nat {
    if rows == [] then 0
    else BadCells(q, rows[..|rows| - 1]) + |BadColumns(q, rows[|rows| - 1])|
  }

  function Bumped(errors: map<(string, string), nat>, key: (string, string), n: nat): map<(string, string), nat> {
    if n == 0 then errors else errors[key := Count(errors, key) + n]
  }

  /** The tuple was tracked and its signature is gone from the new result. */
  ghost predicate Dropped(prev: Tracking, current: Tracking, tuple: Tuple) {
    exists sig :: sig in prev && sig !in current && prev[sig] == tuple
  }

  // ----- the effect of a list of gauge steps on one series -----

  /** What a step makes of series k of the query. */
  function Touch(query: string, k: Series, step: Step, now: Option<Number>): Option<Number> {
    match step
    case Create(value, tuple) => if k == Series(query, value, tuple) && now.None? then Some(ZERO) else now
    case Set(value, tuple, number) => if k == Series(query, value, tuple) then Some(number) else now
    case Delete(value, tuple) => if k == Series(query, value, tuple) then None else now
    case _ => now
  }

  function Touched(query: string, k: Series, steps: seq<Step>, now: Option<Number>): Option<Number> {
    if steps == [] then now
    else Touch(query, k, steps[|steps| - 1], Touched(query, k, steps[..|steps| - 1], now))
  }

  function Bumps(steps: seq<Step>): nat {
    if steps == [] then 0
    else Bumps(steps[..|steps| - 1]) + if steps[|steps| - 1].BumpError? then 1 else 0
  }

  predicate GaugeStep(step: Step) {
    step.BumpError? || step.Create? || step.Set? || step.Delete?
  }

  ghost predicate GaugeSteps(steps: seq<Step>) {
    forall i :: 0 <= i < |steps| ==> GaugeStep(steps[i])
  }

  lemma {:induction false} TouchedAppend(query: string, k: Series, a: seq<Step>, b: seq<Step>, now: Option<Number>)
    ensures Touched(query, k, a + b, now) == Touched(query, k, b, Touched(query, k, a, now))
  {
    if b == [] {
      assert a + b == a;
    } else {
      var n := |b| - 1;
      assert (a + b)[..|a + b| - 1] == a + b[..n];
      TouchedAppend(query, k, a, b[..n], now);
    }
  }

  lemma {:induction false} BumpsAppend(a: seq<Step>, b: seq<Step>)
    ensures Bumps(a + b) == Bumps(a) + Bumps(b)
  {
    if b == [] {
      assert a + b == a;
    } else {
      assert (a + b)[..|a + b| - 1] == a + b[..|b| - 1];
      BumpsAppend(a, b[..|b| - 1]);
    }
  }

  /** What one step leaves alone. */
  lemma ExecFrame(s: State, tenant: string, query: string, step: Step)
    ensures var after := Exec(s, tenant, query, step);
            && after.panics == s.panics
            && (!step.SetPool? ==> after.pool == s.pool)
            && (!step.BumpError? ==> after.errors == s.errors)
  {
  }

  lemma ExecTouch(s: State, tenant: string, query: string, step: Step, k: Series)
    ensures Get(Exec(s, tenant, query, step).series, k) == Touch(query, k, step, Get(s.series, k))
  {
  }

  lemma {:induction false} ExecTouched(s: State, tenant: string, query: string, steps: seq<Step>, k: Series)
    ensures Get(ExecAll(s, tenant, query, steps).series, k) == Touched(query, k, steps, Get(s.series, k))
  {
    if steps != [] {
      var n := |steps| - 1;
      ExecTouched(s, tenant, query, steps[..n], k);
      ExecTouch(ExecAll(s, tenant, query, steps[..n]), tenant, query, steps[n], k);
    }
  }

  lemma BumpedTwice(errors: map<(string, string), nat>, key: (string, string), m: nat, n: nat)
    ensures Bumped(Bumped(errors, key, m), key, n) == Bumped(errors, key, m + n)
  {
  }

  lemma {:induction false} ExecGaugeSteps(s: State, tenant: string, query: string, steps: seq<Step>)
    requires GaugeSteps(steps)
    ensures var after := ExecAll(s, tenant, query, steps);
            after == s.(series := after.series, errors := Bumped(s.errors, (tenant, query), Bumps(steps)))
  {
    if steps != [] {
      var n := |steps| - 1;
      var before := ExecAll(s, tenant, query, steps[..n]);
      ExecGaugeSteps(s, tenant, query, steps[..n]);
      assert GaugeStep(steps[n]);
      var one := if steps[n].BumpError? then 1 else 0;
      assert Exec(before, tenant, query, steps[n]).errors == Bumped(before.errors, (tenant, query), one);
      BumpedTwice(s.errors, (tenant, query), Bumps(steps[..n]), one);
    }
  }

  // ----- one row -----

  function BadIn(row: Row, order: seq<string>): set<string> {
    set v | v in order && !Numeric(row, v)
  }

  /** The row has a number for the series. */
  predicate Gives(q: Query, tenant: string, row: Row, k: Series) {
    k.query == q.name && k.tuple == TupleOf(tenant, q.labels, row) && Numeric(row, k.value)
  }

  lemma CellTouch(q: Query, tenant: string, row: Row, column: string, k: Series, now: Option<Number>)
    ensures Touched(q.name, k, CellSteps(q, tenant, row, column), now) ==
              if k.value == column && Gives(q, tenant, row, k) then row[column].number else now
  {
    var steps := CellSteps(q, tenant, row, column);
    OneStep(q.name, k, steps[0], now);
    if |steps| == 2 {
      assert steps[..1] == [steps[0]];
    }
  }

  lemma CellBumps(q: Query, tenant: string, row: Row, column: string)
    ensures Bumps(CellSteps(q, tenant, row, column)) == if Numeric(row, column) then 0 else 1
  {
    var steps := CellSteps(q, tenant, row, column);
    if !Numeric(row, column) {
      assert steps == [BumpError] && steps[..0] == [];
    } else {
      NoBumps(steps);
    }
  }

  lemma OneStep(query: string, k: Series, step: Step, now: Option<Number>)
    ensures Touched(query, k, [step], now) == Touch(query, k, step, now)
  {
    assert [step][..0] == [];
  }

  lemma InSnoc(order: seq<string>, v: string)
    requires order != []
    ensures v in order <==> v in order[..|order| - 1] || v == order[|order| - 1]
  {
    assert order == order[..|order| - 1] + [order[|order| - 1]];
  }

  lemma {:induction false} RowTouch(
    q: Query, tenant: string, row: Row, order: seq<string>, k: Series, now: Option<Number>)
    ensures Touched(q.name, k, RowSteps(q, tenant, row, order), now) ==
              if k.value in order && Gives(q, tenant, row, k) then row[k.value].number else now
  {
    if order != [] {
      var n := |order| - 1;
      var before, last := RowSteps(q, tenant, row, order[..n]), CellSteps(q, tenant, row, order[n]);
      var here := Touched(q.name, k, before, now);
      assert Touched(q.name, k, RowSteps(q, tenant, row, order), now) == Touched(q.name, k, last, here) by {
        TouchedAppend(q.name, k, before, last, now);
      }
      RowTouch(q, tenant, row, order[..n], k, now);
      CellTouch(q, tenant, row, order[n], k, here);
      InSnoc(order, k.value);
    }
  }

  lemma BadInGrows(row: Row, order: seq<string>, v: string)
    requires v !in order
    ensures |BadIn(row, order + [v])| == |BadIn(row, order)| + if Numeric(row, v) then 0 else 1
  {
    if !Numeric(row, v) {
      assert BadIn(row, order + [v]) == BadIn(row, order) + {v};
    } else {
      assert BadIn(row, order + [v]) == BadIn(row, order);
    }
  }

  lemma {:induction false} RowBumps(q: Query, tenant: string, row: Row, order: seq<string>)
    requires forall i, j :: 0 <= i < j < |order| ==> order[i] != order[j]
    ensures Bumps(RowSteps(q, tenant, row, order)) == |BadIn(row, order)|
  {
    if order == [] {
      assert BadIn(row, order) == {};
    } else {
      var n := |order| - 1;
      var before, last := RowSteps(q, tenant, row, order[..n]), CellSteps(q, tenant, row, order[n]);
      assert Bumps(RowSteps(q, tenant, row, order)) == Bumps(before) + Bumps(last) by {
        BumpsAppend(before, last);
      }
      RowBumps(q, tenant, row, order[..n]);
      CellBumps(q, tenant, row, order[n]);
      assert |BadIn(row, order)| == |BadIn(row, order[..n])| + Bumps(last) by {
        BadInGrows(row, order[..n], order[n]);
        assert order[..n] + [order[n]] == order;
      }
    }
  }

  // ----- all rows -----

  lemma {:induction false} SetTouch(
    q: Query, tenant: string, rows: seq<Row>, orders: seq<seq<string>>, k: Series, now: Option<Number>)
    requires |orders| == |rows|
    requires forall i :: 0 <= i < |rows| ==> Enumerates(orders[i], ValueSet(q))
    ensures var number := LastNumber(q, tenant, rows, k);
            Touched(q.name, k, SetSteps(q, tenant, rows, orders), now) == if number.Some? then number else now
  {
    if rows != [] {
      var n := |rows| - 1;
      var before := SetSteps(q, tenant, rows[..n], orders[..n]);
      SetTouch(q, tenant, rows[..n], orders[..n], k, now);
      RowTouch(q, tenant, rows[n], orders[n], k, Touched(q.name, k, before, now));
      TouchedAppend(q.name, k, before, RowSteps(q, tenant, rows[n], orders[n]), now);
      assert k.value in orders[n] <==> k.value in q.values;
    }
  }

  lemma {:induction false} RowGaugeSteps(q: Query, tenant: string, row: Row, order: seq<string>)
    ensures GaugeSteps(RowSteps(q, tenant, row, order))
  {
    if order != [] {
      var n := |order| - 1;
      RowGaugeSteps(q, tenant, row, order[..n]);
      var last := CellSteps(q, tenant, row, order[n]);
      assert GaugeSteps(last);
    }
  }

  lemma GaugeStepsAppend(a: seq<Step>, b: seq<Step>)
    requires GaugeSteps(a) && GaugeSteps(b)
    ensures GaugeSteps(a + b)
  {
  }

  lemma {:induction false} SetGaugeSteps(q: Query, tenant: string, rows: seq<Row>, orders: seq<seq<string>>)
    requires |orders| == |rows|
    ensures GaugeSteps(SetSteps(q, tenant, rows, orders))
  {
    if rows != [] {
      var n := |rows| - 1;
      SetGaugeSteps(q, tenant, rows[..n], orders[..n]);
      RowGaugeSteps(q, tenant, rows[n], orders[n]);
      GaugeStepsAppend(SetSteps(q, tenant, rows[..n], orders[..n]), RowSteps(q, tenant, rows[n], orders[n]));
    }
  }

  lemma BadOfRow(q: Query, tenant: string, row: Row, order: seq<string>)
    requires Enumerates(order, ValueSet(q))
    ensures Bumps(RowSteps(q, tenant, row, order)) == |BadColumns(q, row)|
  {
    RowBumps(q, tenant, row, order);
    assert BadIn(row, order) == BadColumns(q, row);
  }

  lemma {:induction false} SetBumps(q: Query, tenant: string, rows: seq<Row>, orders: seq<seq<string>>)
    requires |orders| == |rows|
    requires forall i :: 0 <= i < |rows| ==> Enumerates(orders[i], ValueSet(q))
    ensures var steps := SetSteps(q, tenant, rows, orders);
            Bumps(steps) == BadCells(q, rows) && GaugeSteps(steps)
  {
    SetGaugeSteps(q, tenant, rows, orders);
    if rows != [] {
      var n := |rows| - 1;
      SetBumps(q, tenant, rows[..n], orders[..n]);
      BadOfRow(q, tenant, rows[n], orders[n]);
      BumpsAppend(SetSteps(q, tenant, rows[..n], orders[..n]), RowSteps(q, tenant, rows[n], orders[n]));
    }
  }

  // ----- deletions -----

  lemma {:induction false} DropTouch(query: string, prev: Tracking, current: Tracking, sig: string,
                                     gauges: seq<string>, k: Series, now: Option<Number>)
    ensures Touched(query, k, DropSteps(prev, current, sig, gauges), now) ==
              if k.query == query && k.value in gauges && sig in prev && sig !in current && k.tuple == prev[sig]
              then None else now
  {
    if gauges != [] && sig in prev && sig !in current {
      var n := |gauges| - 1;
      DropTouch(query, prev, current, sig, gauges[..n], k, now);
      assert DropSteps(prev, current, sig, gauges)[..n] == DropSteps(prev, current, sig, gauges[..n]);
      assert gauges == gauges[..n] + [gauges[n]];
    }
  }

  ghost predicate DroppedIn(prev: Tracking, current: Tracking, sigs: seq<string>, tuple: Tuple) {
    exists sig :: sig in sigs && sig in prev && sig !in current && prev[sig] == tuple
  }

  lemma DroppedInLast(prev: Tracking, current: Tracking, sigs: seq<string>, tuple: Tuple)
    requires sigs != []
    ensures var n := |sigs| - 1;
            DroppedIn(prev, current, sigs, tuple) <==>
              || DroppedIn(prev, current, sigs[..n], tuple)
              || (sigs[n] in prev && sigs[n] !in current && prev[sigs[n]] == tuple)
  {
  }

  lemma {:induction false} DeleteTouch(
    query: string, prev: Tracking, current: Tracking,
    sigs: seq<string>, gauges: seq<seq<string>>, registered: set<string>, k: Series, now: Option<Number>)
    requires |gauges| == |sigs|
    requires forall j :: 0 <= j < |gauges| ==> Enumerates(gauges[j], registered)
    ensures Touched(query, k, DeleteSteps(prev, current, sigs, gauges), now) ==
              if k.query == query && k.value in registered && DroppedIn(prev, current, sigs, k.tuple)
              then None else now
  {
    if sigs != [] {
      var n := |sigs| - 1;
      var before := DeleteSteps(prev, current, sigs[..n], gauges[..n]);
      DeleteTouch(query, prev, current, sigs[..n], gauges[..n], registered, k, now);
      DropTouch(query, prev, current, sigs[n], gauges[n], k, Touched(query, k, before, now));
      TouchedAppend(query, k, before, DropSteps(prev, current, sigs[n], gauges[n]), now);
      DroppedInLast(prev, current, sigs, k.tuple);
      assert k.value in gauges[n] <==> k.value in registered;
    }
  }

  lemma {:induction false} DeletesOnly(prev: Tracking, current: Tracking, sigs: seq<string>, gauges: seq<seq<string>>)
    requires |gauges| == |sigs|
    ensures var steps := DeleteSteps(prev, current, sigs, gauges);
            Bumps(steps) == 0 && forall i :: 0 <= i < |steps| ==> steps[i].Delete?
  {
    if sigs != [] {
      var n := |sigs| - 1;
      DeletesOnly(prev, current, sigs[..n], gauges[..n]);
      NoBumps(DeleteSteps(prev, current, sigs, gauges));
    }
  }

  lemma {:induction false} NoBumps(steps: seq<Step>)
    requires forall i :: 0 <= i < |steps| ==> !steps[i].BumpError?
    ensures Bumps(steps) == 0
  {
    if steps != [] {
      NoBumps(steps[..|steps| - 1]);
    }
  }

  // ----- the whole refresh -----

  /** A panic-free apply of an accepted result, field by field. Nothing in it mentions the schedule. */
  ghost predicate Refreshed(cfg: Config, s: State, msg: Message, after: State)
    requires Accepted(cfg, msg)
  {
    var q, t := cfg.spec[msg.query], msg.tenant;
    var prev, current := Previous(s, t, msg.query), NewTuples(q, t, msg.rows);
    && after == s.(series := after.series,
                   lastLabels := s.lastLabels[t := PerTenant(s, t)[msg.query := current]],
                   errors := Bumped(s.errors, (t, msg.query), BadCells(q, msg.rows)))
    && (forall k :: Get(after.series, k) == RefreshedSeries(cfg, s, msg, k))
  }

  ghost function RefreshedSeries(cfg: Config, s: State, msg: Message, k: Series): Option<Number>
    requires Accepted(cfg, msg)
  {
    var q, t := cfg.spec[msg.query], msg.tenant;
    var prev, current := Previous(s, t, msg.query), NewTuples(q, t, msg.rows);
    if k.query == msg.query && k.value in cfg.gauges[msg.query] && Dropped(prev, current, k.tuple) then None
    else if LastNumber(q, t, msg.rows, k).Some? then LastNumber(q, t, msg.rows, k)
    else Get(s.series, k)
  }

  /** The gauge steps of a refresh, between opening the tenant's map and committing the new tuples. */
  ghost function GaugePart(cfg: Config, s: State, e: Event): seq<Step>
    requires e.Apply? && Accepted(cfg, e.msg) && ValidEvent(cfg, s, e)
  {
    var q, t := cfg.spec[e.msg.query], e.msg.tenant;
    SetSteps(q, t, e.msg.rows, e.sched.columns)
    + DeleteSteps(Previous(s, t, e.msg.query), NewTuples(q, t, e.msg.rows), e.sched.tracked, e.sched.gauges)
  }

  lemma PlanAround(cfg: Config, s: State, e: Event)
    requires e.Apply? && Accepted(cfg, e.msg) && ValidEvent(cfg, s, e)
    ensures PlanOf(cfg, s, e) == [OpenTenant] + GaugePart(cfg, s, e)
                                 + [Commit(NewTuples(cfg.spec[e.msg.query], e.msg.tenant, e.msg.rows))]
  {
  }

  lemma RefreshParts(cfg: Config, s: State, e: Event)
    requires e.Apply? && Accepted(cfg, e.msg) && ValidEvent(cfg, s, e) && !Panics(cfg, s, e)
    ensures var t, query := e.msg.tenant, e.msg.query;
            var gauge := ExecAll(Exec(s, t, query, OpenTenant), t, query, GaugePart(cfg, s, e));
            Run1(cfg, s, e) == Exec(gauge, t, query, Commit(NewTuples(cfg.spec[query], t, e.msg.rows)))
  {
    var t, query := e.msg.tenant, e.msg.query;
    var commit := Commit(NewTuples(cfg.spec[query], t, e.msg.rows));
    var steps := [OpenTenant] + GaugePart(cfg, s, e);
    PlanAround(cfg, s, e);
    assert (steps + [commit])[..|steps + [commit]| - 1] == steps;
    ExecAppend(s, t, query, [OpenTenant], GaugePart(cfg, s, e));
    assert [OpenTenant][..0] == [];
  }

  lemma RefreshTouch(cfg: Config, s: State, e: Event, k: Series)
    requires WellFormed(cfg)
    requires e.Apply? && Accepted(cfg, e.msg) && ValidEvent(cfg, s, e)
    ensures Touched(e.msg.query, k, GaugePart(cfg, s, e), Get(s.series, k)) == RefreshedSeries(cfg, s, e.msg, k)
  {
    var msg, sched := e.msg, e.sched;
    var q, t := cfg.spec[msg.query], msg.tenant;
    var prev, current := Previous(s, t, msg.query), NewTuples(q, t, msg.rows);
    var sets, now := SetSteps(q, t, msg.rows, sched.columns), Get(s.series, k);
    SetTouch(q, t, msg.rows, sched.columns, k, now);
    DeleteTouch(q.name, prev, current, sched.tracked, sched.gauges, cfg.gauges[msg.query], k,
                Touched(q.name, k, sets, now));
    TouchedAppend(q.name, k, sets, DeleteSteps(prev, current, sched.tracked, sched.gauges), now);
    assert DroppedIn(prev, current, sched.tracked, k.tuple) <==> Dropped(prev, current, k.tuple);
  }

  lemma GaugePartBumps(cfg: Config, s: State, e: Event)
    requires WellFormed(cfg)
    requires e.Apply? && Accepted(cfg, e.msg) && ValidEvent(cfg, s, e)
    ensures var steps := GaugePart(cfg, s, e);
            && Bumps(steps) == BadCells(cfg.spec[e.msg.query], e.msg.rows)
            && GaugeSteps(steps)
  {
    var msg, sched := e.msg, e.sched;
    var q, t := cfg.spec[msg.query], msg.tenant;
    var prev, current := Previous(s, t, msg.query), NewTuples(q, t, msg.rows);
    SetBumps(q, t, msg.rows, sched.columns);
    DeletesOnly(prev, current, sched.tracked, sched.gauges);
    BumpsAppend(SetSteps(q, t, msg.rows, sched.columns), DeleteSteps(prev, current, sched.tracked, sched.gauges));
  }

  lemma RefreshOutcome(cfg: Config, s: State, e: Event)
    requires WellFormed(cfg) && ValidEvent(cfg, s, e)
    requires e.Apply? && Accepted(cfg, e.msg) && !Panics(cfg, s, e)
    ensures Refreshed(cfg, s, e.msg, Run1(cfg, s, e))
  {
    var t, query, steps := e.msg.tenant, e.msg.query, GaugePart(cfg, s, e);
    var started := Exec(s, t, query, OpenTenant);
    RefreshParts(cfg, s, e);
    GaugePartBumps(cfg, s, e);
    ExecGaugeSteps(started, t, query, steps);
    forall k ensures Get(Run1(cfg, s, e).series, k) == RefreshedSeries(cfg, s, e.msg, k) {
      RefreshTouch(cfg, s, e, k);
      ExecTouched(started, t, query, steps, k);
    }
  }

  /** Two applies of the same message from the same state end in the same state, whatever order each
      of them iterated the value columns, the tracked signatures and the gauges in. */
  lemma OrderIndependence(cfg: Config, s: State, d: Event, e: Event)
    requires WellFormed(cfg) && ValidEvent(cfg, s, d) && ValidEvent(cfg, s, e)
    requires d.Apply? && e.Apply? && d.msg == e.msg
    requires !Panics(cfg, s, d) && !Panics(cfg, s, e)
    ensures Run1(cfg, s, d) == Run1(cfg, s, e)
  {
    if Accepted(cfg, d.msg) {
      RefreshOutcome(cfg, s, d);
      RefreshOutcome(cfg, s, e);
      var a, b := Run1(cfg, s, d), Run1(cfg, s, e);
      forall k: Series ensures Get(a.series, k) == Get(b.series, k) {
        assert Get(a.series, k) == RefreshedSeries(cfg, s, d.msg, k);
        assert Get(b.series, k) == RefreshedSeries(cfg, s, e.msg, k);
      }
      EqualMaps(a.series, b.series);
    }
  }

  /** Only which columns a result has matters to an apply: not their order, and not repetitions. */
  lemma ColumnOrderIrrelevant(cfg: Config, s: State, e: Event, cols: seq<string>)
    requires WellFormed(cfg) && e.Apply? && e.msg.QueryResult? && ValidEvent(cfg, s, e)
    requires forall c :: c in cols <==> c in e.msg.cols
    ensures var f := e.(msg := e.msg.(cols := cols));
            ValidEvent(cfg, s, f) && Run1(cfg, s, f) == Run1(cfg, s, e)
  {
  }
}
