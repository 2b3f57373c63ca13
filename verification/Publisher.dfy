/** The publisher actor itself: shared state updated in place, loop by loop.

    A method takes the iteration orders the runtime happens to choose (a Schedule) and a budget: the
    number of metric operations left before one of them panics, if one does. Its contract ties the
    new state to the old one through the plan of Steps, cut where the panic falls. */
module Publishing {
  import opened Values
  import opened Tuples
  import opened Steps
  import Isolation
  import EmptyAcquires

  type Budget = Option<nat>

  /** What is left of a budget after n operations that did not exhaust it. */
  function Left(budget: Budget, n: nat): Budget {
    match budget
    case None => None
    case Some(b) => Some(if b < n then 0 else b - n)
  }

  predicate Exhausts(budget: Budget, n: nat) {
    budget.Some? && budget.value < n
  }

  /** The steps a budget lets happen. */
  function Afforded(budget: Budget, steps: seq<Step>): seq<Step> {
    if Exhausts(budget, |steps|) then steps[..budget.value] else steps
  }

  /** The steps took the publisher from one state to the next, as far as the budget went. */
  ghost predicate Ran(before: State, after: State, tenant: string, query: string, steps: seq<Step>,
                      budget: Budget, panicked: bool, left: Budget) {
    && panicked == Exhausts(budget, |steps|)
    && after == ExecAll(before, tenant, query, Afforded(budget, steps))
    && (!panicked ==> left == Left(budget, |steps|))
  }

  lemma RanNothing(before: State, tenant: string, query: string, budget: Budget)
    ensures Ran(before, before, tenant, query, [], budget, false, budget)
  {
  }

  lemma RanThen(before: State, mid: State, after: State, tenant: string, query: string, a: seq<Step>, b: seq<Step>,
                budget: Budget, between: Budget, panicked: bool, left: Budget)
    requires Ran(before, mid, tenant, query, a, budget, false, between)
    requires Ran(mid, after, tenant, query, b, between, panicked, left)
    ensures Ran(before, after, tenant, query, a + b, budget, panicked, left)
  {
    ExecAppend(before, tenant, query, a, Afforded(between, b));
    assert Afforded(budget, a + b) == a + Afforded(between, b);
  }

  /** A panic within a prefix of the plan cuts the plan at the same point. */
  lemma RanPrefix(before: State, after: State, tenant: string, query: string, a: seq<Step>, plan: seq<Step>,
                  budget: Budget, left: Budget)
    requires a <= plan && Ran(before, after, tenant, query, a, budget, true, left)
    ensures Ran(before, after, tenant, query, plan, budget, true, left)
  {
    assert a[..budget.value] == plan[..budget.value];
  }

  /** One operation, on a budget that may be used up already. */
  lemma RanOne(before: State, tenant: string, query: string, step: Step, budget: Budget)
    ensures budget == Some(0) ==> Ran(before, before, tenant, query, [step], budget, true, budget)
    ensures budget != Some(0) ==>
              Ran(before, Exec(before, tenant, query, step), tenant, query, [step], budget, false, Left(budget, 1))
  {
  }

  lemma SetStepsNext(q: Query, t: string, rows: seq<Row>, orders: seq<seq<string>>, i: nat)
    requires |orders| == |rows| && i < |rows|
    ensures SetSteps(q, t, rows[..i + 1], orders[..i + 1])
         == SetSteps(q, t, rows[..i], orders[..i]) + RowSteps(q, t, rows[i], orders[i])
  {
    assert rows[..i + 1][..i] == rows[..i] && orders[..i + 1][..i] == orders[..i];
  }

  lemma {:induction false} SetStepsPrefix(q: Query, t: string, rows: seq<Row>, orders: seq<seq<string>>, i: nat)
    requires |orders| == |rows| && i <= |rows|
    ensures SetSteps(q, t, rows[..i], orders[..i]) <= SetSteps(q, t, rows, orders)
  {
    var n := |rows| - 1;
    if i <= n {
      SetStepsPrefix(q, t, rows[..n], orders[..n], i);
      assert rows[..n][..i] == rows[..i] && orders[..n][..i] == orders[..i];
    } else {
      assert rows[..i] == rows && orders[..i] == orders;
    }
  }

  lemma {:induction false} RowStepsPrefix(q: Query, t: string, row: Row, order: seq<string>, j: nat)
    requires j <= |order|
    ensures RowSteps(q, t, row, order[..j]) <= RowSteps(q, t, row, order)
  {
    var n := |order| - 1;
    if j <= n {
      RowStepsPrefix(q, t, row, order[..n], j);
      assert order[..n][..j] == order[..j];
    } else {
      assert order[..j] == order;
    }
  }

  lemma DeleteStepsNext(prev: Tracking, current: Tracking, sigs: seq<string>, gauges: seq<seq<string>>, i: nat)
    requires |gauges| == |sigs| && i < |sigs|
    ensures DeleteSteps(prev, current, sigs[..i + 1], gauges[..i + 1])
         == DeleteSteps(prev, current, sigs[..i], gauges[..i]) + DropSteps(prev, current, sigs[i], gauges[i])
  {
    assert sigs[..i + 1][..i] == sigs[..i] && gauges[..i + 1][..i] == gauges[..i];
  }

  lemma {:induction false} DeleteStepsPrefix(
    prev: Tracking, current: Tracking, sigs: seq<string>, gauges: seq<seq<string>>, i: nat)
    requires |gauges| == |sigs| && i <= |sigs|
    ensures DeleteSteps(prev, current, sigs[..i], gauges[..i]) <= DeleteSteps(prev, current, sigs, gauges)
  {
    var n := |sigs| - 1;
    if i <= n {
      DeleteStepsPrefix(prev, current, sigs[..n], gauges[..n], i);
      assert sigs[..n][..i] == sigs[..i] && gauges[..n][..i] == gauges[..i];
    } else {
      assert sigs[..i] == sigs && gauges[..i] == gauges;
    }
  }

  // ----- construction -----

  function SpecOf(qs: seq<Query>): map<string, Query> {
    if qs == [] then map[] else SpecOf(qs[..|qs| - 1])[qs[|qs| - 1].name := qs[|qs| - 1]]
  }

  /** The gauges Register makes: one per distinct value column of each query. */
  function Registered(qs: seq<Query>): map<string, set<string>> {
    if qs == [] then map[] else Registered(qs[..|qs| - 1])[qs[|qs| - 1].name := ValueSet(qs[|qs| - 1])]
  }

  lemma {:induction false} RegisteredMatchesSpec(qs: seq<Query>)
    ensures WellFormed(Config(SpecOf(qs), Registered(qs)))
    ensures SpecOf(qs).Keys == Registered(qs).Keys
  {
    if qs != [] {
      RegisteredMatchesSpec(qs[..|qs| - 1]);
    }
  }

  /** With distinct names, looking a query up by its name finds that very query. */
  lemma {:induction false} SpecFindsEachQuery(qs: seq<Query>, i: nat)
    requires forall j, k :: 0 <= j < k < |qs| ==> qs[j].name != qs[k].name
    requires i < |qs|
    ensures Get(SpecOf(qs), qs[i].name) == Some(qs[i])
  {
    var n := |qs| - 1;
    if i < n {
      SpecFindsEachQuery(qs[..n], i);
    }
  }

  // ----- column lookup -----

  /** The last position of the name among the columns. */
  ghost predicate LastAt(cols: seq<string>, i: nat, name: string) {
    && i < |cols|
    && cols[i] == name
    && forall j :: i < j < |cols| ==> cols[j] != name
  }

  method ColumnPositions(cols: seq<string>) returns (byName: map<string, nat>)
    ensures forall c :: c in byName <==> c in cols
    ensures forall c :: c in byName ==> LastAt(cols, byName[c], c)
  {
    byName := map[];
    for i := 0 to |cols|
      invariant forall c :: c in byName <==> c in cols[..i]
      invariant forall c :: c in byName ==> LastAt(cols[..i], byName[c], c)
    {
      byName := byName[cols[i] := i];
      assert cols[..i + 1] == cols[..i] + [cols[i]];
    }
    assert cols[..|cols|] == cols;
  }

  /** Positions of the wanted columns in declared order, or None if one is missing. */
  method IndexLabelColumns(cols: seq<string>, want: seq<string>) returns (r: Option<seq<nat>>)
    ensures r.Some? <==> forall w :: w in want ==> w in cols
    ensures r.Some? ==> |r.value| == |want| && forall k :: 0 <= k < |want| ==> LastAt(cols, r.value[k], want[k])
  {
    var byName := ColumnPositions(cols);
    var found: seq<nat> := [];
    for k := 0 to |want|
      invariant |found| == k
      invariant forall j :: 0 <= j < k ==> want[j] in cols && LastAt(cols, found[j], want[j])
    {
      if want[k] !in byName {
        return None;
      }
      found := found + [byName[want[k]]];
    }
    return Some(found);
  }

  /** The same for value columns, keyed by name. */
  method IndexValueColumns(cols: seq<string>, want: seq<string>) returns (r: Option<map<string, nat>>)
    ensures r.Some? <==> forall w :: w in want ==> w in cols
    ensures r.Some? ==> r.value.Keys == set w | w in want
    ensures r.Some? ==> forall w :: w in want ==> LastAt(cols, r.value[w], w)
  {
    var byName := ColumnPositions(cols);
    var found: map<string, nat> := map[];
    for k := 0 to |want|
      invariant forall w :: w in found <==> w in want[..k]
      invariant forall w :: w in found ==> w in cols && LastAt(cols, found[w], w)
    {
      if want[k] !in byName {
        return None;
      }
      found := found[want[k] := byName[want[k]]];
      assert want[..k + 1] == want[..k] + [want[k]];
    }
    assert want[..|want|] == want;
    return Some(found);
  }

  ghost predicate Reads(labelIdx: seq<nat>, cols: seq<string>, labels: seq<string>) {
    && |labelIdx| == |labels|
    && forall k :: 0 <= k < |labels| ==> labelIdx[k] < |cols| && cols[labelIdx[k]] == labels[k]
  }

  ghost predicate Locates(valueIdx: map<string, nat>, cols: seq<string>, columns: seq<string>) {
    forall j :: 0 <= j < |columns| ==>
      columns[j] in valueIdx && valueIdx[columns[j]] < |cols| && cols[valueIdx[columns[j]]] == columns[j]
  }

  /** The label tuple of a row, read through the label column positions. */
  method RowTuple(tenant: string, row: Row, cols: seq<string>, labels: seq<string>, labelIdx: seq<nat>)
    returns (vals: Tuple)
    requires Reads(labelIdx, cols, labels)
    ensures vals == TupleOf(tenant, labels, row)
  {
    vals := [tenant];
    for k := 0 to |labelIdx|
      invariant |vals| == 1 + k && vals[0] == tenant
      invariant forall j :: 0 <= j < k ==> vals[1 + j] == LabelOf(CellAt(row, labels[j]))
    {
      vals := vals + [LabelOf(CellAt(row, cols[labelIdx[k]]))];
    }
    forall i | 0 <= i < |vals| ensures vals[i] == TupleOf(tenant, labels, row)[i] {
      if i > 0 {
        assert vals[1 + (i - 1)] == LabelOf(CellAt(row, labels[i - 1]));
        assert TupleOf(tenant, labels, row)[1 + (i - 1)] == LabelOf(CellAt(row, labels[i - 1]));
      }
    }
  }

  lemma {:induction false} RunPrefixValid(cfg: Config, s: State, es: seq<Event>, n: nat)
    requires n <= |es| && ValidRun(cfg, s, es)
    ensures ValidRun(cfg, s, es[..n])
  {
    if n < |es| {
      RunPrefixValid(cfg, s, es[..|es| - 1], n);
      assert es[..|es| - 1][..n] == es[..n];
    } else {
      assert es[..n] == es;
    }
  }

  /** A baseline that was never stored reads 0. */
  function BaselineIn(b: Acquires, tenant: string): int {
    if tenant in b.baselines then b.baselines[tenant] else 0
  }

  ghost predicate OthersKept(before: State, after: State, tenant: string) {
    forall u :: u != tenant ==> Isolation.SameFor(u, before, after)
  }

  /** The tenant has been seen and the sample is its baseline; the counter has grown by what the sample
      rose over the last one, and not at all at the first; no other tenant is affected. */
  ghost predicate Sampled(before: State, after: State, tenant: string, current: int) {
    && tenant in after.acquires.seen && BaselineIn(after.acquires, tenant) == current
    && (var grown := Count(after.acquires.total, tenant) - Count(before.acquires.total, tenant);
        if tenant in before.acquires.seen then grown == EmptyAcquires.Rise(BaselineIn(before.acquires, tenant), current)
        else grown == 0)
    && OthersKept(before, after, tenant)
  }

  lemma ObserveOutcome(s: State, tenant: string, current: int)
    ensures Sampled(s, Exec(s, tenant, "", ObserveEmptyAcquires(current)), tenant, current)
  {
    forall u | u != tenant ensures Isolation.SameFor(u, s, Exec(s, tenant, "", ObserveEmptyAcquires(current))) {
      Isolation.ExecConfined(s, tenant, "", ObserveEmptyAcquires(current), u);
    }
  }

  /** The tenant has no series left, nothing is tracked for it, and its next pool sample seeds again
      instead of emitting; all counters and every other tenant stay as they were. */
  ghost predicate Cleared(before: State, after: State, tenant: string) {
    && (forall k: Series :: Get(after.series, k) == if OwnedBy(k.tuple, tenant) then None else Get(before.series, k))
    && (forall g :: (g, tenant) !in after.pool)
    && (forall query :: Previous(after, tenant, query) == map[])
    && (forall current :: Observe(after.acquires, tenant, current).total == before.acquires.total)
    && after.errors == before.errors && after.panics == before.panics
    && OthersKept(before, after, tenant)
  }

  lemma ResetOutcome(s: State, tenant: string)
    ensures Cleared(s, ResetTenant(s, tenant), tenant)
  {
  }

  lemma RunNext(cfg: Config, s: State, es: seq<Event>, n: nat)
    requires n < |es| && ValidRun(cfg, s, es)
    ensures ValidRun(cfg, s, es[..n]) && ValidRun(cfg, s, es[..n + 1])
    ensures ValidEvent(cfg, Steps.Run(cfg, s, es[..n]), es[n])
    ensures Steps.Run(cfg, s, es[..n + 1]) == Run1(cfg, Steps.Run(cfg, s, es[..n]), es[n])
  {
    RunPrefixValid(cfg, s, es, n + 1);
    assert es[..n + 1][..n] == es[..n];
  }

  class Publisher {
    const querySpec: map<string, Query>
    const gauges: map<string, set<string>>
    var series: map<Series, Number>
    var lastLabels: map<string, map<string, Tracking>>
    var emptyAcquireBaselines: map<string, int>
    var emptyAcquireSeen: set<string>
    var emptyAcquireTotal: map<string, nat>
    var queryErrors: map<(string, string), nat>
    var queryPanics: map<string, nat>
    var pool: map<(PoolGauge, string), int>

    ghost function Cfg(): Config {
      Config(querySpec, gauges)
    }

    ghost function Abs(): State
      reads this
    {
      State(series, lastLabels, queryErrors, queryPanics,
            Acquires(emptyAcquireBaselines, emptyAcquireSeen, emptyAcquireTotal), pool)
    }

    /** The gauges must be those Register made for the same queries. */
    constructor (qs: seq<Query>, registered: map<string, set<string>>)
      requires registered == Registered(qs)
      ensures Cfg() == Config(SpecOf(qs), Registered(qs)) && WellFormed(Cfg())
      ensures Abs() == INITIAL
    {
      var spec: map<string, Query> := map[];
      for i := 0 to |qs|
        invariant spec == SpecOf(qs[..i])
      {
        spec := spec[qs[i].name := qs[i]];
        assert qs[..i + 1][..i] == qs[..i];
      }
      assert qs[..|qs|] == qs;
      RegisteredMatchesSpec(qs);
      querySpec := spec;
      gauges := registered;
      series := map[];
      lastLabels := map[];
      emptyAcquireBaselines := map[];
      emptyAcquireSeen := {};
      emptyAcquireTotal := map[];
      queryErrors := map[];
      queryPanics := map[];
      pool := map[];
    }

    method BumpError(tenant: string, query: string, budget: Budget) returns (panicked: bool)
      modifies this`queryErrors
      ensures Ran(old(Abs()), Abs(), tenant, query, [Step.BumpError], budget, panicked, Left(budget, 1))
    {
      RanOne(Abs(), tenant, query, Step.BumpError, budget);
      if budget == Some(0) {
        return true;
      }
      queryErrors := queryErrors[(tenant, query) := Count(queryErrors, (tenant, query)) + 1];
      return false;
    }

    /** One value column of a row: looking its series up creates it, and then its number is set. */
    method WriteCell(q: Query, tenant: string, row: Row, cols: seq<string>, vals: Tuple,
                     column: string, idx: nat, budget: Budget)
      returns (panicked: bool, left: Budget)
      requires vals == TupleOf(tenant, q.labels, row)
      requires idx < |cols| && cols[idx] == column
      modifies this`series, this`queryErrors
      ensures Ran(old(Abs()), Abs(), tenant, q.name, CellSteps(q, tenant, row, column), budget, panicked, left)
    {
      ghost var before, steps := Abs(), CellSteps(q, tenant, row, column);
      var number := NumberOf(CellAt(row, cols[idx]));
      if number.None? {
        panicked := BumpError(tenant, q.name, budget);
        return panicked, Left(budget, 1);
      }
      RanOne(before, tenant, q.name, steps[0], budget);
      if budget == Some(0) {
        RanPrefix(before, before, tenant, q.name, [steps[0]], steps, budget, budget);
        return true, budget;
      }
      var k := Series(q.name, column, vals);
      series := Created(series, k);
      left := Left(budget, 1);
      ghost var here, between := Abs(), left;
      RanOne(here, tenant, q.name, steps[1], left);
      panicked := left == Some(0);
      if !panicked {
        series := series[k := number.value];
        left := Left(left, 1);
      }
      assert steps == [steps[0]] + [steps[1]];
      RanThen(before, here, Abs(), tenant, q.name, [steps[0]], [steps[1]], budget, between, panicked, left);
    }

    /** The value columns of one row, in the order the runtime iterates them. */
    method WriteRow(q: Query, tenant: string, row: Row, cols: seq<string>, vals: Tuple,
                    valueIdx: map<string, nat>, order: seq<string>, budget: Budget)
      returns (panicked: bool, left: Budget)
      requires vals == TupleOf(tenant, q.labels, row)
      requires Locates(valueIdx, cols, order)
      modifies this`series, this`queryErrors
      ensures Ran(old(Abs()), Abs(), tenant, q.name, RowSteps(q, tenant, row, order), budget, panicked, left)
    {
      ghost var before, steps := Abs(), RowSteps(q, tenant, row, order);
      left := budget;
      RanNothing(before, tenant, q.name, budget);
      for j := 0 to |order|
        invariant Ran(before, Abs(), tenant, q.name, RowSteps(q, tenant, row, order[..j]), budget, false, left)
      {
        ghost var here, between := Abs(), left;
        ghost var done, next := RowSteps(q, tenant, row, order[..j]), CellSteps(q, tenant, row, order[j]);
        panicked, left := WriteCell(q, tenant, row, cols, vals, order[j], valueIdx[order[j]], left);
        RanThen(before, here, Abs(), tenant, q.name, done, next, budget, between, panicked, left);
        assert order[..j + 1][..j] == order[..j];
        if panicked {
          RowStepsPrefix(q, tenant, row, order, j + 1);
          RanPrefix(before, Abs(), tenant, q.name, done + next, steps, budget, left);
          return;
        }
      }
      assert order[..|order|] == order;
      return false, left;
    }

    /** Set current values first. */
    method WriteRows(q: Query, tenant: string, rows: seq<Row>, cols: seq<string>, labelIdx: seq<nat>,
                     valueIdx: map<string, nat>, orders: seq<seq<string>>, budget: Budget)
      returns (panicked: bool, left: Budget)
      requires |orders| == |rows|
      requires Reads(labelIdx, cols, q.labels)
      requires forall i :: 0 <= i < |orders| ==> Locates(valueIdx, cols, orders[i])
      modifies this`series, this`queryErrors
      ensures Ran(old(Abs()), Abs(), tenant, q.name, SetSteps(q, tenant, rows, orders), budget, panicked, left)
    {
      ghost var before, steps := Abs(), SetSteps(q, tenant, rows, orders);
      left := budget;
      RanNothing(before, tenant, q.name, budget);
      for i := 0 to |rows|
        invariant Ran(before, Abs(), tenant, q.name, SetSteps(q, tenant, rows[..i], orders[..i]), budget, false, left)
      {
        ghost var here, between := Abs(), left;
        ghost var done, next := SetSteps(q, tenant, rows[..i], orders[..i]), RowSteps(q, tenant, rows[i], orders[i]);
        var vals := RowTuple(tenant, rows[i], cols, q.labels, labelIdx);
        panicked, left := WriteRow(q, tenant, rows[i], cols, vals, valueIdx, orders[i], left);
        RanThen(before, here, Abs(), tenant, q.name, done, next, budget, between, panicked, left);
        SetStepsNext(q, tenant, rows, orders, i);
        SetStepsPrefix(q, tenant, rows, orders, i + 1);
        if panicked {
          RanPrefix(before, Abs(), tenant, q.name, done + next, steps, budget, left);
          return;
        }
      }
      assert rows[..|rows|] == rows && orders[..|orders|] == orders;
      return false, left;
    }

    /** The new tuple set, keyed by signature. */
    method BuildTuples(q: Query, tenant: string, rows: seq<Row>, cols: seq<string>, labelIdx: seq<nat>)
      returns (tuples: Tracking)
      requires Reads(labelIdx, cols, q.labels)
      ensures tuples == NewTuples(q, tenant, rows)
    {
      tuples := map[];
      for i := 0 to |rows|
        invariant tuples == NewTuples(q, tenant, rows[..i])
      {
        var vals := RowTuple(tenant, rows[i], cols, q.labels, labelIdx);
        tuples := tuples[Signature(vals) := vals];
        assert rows[..i + 1][..i] == rows[..i];
      }
      assert rows[..|rows|] == rows;
    }

    /** Delete one dropped tuple from every gauge of the query. */
    method DropTuple(tenant: string, query: string, prev: Tracking, current: Tracking, sig: string,
                     order: seq<string>, budget: Budget)
      returns (panicked: bool, left: Budget)
      requires sig in prev
      modifies this`series
      ensures Ran(old(Abs()), Abs(), tenant, query, DropSteps(prev, current, sig, order), budget, panicked, left)
    {
      ghost var before, steps := Abs(), DropSteps(prev, current, sig, order);
      left := budget;
      RanNothing(before, tenant, query, budget);
      if sig in current {
        return false, left;
      }
      for j := 0 to |order|
        invariant Ran(before, Abs(), tenant, query, steps[..j], budget, false, left)
      {
        ghost var here, between := Abs(), left;
        RanOne(here, tenant, query, steps[j], left);
        assert steps[..j + 1] == steps[..j] + [steps[j]];
        if left == Some(0) {
          RanThen(before, here, here, tenant, query, steps[..j], [steps[j]], budget, between, true, left);
          RanPrefix(before, here, tenant, query, steps[..j + 1], steps, budget, left);
          return true, left;
        }
        series := series - {Series(query, order[j], prev[sig])};
        left := Left(left, 1);
        assert Abs() == Exec(here, tenant, query, steps[j]);
        RanThen(before, here, Abs(), tenant, query, steps[..j], [steps[j]], budget, between, false, left);
      }
      assert steps[..|order|] == steps;
      return false, left;
    }

    /** Delete the tuples that were present last time but not this time. */
    method DropStale(tenant: string, query: string, prev: Tracking, current: Tracking,
                     sigs: seq<string>, orders: seq<seq<string>>, budget: Budget)
      returns (panicked: bool, left: Budget)
      requires |orders| == |sigs|
      requires forall i :: 0 <= i < |sigs| ==> sigs[i] in prev
      modifies this`series
      ensures Ran(old(Abs()), Abs(), tenant, query, DeleteSteps(prev, current, sigs, orders), budget, panicked, left)
    {
      ghost var before, steps := Abs(), DeleteSteps(prev, current, sigs, orders);
      left := budget;
      RanNothing(before, tenant, query, budget);
      for i := 0 to |sigs|
        invariant Ran(before, Abs(), tenant, query, DeleteSteps(prev, current, sigs[..i], orders[..i]),
                      budget, false, left)
      {
        ghost var here, between := Abs(), left;
        ghost var done := DeleteSteps(prev, current, sigs[..i], orders[..i]);
        ghost var next := DropSteps(prev, current, sigs[i], orders[i]);
        panicked, left := DropTuple(tenant, query, prev, current, sigs[i], orders[i], left);
        RanThen(before, here, Abs(), tenant, query, done, next, budget, between, panicked, left);
        DeleteStepsNext(prev, current, sigs, orders, i);
        DeleteStepsPrefix(prev, current, sigs, orders, i + 1);
        if panicked {
          RanPrefix(before, Abs(), tenant, query, done + next, steps, budget, left);
          return;
        }
      }
      assert sigs[..|sigs|] == sigs && orders[..|orders|] == orders;
      return false, left;
    }

    /** The tenant's tracking map, created if missing. */
    method OpenTenant(tenant: string, query: string, budget: Budget) returns (panicked: bool, left: Budget)
      modifies this`lastLabels
      ensures Ran(old(Abs()), Abs(), tenant, query, [Step.OpenTenant], budget, panicked, left)
      ensures Previous(Abs(), tenant, query) == old(Previous(Abs(), tenant, query))
      ensures !panicked ==> tenant in lastLabels
    {
      RanOne(Abs(), tenant, query, Step.OpenTenant, budget);
      if budget == Some(0) {
        return true, budget;
      }
      var last := if tenant in lastLabels then lastLabels[tenant] else map[];
      lastLabels := lastLabels[tenant := last];
      return false, Left(budget, 1);
    }

    method Commit(tenant: string, query: string, current: Tracking, budget: Budget)
      returns (panicked: bool, left: Budget)
      requires tenant in lastLabels
      modifies this`lastLabels
      ensures Ran(old(Abs()), Abs(), tenant, query, [Step.Commit(current)], budget, panicked, left)
    {
      RanOne(Abs(), tenant, query, Step.Commit(current), budget);
      if budget == Some(0) {
        return true, budget;
      }
      lastLabels := lastLabels[tenant := lastLabels[tenant][query := current]];
      return false, Left(budget, 1);
    }

    /** Diff a well-columned result against what was last emitted. */
    method Refresh(q: Query, tenant: string, rows: seq<Row>, cols: seq<string>, labelIdx: seq<nat>,
                   valueIdx: map<string, nat>, sched: Schedule, budget: Budget)
      returns (panicked: bool, left: Budget)
      requires |sched.columns| == |rows| && |sched.gauges| == |sched.tracked|
      requires forall i :: 0 <= i < |sched.tracked| ==> sched.tracked[i] in Previous(Abs(), tenant, q.name)
      requires Reads(labelIdx, cols, q.labels)
      requires forall i :: 0 <= i < |rows| ==> Locates(valueIdx, cols, sched.columns[i])
      modifies this`series, this`queryErrors, this`lastLabels
      ensures Ran(old(Abs()), Abs(), tenant, q.name,
                  RefreshPlan(q, tenant, rows, old(Previous(Abs(), tenant, q.name)), sched), budget, panicked, left)
    {
      ghost var before := Abs();
      ghost var plan := RefreshPlan(q, tenant, rows, Previous(before, tenant, q.name), sched);
      var current := BuildTuples(q, tenant, rows, cols, labelIdx);
      panicked, left := OpenTenant(tenant, q.name, budget);
      ghost var done := [Step.OpenTenant];
      if panicked {
        RanPrefix(before, Abs(), tenant, q.name, done, plan, budget, left);
        return;
      }
      var prev := if q.name in lastLabels[tenant] then lastLabels[tenant][q.name] else map[];
      ghost var here, between := Abs(), left;
      ghost var sets := SetSteps(q, tenant, rows, sched.columns);
      panicked, left := WriteRows(q, tenant, rows, cols, labelIdx, valueIdx, sched.columns, left);
      RanThen(before, here, Abs(), tenant, q.name, done, sets, budget, between, panicked, left);
      done := done + sets;
      if panicked {
        RanPrefix(before, Abs(), tenant, q.name, done, plan, budget, left);
        return;
      }
      here, between := Abs(), left;
      ghost var deletes := DeleteSteps(prev, current, sched.tracked, sched.gauges);
      panicked, left := DropStale(tenant, q.name, prev, current, sched.tracked, sched.gauges, left);
      RanThen(before, here, Abs(), tenant, q.name, done, deletes, budget, between, panicked, left);
      done := done + deletes;
      if panicked {
        RanPrefix(before, Abs(), tenant, q.name, done, plan, budget, left);
        return;
      }
      here, between := Abs(), left;
      panicked, left := Commit(tenant, q.name, current, left);
      RanThen(before, here, Abs(), tenant, q.name, done, [Step.Commit(current)], budget, between, panicked, left);
    }

    method ApplyQuery(msg: Message, sched: Schedule, budget: Budget) returns (panicked: bool)
      requires WellFormed(Cfg()) && msg.QueryResult?
      requires ValidSchedule(Cfg(), Previous(Abs(), msg.tenant, msg.query), msg, sched)
      modifies this`series, this`queryErrors, this`lastLabels
      ensures var plan := old(Plan(Cfg(), Previous(Abs(), msg.tenant, msg.query), msg, sched));
              Ran(old(Abs()), Abs(), msg.tenant, msg.query, plan, budget, panicked, Left(budget, |plan|))
    {
      RanNothing(Abs(), msg.tenant, msg.query, budget);
      if msg.failed {
        panicked := BumpError(msg.tenant, msg.query, budget);
        return;
      }
      if msg.query !in querySpec {
        return false;
      }
      var q := querySpec[msg.query];
      if msg.query !in gauges {
        return false;
      }
      var labelIdx := IndexLabelColumns(msg.cols, q.labels);
      if labelIdx.None? {
        panicked := BumpError(msg.tenant, msg.query, budget);
        return;
      }
      var valueIdx := IndexValueColumns(msg.cols, q.values);
      if valueIdx.None? {
        panicked := BumpError(msg.tenant, msg.query, budget);
        return;
      }
      assert Accepted(Cfg(), msg);
      forall i | 0 <= i < |msg.rows| ensures Locates(valueIdx.value, msg.cols, sched.columns[i]) {
        assert forall j :: 0 <= j < |sched.columns[i]| ==> sched.columns[i][j] in ValueSet(q);
      }
      var left;
      panicked, left := Refresh(q, msg.tenant, msg.rows, msg.cols, labelIdx.value, valueIdx.value, sched, budget);
    }

    method BumpEmptyAcquireCounter(tenant: string, current: int)
      modifies this`emptyAcquireBaselines, this`emptyAcquireSeen, this`emptyAcquireTotal
      ensures Abs() == Exec(old(Abs()), tenant, "", ObserveEmptyAcquires(current))
      ensures Sampled(old(Abs()), Abs(), tenant, current)
    {
      ObserveOutcome(Abs(), tenant, current);
      if tenant !in emptyAcquireSeen {
        emptyAcquireSeen := emptyAcquireSeen + {tenant};
        emptyAcquireBaselines := emptyAcquireBaselines[tenant := current];
        return;
      }
      var last := if tenant in emptyAcquireBaselines then emptyAcquireBaselines[tenant] else 0;
      var delta := current - last;
      if delta > 0 {
        emptyAcquireTotal := emptyAcquireTotal[tenant := Count(emptyAcquireTotal, tenant) + delta];
        emptyAcquireBaselines := emptyAcquireBaselines[tenant := current];
      } else if current < last {
        emptyAcquireBaselines := emptyAcquireBaselines[tenant := current];
      }
    }

    method WritePool(tenant: string, gauge: PoolGauge, level: int, budget: Budget)
      returns (panicked: bool, left: Budget)
      modifies this`pool
      ensures Ran(old(Abs()), Abs(), tenant, "", [SetPool(gauge, level)], budget, panicked, left)
    {
      RanOne(Abs(), tenant, "", SetPool(gauge, level), budget);
      if budget == Some(0) {
        return true, budget;
      }
      pool := pool[(gauge, tenant) := level];
      return false, Left(budget, 1);
    }

    method ApplyPoolStat(tenant: string, stats: Stats, budget: Budget) returns (panicked: bool)
      modifies this
      ensures Ran(old(Abs()), Abs(), tenant, "", PoolPlan(stats), budget, panicked, Left(budget, 4))
    {
      ghost var before, plan := Abs(), PoolPlan(stats);
      var left;
      panicked, left := WritePool(tenant, Acquired, stats.acquired, budget);
      if panicked {
        RanPrefix(before, Abs(), tenant, "", [plan[0]], plan, budget, left);
        return;
      }
      ghost var here, between := Abs(), left;
      panicked, left := WritePool(tenant, Idle, stats.idle, left);
      RanThen(before, here, Abs(), tenant, "", [plan[0]], [plan[1]], budget, between, panicked, left);
      if panicked {
        RanPrefix(before, Abs(), tenant, "", [plan[0]] + [plan[1]], plan, budget, left);
        return;
      }
      here, between := Abs(), left;
      panicked, left := WritePool(tenant, Total, stats.total, left);
      RanThen(before, here, Abs(), tenant, "", [plan[0]] + [plan[1]], [plan[2]], budget, between, panicked, left);
      if panicked {
        RanPrefix(before, Abs(), tenant, "", [plan[0]] + [plan[1]] + [plan[2]], plan, budget, left);
        return;
      }
      here, between := Abs(), left;
      RanOne(here, tenant, "", plan[3], left);
      if left == Some(0) {
        panicked := true;
      } else {
        BumpEmptyAcquireCounter(tenant, stats.emptyAcquires);
        left := Left(left, 1);
      }
      RanThen(before, here, Abs(), tenant, "", [plan[0]] + [plan[1]] + [plan[2]], [plan[3]],
              budget, between, panicked, left);
      assert plan == [plan[0]] + [plan[1]] + [plan[2]] + [plan[3]];
    }

    /** Apply one message; a panic on the way is recovered and counted, and the publisher lives on. */
    method SafeApply(msg: Message, sched: Schedule, budget: Budget)
      requires WellFormed(Cfg()) && ValidEvent(Cfg(), Abs(), Apply(msg, sched, budget))
      modifies this
      ensures Abs() == old(Run1(Cfg(), Abs(), Apply(msg, sched, budget)))
    {
      var panicked := false;
      match msg {
        case QueryResult(_, _, _, _, _) => panicked := ApplyQuery(msg, sched, budget);
        case PoolStat(tenant, stats) => panicked := ApplyPoolStat(tenant, stats, budget);
        case Unrecognized(_) =>
      }
      if panicked {
        queryPanics := queryPanics[msg.tenant := Count(queryPanics, msg.tenant) + 1];
      }
    }

    /** Consume the inbox until it is closed and empty, or until the context is done, which the
        select may notice before any receive, with messages still waiting. */
    method Run(inbox: seq<Event>, noticeDoneAt: nat) returns (consumed: nat)
      requires forall i :: 0 <= i < |inbox| ==> inbox[i].Apply?
      requires WellFormed(Cfg()) && ValidRun(Cfg(), Abs(), inbox)
      modifies this
      ensures consumed == if noticeDoneAt < |inbox| then noticeDoneAt else |inbox|
      ensures ValidRun(Cfg(), old(Abs()), inbox[..consumed])
      ensures Abs() == Steps.Run(Cfg(), old(Abs()), inbox[..consumed])
    {
      ghost var before := Abs();
      consumed := 0;
      assert inbox[..0] == [];
      while consumed < |inbox| && consumed < noticeDoneAt
        invariant consumed <= |inbox| && consumed <= noticeDoneAt
        invariant ValidRun(Cfg(), before, inbox[..consumed])
        invariant Abs() == Steps.Run(Cfg(), before, inbox[..consumed])
      {
        RunNext(Cfg(), before, inbox, consumed);
        SafeApply(inbox[consumed].msg, inbox[consumed].sched, inbox[consumed].cut);
        consumed := consumed + 1;
      }
    }

    method ResetTenantGauges(tenant: string)
      modifies this
      ensures Abs() == ResetTenant(old(Abs()), tenant)
      ensures Cleared(old(Abs()), Abs(), tenant)
    {
      ResetOutcome(Abs(), tenant);
      series := map k | k in series && !OwnedBy(k.tuple, tenant) :: series[k];
      pool := map k | k in pool && k.1 != tenant :: pool[k];
      lastLabels := lastLabels - {tenant};
      emptyAcquireBaselines := emptyAcquireBaselines - {tenant};
      emptyAcquireSeen := emptyAcquireSeen - {tenant};
    }
  }
}
