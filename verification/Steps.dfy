/** What the publisher does to the metrics, as lists of atomic steps.

    Every message has a plan: the individual gauge, counter and map writes the publisher performs
    for it, in order. A scrape can fall between any two steps, and a panic stops a plan part-way.
    Go iterates maps in an unspecified order, so a plan is taken under a Schedule, which names the
    order of every map iteration; results that hold for all schedules hold for all orders. */
module Steps {
  import opened Values
  import opened Tuples

  /** One time series: query and value column name the gauge, the tuple its labels. */
  datatype Series = Series(query: string, value: string, tuple: Tuple)

  datatype PoolGauge = Acquired | Idle | Total

  datatype Stats = Stats(acquired: int, idle: int, total: int, emptyAcquires: int)

  datatype Message =
    | QueryResult(tenant: string, query: string, rows: seq<Row>, cols: seq<string>, failed: bool)
    | PoolStat(tenant: string, stats: Stats)
    | Unrecognized(tenant: string)

  /** What is fixed at construction: query definitions by name, and the value columns registered
      as gauges for each query. */
  datatype Config = Config(spec: map<string, Query>, gauges: map<string, set<string>>)

  /** The spec table is keyed by name, and registration makes one gauge per distinct value column. */
  ghost predicate WellFormed(cfg: Config) {
    forall n :: n in cfg.spec ==>
      cfg.spec[n].name == n && (n in cfg.gauges ==> cfg.gauges[n] == ValueSet(cfg.spec[n]))
  }

  type Tracking = map<string, Tuple>

  /** The empty-acquire mirror: the last sample per tenant, the tenants sampled at all, and the
      exported counter. */
  datatype Acquires = Acquires(baselines: map<string, int>, seen: set<string>, total: map<string, nat>)

  datatype State = State(
    series: map<Series, Number>,
    lastLabels: map<string, map<string, Tracking>>,
    errors: map<(string, string), nat>,
    panics: map<string, nat>,
    acquires: Acquires,
    pool: map<(PoolGauge, string), int>)

  const INITIAL: State := State(map[], map[], map[], map[], Acquires(map[], {}, map[]), map[])

  const ZERO: Number := Finite(0.0)

  datatype Step =
    | OpenTenant
    | BumpError
    | Create(value: string, tuple: Tuple)
    | Set(value: string, tuple: Tuple, number: Number)
    | Delete(value: string, tuple: Tuple)
    | Commit(tuples: Tracking)
    | SetPool(gauge: PoolGauge, level: int)
    | ObserveEmptyAcquires(current: int)

  function PerTenant(s: State, tenant: string): map<string, Tracking> {
    if tenant in s.lastLabels then s.lastLabels[tenant] else map[]
  }

  /** The tuples emitted last time for this tenant and query. */
  function Previous(s: State, tenant: string, query: string): Tracking {
    var last := PerTenant(s, tenant);
    if query in last then last[query] else map[]
  }

  /** One sample of a tenant's cumulative pool counter. The first sample only seeds the baseline;
      a lower one means the pool was recreated and re-seeds it. */
  function Observe(b: Acquires, tenant: string, current: int): Acquires {
    var last := if tenant in b.baselines then b.baselines[tenant] else 0;
    if tenant !in b.seen then
      b.(seen := b.seen + {tenant}, baselines := b.baselines[tenant := current])
    else if current > last then
      b.(total := b.total[tenant := Count(b.total, tenant) + (current - last)],
         baselines := b.baselines[tenant := current])
    else if current < last then
      b.(baselines := b.baselines[tenant := current])
    else b
  }

  /** Looking a series up by its labels creates it, reading 0, if it is not there. */
  function Created(series: map<Series, Number>, k: Series): map<Series, Number> {
    if k in series then series else series[k := ZERO]
  }

  function Exec(s: State, tenant: string, query: string, step: Step): State {
    match step
    case OpenTenant =>
      s.(lastLabels := s.lastLabels[tenant := PerTenant(s, tenant)])
    case BumpError =>
      s.(errors := s.errors[(tenant, query) := Count(s.errors, (tenant, query)) + 1])
    case Create(value, tuple) =>
      s.(series := Created(s.series, Series(query, value, tuple)))
    case Set(value, tuple, number) =>
      s.(series := s.series[Series(query, value, tuple) := number])
    case Delete(value, tuple) =>
      s.(series := s.series - {Series(query, value, tuple)})
    case Commit(tuples) =>
      s.(lastLabels := s.lastLabels[tenant := PerTenant(s, tenant)[query := tuples]])
    case SetPool(gauge, level) =>
      s.(pool := s.pool[(gauge, tenant) := level])
    case ObserveEmptyAcquires(current) =>
      s.(acquires := Observe(s.acquires, tenant, current))
  }

  function ExecAll(s: State, tenant: string, query: string, steps: seq<Step>): State {
    if steps == [] then s
    else
      var n := |steps| - 1;
      Exec(ExecAll(s, tenant, query, steps[..n]), tenant, query, steps[n])
  }

  /** The order of every map iteration one apply makes: the value columns for each row, then the
      previously tracked signatures, and the query's gauges for each of those. */
  datatype Schedule = Schedule(columns: seq<seq<string>>, tracked: seq<string>, gauges: seq<seq<string>>)

  /** The message passes every check that precedes the diff. */
  predicate Accepted(cfg: Config, msg: Message) {
    && msg.QueryResult?
    && !msg.failed
    && msg.query in cfg.spec
    && msg.query in cfg.gauges
    && HasColumns(cfg.spec[msg.query], msg.cols)
  }

  predicate HasColumns(q: Query, cols: seq<string>) {
    && (forall l :: l in q.labels ==> l in cols)
    && (forall v :: v in q.values ==> v in cols)
  }

  ghost predicate ValidSchedule(cfg: Config, prev: Tracking, msg: Message, sched: Schedule) {
    Accepted(cfg, msg) ==>
      && |sched.columns| == |msg.rows|
      && (forall i :: 0 <= i < |msg.rows| ==> Enumerates(sched.columns[i], ValueSet(cfg.spec[msg.query])))
      && Enumerates(sched.tracked, prev.Keys)
      && |sched.gauges| == |sched.tracked|
      && (forall j :: 0 <= j < |sched.gauges| ==> Enumerates(sched.gauges[j], cfg.gauges[msg.query]))
  }

  function CellSteps(q: Query, tenant: string, row: Row, column: string): seq<Step> {
    match NumberOf(CellAt(row, column))
    case None => [BumpError]
    case Some(n) =>
      var tuple := TupleOf(tenant, q.labels, row);
      [Create(column, tuple), Set(column, tuple, n)]
  }

  function RowSteps(q: Query, tenant: string, row: Row, order: seq<string>): seq<Step> {
    if order == [] then []
    else
      var n := |order| - 1;
      RowSteps(q, tenant, row, order[..n]) + CellSteps(q, tenant, row, order[n])
  }

  function SetSteps(q: Query, tenant: string, rows: seq<Row>, orders: seq<seq<string>>): seq<Step>
    requires |orders| == |rows|
  {
    if rows == [] then []
    else
      var n := |rows| - 1;
      SetSteps(q, tenant, rows[..n], orders[..n]) + RowSteps(q, tenant, rows[n], orders[n])
  }

  /** The tuple set of a result, keyed by signature; a later row replaces an earlier one. */
  function NewTuples(q: Query, tenant: string, rows: seq<Row>): Tracking {
    if rows == [] then map[]
    else
      var n := |rows| - 1;
      var t := TupleOf(tenant, q.labels, rows[n]);
      NewTuples(q, tenant, rows[..n])[Signature(t) := t]
  }

  /** The deletions for one previously tracked signature: none if it is still present. */
  function DropSteps(prev: Tracking, current: Tracking, sig: string, gauges: seq<string>): seq<Step>
  {
    if sig in current || sig !in prev then []
    else seq(|gauges|, j requires 0 <= j < |gauges| => Delete(gauges[j], prev[sig]))
  }

  function DeleteSteps(prev: Tracking, current: Tracking, sigs: seq<string>, gauges: seq<seq<string>>): seq<Step>
    requires |gauges| == |sigs|
  {
    if sigs == [] then []
    else
      var n := |sigs| - 1;
      DeleteSteps(prev, current, sigs[..n], gauges[..n]) + DropSteps(prev, current, sigs[n], gauges[n])
  }

  function RefreshPlan(q: Query, tenant: string, rows: seq<Row>, prev: Tracking, sched: Schedule): seq<Step>
    requires |sched.columns| == |rows|
    requires |sched.gauges| == |sched.tracked|
  {
    var current := NewTuples(q, tenant, rows);
    [OpenTenant]
    + SetSteps(q, tenant, rows, sched.columns)
    + DeleteSteps(prev, current, sched.tracked, sched.gauges)
    + [Commit(current)]
  }

  function PoolPlan(stats: Stats): seq<Step> {
    [SetPool(Acquired, stats.acquired), SetPool(Idle, stats.idle), SetPool(Total, stats.total),
     ObserveEmptyAcquires(stats.emptyAcquires)]
  }

  ghost function Plan(cfg: Config, prev: Tracking, msg: Message, sched: Schedule): seq<Step>
    requires ValidSchedule(cfg, prev, msg, sched)
  {
    match msg
    case QueryResult(tenant, query, rows, cols, failed) =>
      if failed then [BumpError]
      else if query !in cfg.spec || query !in cfg.gauges then []
      else if !HasColumns(cfg.spec[query], cols) then [BumpError]
      else RefreshPlan(cfg.spec[query], tenant, rows, prev, sched)
    case PoolStat(_, stats) => PoolPlan(stats)
    case Unrecognized(_) => []
  }

  function QueryName(msg: Message): string {
    if msg.QueryResult? then msg.query else ""
  }

  /** ResetTenantGauges: every gauge series whose tenant label matches, and the local tracking. */
  function ResetTenant(s: State, tenant: string): State {
    s.(series := map k | k in s.series && !OwnedBy(k.tuple, tenant) :: s.series[k],
       lastLabels := s.lastLabels - {tenant},
       acquires := s.acquires.(baselines := s.acquires.baselines - {tenant},
                               seen := s.acquires.seen - {tenant}),
       pool := map k | k in s.pool && k.1 != tenant :: s.pool[k])
  }

  predicate OwnedBy(t: Tuple, tenant: string) {
    t != [] && t[0] == tenant
  }

  /** Something that happens to the publisher. In an Apply, cut = Some(n) says that a panic ends the
      plan before step n; the recovery counts it and the publisher goes on with the next event. */
  datatype Event =
    | Apply(msg: Message, sched: Schedule, cut: Option<nat>)
    | Reset(resetTenant: string)
  {
    function Tenant(): string {
      if Apply? then msg.tenant else resetTenant
    }
  }

  ghost predicate ValidEvent(cfg: Config, s: State, e: Event) {
    e.Apply? ==> ValidSchedule(cfg, Previous(s, e.msg.tenant, QueryName(e.msg)), e.msg, e.sched)
  }

  ghost function PlanOf(cfg: Config, s: State, e: Event): seq<Step>
    requires e.Apply? && ValidEvent(cfg, s, e)
  {
    Plan(cfg, Previous(s, e.msg.tenant, QueryName(e.msg)), e.msg, e.sched)
  }

  function CountPanic(s: State, tenant: string): State {
    s.(panics := s.panics[tenant := Count(s.panics, tenant) + 1])
  }

  ghost predicate Panics(cfg: Config, s: State, e: Event)
    requires ValidEvent(cfg, s, e)
  {
    e.Apply? && e.cut.Some? && e.cut.value < |PlanOf(cfg, s, e)|
  }

  ghost function Run1(cfg: Config, s: State, e: Event): State
    requires ValidEvent(cfg, s, e)
  {
    if e.Reset? then ResetTenant(s, e.resetTenant)
    else
      var plan := PlanOf(cfg, s, e);
      if Panics(cfg, s, e) then
        CountPanic(ExecAll(s, e.msg.tenant, QueryName(e.msg), plan[..e.cut.value]), e.msg.tenant)
      else ExecAll(s, e.msg.tenant, QueryName(e.msg), plan)
  }

  ghost predicate ValidRun(cfg: Config, s: State, es: seq<Event>)
    decreases |es|, 0
  {
    es != [] ==>
      var n := |es| - 1;
      ValidRun(cfg, s, es[..n]) && ValidEvent(cfg, Run(cfg, s, es[..n]), es[n])
  }

  ghost function Run(cfg: Config, s: State, es: seq<Event>): State
    requires ValidRun(cfg, s, es)
    decreases |es|, 1
  {
    if es == [] then s
    else
      var n := |es| - 1;
      Run1(cfg, Run(cfg, s, es[..n]), es[n])
  }

  lemma {:induction false} ExecAppend(s: State, tenant: string, query: string, a: seq<Step>, b: seq<Step>)
    ensures ExecAll(s, tenant, query, a + b)
         == ExecAll(ExecAll(s, tenant, query, a), tenant, query, b)
  {
    if b == [] {
      assert a + b == a;
    } else {
      var n := |b| - 1;
      assert (a + b)[..|a| + n] == a + b[..n];
      ExecAppend(s, tenant, query, a, b[..n]);
    }
  }

  lemma ExecNext(s: State, tenant: string, query: string, steps: seq<Step>, n: nat)
    requires n < |steps|
    ensures ExecAll(s, tenant, query, steps[..n + 1])
         == Exec(ExecAll(s, tenant, query, steps[..n]), tenant, query, steps[n])
  {
    assert steps[..n + 1][..n] == steps[..n];
  }

  lemma ExecOne(s: State, tenant: string, query: string, step: Step)
    ensures ExecAll(s, tenant, query, [step]) == Exec(s, tenant, query, step)
  {
  }

  /** Some schedule is always available, so no message is ever stuck. */
  lemma ScheduleExists(cfg: Config, prev: Tracking, msg: Message) returns (sched: Schedule)
    ensures ValidSchedule(cfg, prev, msg, sched)
  {
    var rows := if msg.QueryResult? then msg.rows else [];
    var columns := if Accepted(cfg, msg) then ValueSet(cfg.spec[msg.query]) else {};
    var registered := if Accepted(cfg, msg) then cfg.gauges[msg.query] else {};
    var order := EnumerationExists(columns);
    var sigs := EnumerationExists(prev.Keys);
    var gauges := EnumerationExists(registered);
    sched := Schedule(seq(|rows|, _ => order), sigs, seq(|sigs|, _ => gauges));
  }
}
