/** What a scrape can see while an apply is under way, and how errors are counted. */
module Scrape {
  import opened Values
  import opened Tuples
  import opened Steps
  import opened Outcomes
  import opened Isolation

  /** The step writes a series: creates it, or sets it. */
  predicate Writes(step: Step) {
    step.Create? || step.Set?
  }

  ghost predicate DeletesLast(steps: seq<Step>) {
    forall i, j :: 0 <= i < j < |steps| && steps[i].Delete? ==> !Writes(steps[j])
  }

  /** Every creation comes right before the first write it is for, and no number is set otherwise. */
  ghost predicate Paired(steps: seq<Step>) {
    && (forall i :: 0 <= i < |steps| && steps[i].Create? ==> i + 1 < |steps| && CreatesFor(steps[i], steps[i + 1]))
    && (forall i :: 0 <= i < |steps| && steps[i].Set? ==> i > 0 && CreatesFor(steps[i - 1], steps[i]))
  }

  predicate CreatesFor(a: Step, b: Step) {
    a.Create? && b.Set? && a.value == b.value && a.tuple == b.tuple
  }

  /** A row of the result offers this number for the series. */
  ghost predicate Offered(cfg: Config, msg: Message, k: Series, number: Number) {
    && Accepted(cfg, msg)
    && var q := cfg.spec[msg.query];
       && k.query == q.name
       && k.value in q.values
       && exists i :: 0 <= i < |msg.rows| && Offers(q, msg.tenant, msg.rows[i], k, number)
  }

  predicate Offers(q: Query, tenant: string, row: Row, k: Series, number: Number) {
    TupleOf(tenant, q.labels, row) == k.tuple && Numeric(row, k.value) && row[k.value].number == Some(number)
  }

  ghost predicate SetsOffered(cfg: Config, msg: Message, steps: seq<Step>) {
    forall i :: 0 <= i < |steps| && steps[i].Set? ==>
      Offered(cfg, msg, Series(QueryName(msg), steps[i].value, steps[i].tuple), steps[i].number)
  }

  // ----- the shape of a plan -----

  ghost predicate NoDeletes(steps: seq<Step>) {
    forall i :: 0 <= i < |steps| ==> !steps[i].Delete?
  }

  lemma PairedAppend(a: seq<Step>, b: seq<Step>)
    requires Paired(a) && Paired(b)
    ensures Paired(a + b)
  {
    var c := a + b;
    forall i | 0 <= i < |c| && c[i].Create? ensures i + 1 < |c| && CreatesFor(c[i], c[i + 1]) {
      if i >= |a| {
        assert b[i - |a|].Create?;
      }
    }
    forall i | 0 <= i < |c| && c[i].Set? ensures i > 0 && CreatesFor(c[i - 1], c[i]) {
      if i >= |a| {
        assert b[i - |a|].Set?;
      }
    }
  }

  lemma {:induction false} RowStepsShape(cfg: Config, msg: Message, i: nat, order: seq<string>)
    requires WellFormed(cfg) && Accepted(cfg, msg) && i < |msg.rows|
    requires forall v :: v in order ==> v in cfg.spec[msg.query].values
    ensures var steps := RowSteps(cfg.spec[msg.query], msg.tenant, msg.rows[i], order);
            SetsOffered(cfg, msg, steps) && NoDeletes(steps) && Paired(steps)
  {
    if order != [] {
      var q, n := cfg.spec[msg.query], |order| - 1;
      RowStepsShape(cfg, msg, i, order[..n]);
      var last := CellSteps(q, msg.tenant, msg.rows[i], order[n]);
      assert order[n] in order;
      assert SetsOffered(cfg, msg, last) by {
        assert forall number :: Numeric(msg.rows[i], order[n]) && msg.rows[i][order[n]].number == Some(number) ==>
          Offers(q, msg.tenant, msg.rows[i],
                 Series(msg.query, order[n], TupleOf(msg.tenant, q.labels, msg.rows[i])), number);
      }
      PairedAppend(RowSteps(q, msg.tenant, msg.rows[i], order[..n]), last);
    }
  }

  lemma {:induction false} SetStepsShape(cfg: Config, msg: Message, n: nat, orders: seq<seq<string>>)
    requires WellFormed(cfg) && Accepted(cfg, msg)
    requires n <= |msg.rows| && |orders| == n
    requires forall i :: 0 <= i < n ==> Enumerates(orders[i], ValueSet(cfg.spec[msg.query]))
    ensures var steps := SetSteps(cfg.spec[msg.query], msg.tenant, msg.rows[..n], orders);
            SetsOffered(cfg, msg, steps) && NoDeletes(steps) && Paired(steps)
  {
    if n > 0 {
      var q := cfg.spec[msg.query];
      SetStepsShape(cfg, msg, n - 1, orders[..n - 1]);
      assert msg.rows[..n][..n - 1] == msg.rows[..n - 1];
      forall v | v in orders[n - 1] ensures v in q.values {
        assert v in ValueSet(q);
      }
      RowStepsShape(cfg, msg, n - 1, orders[n - 1]);
      PairedAppend(SetSteps(q, msg.tenant, msg.rows[..n - 1], orders[..n - 1]),
                   RowSteps(q, msg.tenant, msg.rows[n - 1], orders[n - 1]));
    }
  }

  ghost predicate NoWrites(steps: seq<Step>) {
    forall i :: 0 <= i < |steps| ==> !Writes(steps[i])
  }

  lemma ShapeOfParts(cfg: Config, msg: Message, front: seq<Step>, back: seq<Step>)
    requires SetsOffered(cfg, msg, front) && NoDeletes(front) && NoWrites(back)
    ensures DeletesLast(front + back) && SetsOffered(cfg, msg, front + back)
  {
  }

  lemma SetsShape(cfg: Config, msg: Message, orders: seq<seq<string>>)
    requires WellFormed(cfg) && Accepted(cfg, msg) && |orders| == |msg.rows|
    requires forall i :: 0 <= i < |orders| ==> Enumerates(orders[i], ValueSet(cfg.spec[msg.query]))
    ensures var steps := SetSteps(cfg.spec[msg.query], msg.tenant, msg.rows, orders);
            SetsOffered(cfg, msg, steps) && NoDeletes(steps) && Paired(steps)
  {
    assert msg.rows[..|msg.rows|] == msg.rows;
    SetStepsShape(cfg, msg, |msg.rows|, orders);
  }

  /** No write follows a deletion, every number set is one the rows offer, and a series is created only
      to be set at once. */
  lemma PlanShape(cfg: Config, s: State, e: Event)
    requires WellFormed(cfg) && e.Apply? && ValidEvent(cfg, s, e)
    ensures var plan := PlanOf(cfg, s, e); DeletesLast(plan) && SetsOffered(cfg, e.msg, plan) && Paired(plan)
  {
    if Accepted(cfg, e.msg) {
      var q, t := cfg.spec[e.msg.query], e.msg.tenant;
      var prev, current := Previous(s, t, e.msg.query), NewTuples(q, t, e.msg.rows);
      var sets := SetSteps(q, t, e.msg.rows, e.sched.columns);
      var deletes := DeleteSteps(prev, current, e.sched.tracked, e.sched.gauges);
      SetsShape(cfg, e.msg, e.sched.columns);
      DeletesOnly(prev, current, e.sched.tracked, e.sched.gauges);
      JoinShape(cfg, e.msg, sets, deletes, current);
      assert PlanOf(cfg, s, e) == ([OpenTenant] + sets) + (deletes + [Commit(current)]);
    }
  }

  lemma JoinShape(cfg: Config, msg: Message, sets: seq<Step>, deletes: seq<Step>, current: Tracking)
    requires SetsOffered(cfg, msg, sets) && NoDeletes(sets) && Paired(sets)
    requires forall i :: 0 <= i < |deletes| ==> deletes[i].Delete?
    ensures var plan := ([OpenTenant] + sets) + (deletes + [Commit(current)]);
            DeletesLast(plan) && SetsOffered(cfg, msg, plan) && Paired(plan)
  {
    PairedAppend([OpenTenant], sets);
    PairedAppend([OpenTenant] + sets, deletes + [Commit(current)]);
    ShapeOfParts(cfg, msg, [OpenTenant] + sets, deletes + [Commit(current)]);
  }

  // ----- what is visible part-way -----

  /** The series after the first n steps. */
  function Seen(s: State, msg: Message, steps: seq<Step>, n: nat): map<Series, Number>
    requires n <= |steps|
  {
    ExecAll(s, msg.tenant, QueryName(msg), steps[..n]).series
  }

  lemma SeenNext(s: State, msg: Message, steps: seq<Step>, k: Series, n: nat)
    requires n < |steps|
    ensures Get(Seen(s, msg, steps, n + 1), k) == Touch(QueryName(msg), k, steps[n], Get(Seen(s, msg, steps, n), k))
  {
    ExecNext(s, msg.tenant, QueryName(msg), steps, n);
    ExecTouch(ExecAll(s, msg.tenant, QueryName(msg), steps[..n]), msg.tenant, QueryName(msg), steps[n], k);
  }

  lemma SeenFirst(s: State, msg: Message, steps: seq<Step>)
    ensures Seen(s, msg, steps, 0) == s.series
  {
    assert steps[..0] == [];
  }

  lemma {:induction false} StaysAbsent(s: State, msg: Message, steps: seq<Step>, k: Series, m: nat, n: nat)
    requires m <= n <= |steps|
    requires forall i :: m <= i < |steps| ==> !Writes(steps[i])
    requires k !in Seen(s, msg, steps, m)
    ensures k !in Seen(s, msg, steps, n)
  {
    if m < n {
      StaysAbsent(s, msg, steps, k, m, n - 1);
      SeenNext(s, msg, steps, k, n - 1);
    }
  }

  lemma {:induction false} StaysPresent(s: State, msg: Message, steps: seq<Step>, k: Series, n: nat)
    requires n <= |steps|
    requires forall i :: 0 <= i < n ==> !steps[i].Delete?
    requires k in s.series
    ensures k in Seen(s, msg, steps, n)
  {
    if n > 0 {
      StaysPresent(s, msg, steps, k, n - 1);
      SeenNext(s, msg, steps, k, n - 1);
    } else {
      SeenFirst(s, msg, steps);
    }
  }

  /** After n steps the series has just been created and is about to be set for the first time. */
  predicate Awaiting(query: string, steps: seq<Step>, k: Series, n: nat) {
    && 0 < n < |steps|
    && CreatesFor(steps[n - 1], steps[n])
    && k == Series(query, steps[n].value, steps[n].tuple)
  }

  /** What a scrape can read for a series: its old value, an offered one, or 0 if it is new and
      awaiting its first value. */
  ghost predicate Readable(cfg: Config, s: State, msg: Message, steps: seq<Step>, k: Series, n: nat, number: Number) {
    || Get(s.series, k) == Some(number)
    || Offered(cfg, msg, k, number)
    || (k !in s.series && number == Finite(0.0) && Awaiting(QueryName(msg), steps, k, n))
  }

  /** A creation leaves an old series alone and makes a new one await its value. */
  lemma CreateReadable(cfg: Config, s: State, msg: Message, steps: seq<Step>, k: Series, n: nat)
    requires n < |steps| && Paired(steps) && DeletesLast(steps) && steps[n].Create?
    requires k == Series(QueryName(msg), steps[n].value, steps[n].tuple)
    ensures k !in Seen(s, msg, steps, n) ==> k !in s.series && Awaiting(QueryName(msg), steps, k, n + 1)
  {
    assert CreatesFor(steps[n], steps[n + 1]);
    if k in s.series {
      assert forall i :: 0 <= i < n ==> !steps[i].Delete?;
      StaysPresent(s, msg, steps, k, n);
    }
  }

  lemma {:induction false} SeenReadable(cfg: Config, s: State, msg: Message, steps: seq<Step>, k: Series, n: nat)
    requires n <= |steps| && SetsOffered(cfg, msg, steps) && Paired(steps) && DeletesLast(steps)
    ensures var here := Get(Seen(s, msg, steps, n), k);
            here.Some? ==> Readable(cfg, s, msg, steps, k, n, here.value)
  {
    if n == 0 {
      SeenFirst(s, msg, steps);
    } else {
      SeenReadable(cfg, s, msg, steps, k, n - 1);
      SeenNext(s, msg, steps, k, n - 1);
      if steps[n - 1].Create? && k == Series(QueryName(msg), steps[n - 1].value, steps[n - 1].tuple) {
        CreateReadable(cfg, s, msg, steps, k, n - 1);
      }
    }
  }

  /** A scrape after any n steps of an apply sees every series that exists both before and after it, and
      reads old values, values of the incoming rows, or 0 for a series just created. It may see old and
      new values side by side. */
  lemma NoScrapeGap(cfg: Config, s: State, e: Event, n: nat, k: Series)
    requires WellFormed(cfg) && e.Apply? && ValidEvent(cfg, s, e)
    requires n <= |PlanOf(cfg, s, e)|
    ensures var plan := PlanOf(cfg, s, e);
            var seen, after := Seen(s, e.msg, plan, n), Seen(s, e.msg, plan, |plan|);
            && (k in s.series && k in after ==> k in seen)
            && (k in seen ==> Readable(cfg, s, e.msg, plan, k, n, seen[k]))
  {
    var plan := PlanOf(cfg, s, e);
    PlanShape(cfg, s, e);
    SeenReadable(cfg, s, e.msg, plan, k, n);
    if exists i :: 0 <= i < n && plan[i].Delete? {
      if k !in Seen(s, e.msg, plan, n) {
        StaysAbsent(s, e.msg, plan, k, n, |plan|);
      }
    } else if k in s.series {
      StaysPresent(s, e.msg, plan, k, n);
    }
  }

  /** A series that is not there before and is there after n steps was first seen reading 0. */
  lemma {:induction false} FirstSeenAtZero(s: State, msg: Message, steps: seq<Step>, k: Series, n: nat)
    returns (m: nat)
    requires n <= |steps| && Paired(steps)
    requires k !in s.series && k in Seen(s, msg, steps, n)
    ensures m <= n && Awaiting(QueryName(msg), steps, k, m) && Get(Seen(s, msg, steps, m), k) == Some(Finite(0.0))
  {
    SeenFirst(s, msg, steps);
    if k in Seen(s, msg, steps, n - 1) {
      m := FirstSeenAtZero(s, msg, steps, k, n - 1);
    } else {
      m := n;
      SeenNext(s, msg, steps, k, n - 1);
      if steps[n - 1].Set? {
        SeenNext(s, msg, steps, k, n - 2);
      }
    }
  }

  /** At some point of the apply a scrape reads 0 for the series because it awaits its first value. */
  ghost predicate ReadsZero(cfg: Config, s: State, e: Event, k: Series)
    requires e.Apply? && ValidEvent(cfg, s, e)
  {
    var plan := PlanOf(cfg, s, e);
    exists n :: 0 <= n <= |plan| && Awaiting(QueryName(e.msg), plan, k, n)
                && Get(Seen(s, e.msg, plan, n), k) == Some(Finite(0.0))
  }

  /** Exactly the new series the result has a number for can be read as 0 before they are set. */
  lemma ReadsZeroIffNew(cfg: Config, s: State, e: Event, k: Series)
    requires WellFormed(cfg) && e.Apply? && ValidEvent(cfg, s, e) && Accepted(cfg, e.msg) && k !in s.series
    ensures ReadsZero(cfg, s, e, k) <==> LastNumber(cfg.spec[e.msg.query], e.msg.tenant, e.msg.rows, k).Some?
  {
    if ReadsZero(cfg, s, e, k) {
      PlanShape(cfg, s, e);
      var n :| 0 <= n <= |PlanOf(cfg, s, e)| && Awaiting(QueryName(e.msg), PlanOf(cfg, s, e), k, n);
      SetHasNumber(cfg, e.msg, PlanOf(cfg, s, e), k, n);
    }
    if LastNumber(cfg.spec[e.msg.query], e.msg.tenant, e.msg.rows, k).Some? {
      NewReadsZero(cfg, s, e, k);
    }
  }

  lemma NewReadsZero(cfg: Config, s: State, e: Event, k: Series)
    requires WellFormed(cfg) && e.Apply? && ValidEvent(cfg, s, e) && Accepted(cfg, e.msg) && k !in s.series
    requires LastNumber(cfg.spec[e.msg.query], e.msg.tenant, e.msg.rows, k).Some?
    ensures ReadsZero(cfg, s, e, k)
  {
    var sets := SetSteps(cfg.spec[e.msg.query], e.msg.tenant, e.msg.rows, e.sched.columns);
    PlanShape(cfg, s, e);
    SetsDone(cfg, s, e, k);
    var m := FirstSeenAtZero(s, e.msg, PlanOf(cfg, s, e), k, 1 + |sets|);
  }

  lemma {:induction false} OfferedHasNumber(q: Query, tenant: string, rows: seq<Row>, k: Series, i: nat, number: Number)
    requires i < |rows| && Offers(q, tenant, rows[i], k, number) && k.query == q.name && k.value in q.values
    ensures LastNumber(q, tenant, rows, k).Some?
  {
    if i < |rows| - 1 {
      OfferedHasNumber(q, tenant, rows[..|rows| - 1], k, i, number);
    }
  }

  lemma SetHasNumber(cfg: Config, msg: Message, steps: seq<Step>, k: Series, n: nat)
    requires SetsOffered(cfg, msg, steps) && n < |steps| && steps[n].Set?
    requires k == Series(QueryName(msg), steps[n].value, steps[n].tuple)
    ensures Offered(cfg, msg, k, steps[n].number)
    ensures LastNumber(cfg.spec[msg.query], msg.tenant, msg.rows, k).Some?
  {
    var i :| 0 <= i < |msg.rows| && Offers(cfg.spec[msg.query], msg.tenant, msg.rows[i], k, steps[n].number);
    OfferedHasNumber(cfg.spec[msg.query], msg.tenant, msg.rows, k, i, steps[n].number);
  }

  /** Once the writes of a plan are done, every series the result has a number for reads that number. */
  lemma SetsDone(cfg: Config, s: State, e: Event, k: Series)
    requires WellFormed(cfg) && e.Apply? && ValidEvent(cfg, s, e) && Accepted(cfg, e.msg)
    requires LastNumber(cfg.spec[e.msg.query], e.msg.tenant, e.msg.rows, k).Some?
    ensures var q, plan := cfg.spec[e.msg.query], PlanOf(cfg, s, e);
            var n := 1 + |SetSteps(q, e.msg.tenant, e.msg.rows, e.sched.columns)|;
            n <= |plan| && Get(Seen(s, e.msg, plan, n), k) == LastNumber(q, e.msg.tenant, e.msg.rows, k)
  {
    var q, t := cfg.spec[e.msg.query], e.msg.tenant;
    var plan, sets := PlanOf(cfg, s, e), SetSteps(q, t, e.msg.rows, e.sched.columns);
    assert plan[..1 + |sets|] == [OpenTenant] + sets;
    AfterOpening(s, t, q.name, sets, k);
    SetTouch(q, t, e.msg.rows, e.sched.columns, k, Get(s.series, k));
  }

  lemma AfterOpening(s: State, t: string, query: string, steps: seq<Step>, k: Series)
    ensures Get(ExecAll(s, t, query, [OpenTenant] + steps).series, k) == Touched(query, k, steps, Get(s.series, k))
  {
    ExecAppend(s, t, query, [OpenTenant], steps);
    ExecOne(s, t, query, OpenTenant);
    ExecTouched(Exec(s, t, query, OpenTenant), t, query, steps, k);
  }

  // ----- where a value comes from -----

  /** A row of the event's result offers the number, or a panic left the series at 0 before it was set. */
  ghost predicate LeftBy(cfg: Config, e: Event, k: Series, number: Number) {
    e.Apply? && exists offered ::
      Offered(cfg, e.msg, k, offered) && (number == offered || (number == Finite(0.0) && e.cut.Some?))
  }

  lemma EventLeaves(cfg: Config, s: State, e: Event, k: Series)
    requires WellFormed(cfg) && ValidEvent(cfg, s, e) && k in Run1(cfg, s, e).series
    ensures Get(s.series, k) == Some(Run1(cfg, s, e).series[k]) || LeftBy(cfg, e, k, Run1(cfg, s, e).series[k])
  {
    if e.Apply? {
      var plan := PlanOf(cfg, s, e);
      var n := if Panics(cfg, s, e) then e.cut.value else |plan|;
      assert plan[..|plan|] == plan;
      PlanShape(cfg, s, e);
      SeenReadable(cfg, s, e.msg, plan, k, n);
      if Awaiting(QueryName(e.msg), plan, k, n) {
        SetHasNumber(cfg, e.msg, plan, k, n);
      }
    }
  }

  /** Through every run, panics, resets and colliding signatures included, an exposed series has a value
      some applied result offered for it. */
  lemma {:induction false} EverySeriesOffered(cfg: Config, es: seq<Event>, k: Series) returns (j: nat)
    requires WellFormed(cfg) && ValidRun(cfg, INITIAL, es) && k in Run(cfg, INITIAL, es).series
    ensures j < |es| && LeftBy(cfg, es[j], k, Run(cfg, INITIAL, es).series[k])
  {
    var n := |es| - 1;
    var here := Run(cfg, INITIAL, es[..n]);
    EventLeaves(cfg, here, es[n], k);
    if LeftBy(cfg, es[n], k, Run(cfg, INITIAL, es).series[k]) {
      j := n;
    } else {
      j := EverySeriesOffered(cfg, es[..n], k);
    }
  }

  // ----- error accounting -----

  /** What a message should add to the error counter of its tenant and query. */
  function ErrorCost(cfg: Config, msg: Message): nat {
    if !msg.QueryResult? then 0
    else if msg.failed then 1
    else if msg.query !in cfg.spec || msg.query !in cfg.gauges then 0
    else
      var q := cfg.spec[msg.query];
      if (exists l :: l in q.labels && l !in msg.cols) || (exists v :: v in q.values && v !in msg.cols) then 1
      else BadCells(q, msg.rows)
  }

  function EventCost(cfg: Config, e: Event, t: string, query: string): nat {
    if e.Apply? && e.msg.QueryResult? && e.msg.tenant == t && e.msg.query == query then ErrorCost(cfg, e.msg) else 0
  }

  function TotalCost(cfg: Config, es: seq<Event>, t: string, query: string): nat {
    if es == [] then 0
    else TotalCost(cfg, es[..|es| - 1], t, query) + EventCost(cfg, es[|es| - 1], t, query)
  }

  lemma {:induction false} KeepsErrors(s: State, t: string, query: string, steps: seq<Step>)
    requires forall i :: 0 <= i < |steps| ==> !steps[i].BumpError?
    ensures ExecAll(s, t, query, steps).errors == s.errors
  {
    if steps != [] {
      var n := |steps| - 1;
      KeepsErrors(s, t, query, steps[..n]);
      ExecFrame(ExecAll(s, t, query, steps[..n]), t, query, steps[n]);
    }
  }

  lemma RejectedErrors(cfg: Config, s: State, e: Event, query: string)
    requires e.Apply? && ValidEvent(cfg, s, e) && !Panics(cfg, s, e) && !Accepted(cfg, e.msg)
    ensures var key := (e.msg.tenant, query);
            Count(Run1(cfg, s, e).errors, key) == Count(s.errors, key) + EventCost(cfg, e, e.msg.tenant, query)
  {
    if e.msg.QueryResult? {
      ExecOne(s, e.msg.tenant, e.msg.query, BumpError);
    } else {
      KeepsErrors(s, e.msg.tenant, "", PlanOf(cfg, s, e));
    }
  }

  lemma EventErrors(cfg: Config, s: State, e: Event, query: string)
    requires WellFormed(cfg) && ValidEvent(cfg, s, e) && !Panics(cfg, s, e)
    ensures var key := (e.Tenant(), query);
            Count(Run1(cfg, s, e).errors, key) == Count(s.errors, key) + EventCost(cfg, e, e.Tenant(), query)
  {
    if e.Apply? {
      if Accepted(cfg, e.msg) {
        RefreshOutcome(cfg, s, e);
      } else {
        RejectedErrors(cfg, s, e, query);
      }
    }
  }

  ghost predicate UncutFor(es: seq<Event>, t: string) {
    forall i :: 0 <= i < |es| && es[i].Tenant() == t && es[i].Apply? ==> es[i].cut.None?
  }

  /** The error counter of every tenant and query is the sum over the tenant's messages, whatever
      the other tenants send and wherever their applies panic. */
  lemma {:induction false} ErrorsAccounted(cfg: Config, s: State, es: seq<Event>, t: string, query: string)
    requires WellFormed(cfg) && Owned(s) && ValidRun(cfg, s, es) && UncutFor(es, t)
    ensures Count(Run(cfg, s, es).errors, (t, query)) == Count(s.errors, (t, query)) + TotalCost(cfg, es, t, query)
  {
    if es != [] {
      var n := |es| - 1;
      ErrorsAccounted(cfg, s, es[..n], t, query);
      RunOwned(cfg, s, es[..n]);
      var here := Run(cfg, s, es[..n]);
      if es[n].Tenant() == t {
        EventErrors(cfg, here, es[n], query);
      } else {
        EventConfined(cfg, here, es[n], t);
        assert SameErrors(t, here.errors, Run(cfg, s, es).errors);
        assert Get(here.errors, (t, query)) == Get(Run(cfg, s, es).errors, (t, query));
      }
    }
  }

  /** A failed, unknown or mis-columned result touches neither a gauge nor the tracking: an unknown one
      does nothing, and any other counts one error, or one panic if the counting panics. */
  lemma RejectedLeavesGauges(cfg: Config, s: State, e: Event)
    requires ValidEvent(cfg, s, e) && e.Apply? && e.msg.QueryResult? && !Accepted(cfg, e.msg)
    ensures var after, t, key := Run1(cfg, s, e), e.msg.tenant, (e.msg.tenant, e.msg.query);
            after == if !e.msg.failed && (e.msg.query !in cfg.spec || e.msg.query !in cfg.gauges) then s
                     else if e.cut == Some(0) then s.(panics := s.panics[t := Count(s.panics, t) + 1])
                     else s.(errors := s.errors[key := Count(s.errors, key) + 1])
  {
    var plan, t, query := PlanOf(cfg, s, e), e.msg.tenant, QueryName(e.msg);
    assert plan == [] || plan == [BumpError];
    assert [Step.BumpError][..0] == [];
    ExecOne(s, t, query, BumpError);
  }
}
