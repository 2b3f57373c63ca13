/** How tracking is lost: exactly when a panic loses it, and what a signature collision leaves behind. */
module Damage {
  import opened Values
  import opened Tuples
  import opened Steps
  import opened Outcomes
  import opened Diff
  import Scrape

  // ----- panics -----

  lemma {:induction false} PreviousKept(s: State, t: string, query: string, steps: seq<Step>, other: string)
    requires forall i :: 0 <= i < |steps| ==> !steps[i].Commit?
    ensures Previous(ExecAll(s, t, query, steps), t, other) == Previous(s, t, other)
  {
    if steps != [] {
      var n := |steps| - 1;
      PreviousKept(s, t, query, steps[..n], other);
      StepKeepsPrevious(ExecAll(s, t, query, steps[..n]), t, query, steps[n], other);
    }
  }

  lemma StepKeepsPrevious(s: State, t: string, query: string, step: Step, other: string)
    requires !step.Commit?
    ensures Previous(Exec(s, t, query, step), t, other) == Previous(s, t, other)
  {
  }

  /** The step writes the series. */
  predicate WritesTo(query: string, step: Step, k: Series) {
    Scrape.Writes(step) && k == Series(query, step.value, step.tuple)
  }

  lemma {:induction false} OldOrWritten(s: State, t: string, query: string, steps: seq<Step>, k: Series)
    requires k in ExecAll(s, t, query, steps).series
    ensures k in s.series || exists i :: 0 <= i < |steps| && WritesTo(query, steps[i], k)
  {
    if steps != [] {
      var n := |steps| - 1;
      var here := ExecAll(s, t, query, steps[..n]);
      ExecTouch(here, t, query, steps[n], k);
      if k in here.series {
        OldOrWritten(s, t, query, steps[..n], k);
      } else {
        assert WritesTo(query, steps[n], k);
      }
    }
  }

  lemma TouchKeeps(query: string, k: Series, step: Step, now: Option<Number>)
    requires now.Some? || WritesTo(query, step, k)
    requires step.Delete? ==> step.tuple != k.tuple
    ensures Touch(query, k, step, now).Some?
  {
  }

  lemma {:induction false} WriteStays(
    query: string, steps: seq<Step>, i: nat, n: nat, k: Series, before: Option<Number>)
    requires i < n <= |steps| && WritesTo(query, steps[i], k)
    requires forall j :: i < j < n && steps[j].Delete? ==> steps[j].tuple != k.tuple
    ensures Touched(query, k, steps[..n], before).Some?
  {
    assert steps[..n][..n - 1] == steps[..n - 1];
    if i < n - 1 {
      WriteStays(query, steps, i, n - 1, k, before);
    }
    TouchKeeps(query, k, steps[n - 1], Touched(query, k, steps[..n - 1], before));
  }

  ghost predicate DeletesStale(prev: Tracking, current: Tracking, steps: seq<Step>) {
    forall j :: 0 <= j < |steps| && steps[j].Delete? ==> Dropped(prev, current, steps[j].tuple)
  }

  lemma {:induction false} DeleteStepsStale(
    prev: Tracking, current: Tracking, sigs: seq<string>, gauges: seq<seq<string>>)
    requires |gauges| == |sigs|
    ensures DeletesStale(prev, current, DeleteSteps(prev, current, sigs, gauges))
  {
    if sigs != [] {
      DeleteStepsStale(prev, current, sigs[..|sigs| - 1], gauges[..|sigs| - 1]);
    }
  }

  /** Only the last step of a plan commits, and a plan deletes only stale tuples. */
  lemma PlanParts(cfg: Config, s: State, e: Event)
    requires WellFormed(cfg) && e.Apply? && ValidEvent(cfg, s, e)
    ensures var plan := PlanOf(cfg, s, e);
            && (forall i :: 0 <= i < |plan| - 1 ==> !plan[i].Commit?)
            && (Accepted(cfg, e.msg) ==>
                 DeletesStale(Previous(s, e.msg.tenant, e.msg.query),
                              NewTuples(cfg.spec[e.msg.query], e.msg.tenant, e.msg.rows), plan))
  {
    if Accepted(cfg, e.msg) {
      var q, t, sched := cfg.spec[e.msg.query], e.msg.tenant, e.sched;
      var prev, current := Previous(s, t, e.msg.query), NewTuples(q, t, e.msg.rows);
      var sets := SetSteps(q, t, e.msg.rows, sched.columns);
      var deletes := DeleteSteps(prev, current, sched.tracked, sched.gauges);
      SetBumps(q, t, e.msg.rows, sched.columns);
      DeletesOnly(prev, current, sched.tracked, sched.gauges);
      DeleteStepsStale(prev, current, sched.tracked, sched.gauges);
      Scrape.SetsShape(cfg, e.msg, sched.columns);
      PartsJoin(prev, current, sets, deletes);
      assert PlanOf(cfg, s, e) == [OpenTenant] + sets + deletes + [Commit(current)];
    }
  }

  lemma PartsJoin(prev: Tracking, current: Tracking, sets: seq<Step>, deletes: seq<Step>)
    requires GaugeSteps(sets) && Scrape.NoDeletes(sets)
    requires forall i :: 0 <= i < |deletes| ==> deletes[i].Delete?
    requires DeletesStale(prev, current, deletes)
    ensures var plan := [OpenTenant] + sets + deletes + [Commit(current)];
            && (forall i :: 0 <= i < |plan| - 1 ==> !plan[i].Commit?)
            && DeletesStale(prev, current, plan)
  {
  }

  /** Every series written is one the result has a number for. */
  lemma WrittenHasNumber(cfg: Config, s: State, e: Event, i: nat)
    requires WellFormed(cfg) && e.Apply? && ValidEvent(cfg, s, e)
    requires i < |PlanOf(cfg, s, e)| && Scrape.Writes(PlanOf(cfg, s, e)[i])
    ensures Accepted(cfg, e.msg)
    ensures var step := PlanOf(cfg, s, e)[i];
            LastNumber(cfg.spec[e.msg.query], e.msg.tenant, e.msg.rows,
                       Series(e.msg.query, step.value, step.tuple)).Some?
  {
    var plan := PlanOf(cfg, s, e);
    var n := if plan[i].Set? then i else i + 1;
    Scrape.PlanShape(cfg, s, e);
    assert plan[i].Create? ==> Scrape.CreatesFor(plan[i], plan[i + 1]);
    Scrape.SetHasNumber(cfg, e.msg, plan, Series(QueryName(e.msg), plan[n].value, plan[n].tuple), n);
  }

  /** Every series written before the panic has a tuple that was already tracked. */
  ghost predicate WroteTrackedOnly(cfg: Config, s: State, e: Event)
    requires e.Apply? && ValidEvent(cfg, s, e) && Panics(cfg, s, e)
  {
    var plan := PlanOf(cfg, s, e);
    forall i :: 0 <= i < e.cut.value && Scrape.Writes(plan[i]) ==>
      Get(Previous(s, e.msg.tenant, QueryName(e.msg)), Signature(plan[i].tuple)) == Some(plan[i].tuple)
  }

  lemma PanicKeepsPrevious(cfg: Config, s: State, e: Event, other: string)
    requires WellFormed(cfg) && e.Apply? && ValidEvent(cfg, s, e) && Panics(cfg, s, e)
    ensures Previous(Run1(cfg, s, e), e.msg.tenant, other) == Previous(s, e.msg.tenant, other)
  {
    PlanParts(cfg, s, e);
    PreviousKept(s, e.msg.tenant, QueryName(e.msg), PlanOf(cfg, s, e)[..e.cut.value], other);
  }

  /** Every series after a panic was there before, or was written. */
  lemma PanicSeries(cfg: Config, s: State, e: Event, k: Series)
    requires WellFormed(cfg) && e.Apply? && ValidEvent(cfg, s, e) && Panics(cfg, s, e)
    requires WroteTrackedOnly(cfg, s, e) && k in Run1(cfg, s, e).series
    ensures k in s.series
         || (&& k.query in cfg.gauges && k.value in cfg.gauges[k.query]
             && Get(Previous(s, e.msg.tenant, k.query), Signature(k.tuple)) == Some(k.tuple))
  {
    var plan, n := PlanOf(cfg, s, e), e.cut.value;
    OldOrWritten(s, e.msg.tenant, QueryName(e.msg), plan[..n], k);
    if k !in s.series {
      var i :| 0 <= i < n && WritesTo(QueryName(e.msg), plan[..n][i], k);
      assert Scrape.Writes(plan[i]);
      WrittenIsRegistered(cfg, s, e, i, k);
    }
  }

  lemma WrittenIsRegistered(cfg: Config, s: State, e: Event, i: nat, k: Series)
    requires WellFormed(cfg) && e.Apply? && ValidEvent(cfg, s, e)
    requires i < |PlanOf(cfg, s, e)| && WritesTo(QueryName(e.msg), PlanOf(cfg, s, e)[i], k)
    ensures k.query == QueryName(e.msg) && k.query in cfg.gauges && k.value in cfg.gauges[k.query]
  {
    WrittenHasNumber(cfg, s, e, i);
    LastNumberSource(cfg.spec[e.msg.query], e.msg.tenant, e.msg.rows, k);
  }

  /** A panic leaves the index exact in precisely these cases; otherwise some series of the tenant
      stays exposed that no later apply knows to delete. */
  lemma PanicKeepsTrackedIff(cfg: Config, s: State, e: Event)
    requires WellFormed(cfg) && e.Apply? && ValidEvent(cfg, s, e) && Panics(cfg, s, e)
    requires Tracked(cfg, s, e.msg.tenant)
    ensures Tracked(cfg, Run1(cfg, s, e), e.msg.tenant) <==> WroteTrackedOnly(cfg, s, e)
  {
    var t, query, plan, after := e.msg.tenant, QueryName(e.msg), PlanOf(cfg, s, e), Run1(cfg, s, e);
    forall other ensures Previous(after, t, other) == Previous(s, t, other) {
      PanicKeepsPrevious(cfg, s, e, other);
    }
    if WroteTrackedOnly(cfg, s, e) {
      forall k | k in after.series && OwnedBy(k.tuple, t) ensures Indexed(cfg, after, t, k) {
        PanicSeries(cfg, s, e, k);
        assert k in s.series ==> Indexed(cfg, s, t, k);
      }
    }
    if Tracked(cfg, after, t) {
      forall i | 0 <= i < e.cut.value && Scrape.Writes(plan[i])
        ensures Get(Previous(s, t, query), Signature(plan[i].tuple)) == Some(plan[i].tuple)
      {
        WrittenSurvives(cfg, s, e, i);
        assert Indexed(cfg, after, t, Series(query, plan[i].value, plan[i].tuple));
      }
    }
  }

  /** What an apply writes before a panic is still there after it. */
  lemma WrittenSurvives(cfg: Config, s: State, e: Event, i: nat)
    requires WellFormed(cfg) && e.Apply? && ValidEvent(cfg, s, e) && Panics(cfg, s, e)
    requires Tracked(cfg, s, e.msg.tenant)
    requires i < e.cut.value && Scrape.Writes(PlanOf(cfg, s, e)[i])
    ensures var step := PlanOf(cfg, s, e)[i];
            OwnedBy(step.tuple, e.msg.tenant)
            && Series(QueryName(e.msg), step.value, step.tuple) in Run1(cfg, s, e).series
  {
    var t, query, plan, n := e.msg.tenant, QueryName(e.msg), PlanOf(cfg, s, e), e.cut.value;
    var u := plan[i].tuple;
    WrittenHasNumber(cfg, s, e, i);
    PlanParts(cfg, s, e);
    var q := cfg.spec[query];
    NewTuplesFaithful(q, t, e.msg.rows);
    LastNumberSource(q, t, e.msg.rows, Series(query, plan[i].value, u));
    DropExactly(cfg, s, e.msg, u);
    forall j | i < j < n && plan[j].Delete? ensures plan[j].tuple != u {
      assert Dropped(Previous(s, t, query), NewTuples(q, t, e.msg.rows), plan[j].tuple);
    }
    var k := Series(query, plan[i].value, u);
    WriteStays(query, plan, i, n, k, Get(s.series, k));
    ExecTouched(s, t, query, plan[..n], k);
  }

  // ----- panics, before the call -----

  /** Every series the result has a number for is tracked already. */
  ghost predicate NothingNew(cfg: Config, s: State, msg: Message)
    requires Accepted(cfg, msg)
  {
    forall k: Series :: LastNumber(cfg.spec[msg.query], msg.tenant, msg.rows, k).Some? ==>
      Get(Previous(s, msg.tenant, msg.query), Signature(k.tuple)) == Some(k.tuple)
  }

  /** However the maps are iterated and wherever the apply panics, the index stays exact. */
  ghost predicate PanicProof(cfg: Config, s: State, msg: Message) {
    forall e: Event :: e.Apply? && e.msg == msg && ValidEvent(cfg, s, e) && Panics(cfg, s, e) ==>
      Tracked(cfg, Run1(cfg, s, e), msg.tenant)
  }

  /** The last step of a plan stores the tuples; a panic there comes after every write. */
  lemma LastMomentPanic(cfg: Config, s: State, msg: Message) returns (e: Event)
    requires WellFormed(cfg) && Accepted(cfg, msg)
    ensures e.Apply? && e.msg == msg && ValidEvent(cfg, s, e) && Panics(cfg, s, e)
    ensures e.cut.value == |PlanOf(cfg, s, e)| - 1
  {
    var sched := ScheduleExists(cfg, Previous(s, msg.tenant, msg.query), msg);
    var whole := Apply(msg, sched, None);
    assert ValidEvent(cfg, s, whole);
    e := Apply(msg, sched, Some(|PlanOf(cfg, s, whole)| - 1));
  }

  lemma NumberedIsWritten(cfg: Config, s: State, e: Event, k: Series) returns (i: nat)
    requires WellFormed(cfg) && e.Apply? && ValidEvent(cfg, s, e) && Accepted(cfg, e.msg)
    requires LastNumber(cfg.spec[e.msg.query], e.msg.tenant, e.msg.rows, k).Some?
    ensures i < |PlanOf(cfg, s, e)| - 1 && WritesTo(e.msg.query, PlanOf(cfg, s, e)[i], k)
  {
    var plan, bare := PlanOf(cfg, s, e), s.(series := map[]);
    var n := 1 + |SetSteps(cfg.spec[e.msg.query], e.msg.tenant, e.msg.rows, e.sched.columns)|;
    PlanIgnoresSeries(cfg, s, e);
    Scrape.SetsDone(cfg, bare, e, k);
    OldOrWritten(bare, e.msg.tenant, e.msg.query, plan[..n], k);
    i :| 0 <= i < n && WritesTo(e.msg.query, plan[..n][i], k);
  }

  lemma PlanIgnoresSeries(cfg: Config, s: State, e: Event)
    requires e.Apply? && ValidEvent(cfg, s, e) && Accepted(cfg, e.msg)
    ensures ValidEvent(cfg, s.(series := map[]), e)
    ensures PlanOf(cfg, s.(series := map[]), e) == PlanOf(cfg, s, e)
    ensures 1 + |SetSteps(cfg.spec[e.msg.query], e.msg.tenant, e.msg.rows, e.sched.columns)| < |PlanOf(cfg, s, e)|
  {
    assert Previous(s.(series := map[]), e.msg.tenant, e.msg.query) == Previous(s, e.msg.tenant, e.msg.query);
  }

  /** An apply survives every panic with an exact index if and only if it brings no new series. */
  lemma PanicProofIffNothingNew(cfg: Config, s: State, msg: Message)
    requires WellFormed(cfg) && Accepted(cfg, msg) && Tracked(cfg, s, msg.tenant)
    ensures PanicProof(cfg, s, msg) <==> NothingNew(cfg, s, msg)
  {
    if NothingNew(cfg, s, msg) {
      forall e: Event | e.Apply? && e.msg == msg && ValidEvent(cfg, s, e) && Panics(cfg, s, e)
        ensures Tracked(cfg, Run1(cfg, s, e), msg.tenant)
      {
        NothingNewIsSafe(cfg, s, e);
      }
    }
    if PanicProof(cfg, s, msg) {
      var e := LastMomentPanic(cfg, s, msg);
      PanicKeepsTrackedIff(cfg, s, e);
      forall k: Series | LastNumber(cfg.spec[msg.query], msg.tenant, msg.rows, k).Some?
        ensures Get(Previous(s, msg.tenant, msg.query), Signature(k.tuple)) == Some(k.tuple)
      {
        var i := NumberedIsWritten(cfg, s, e, k);
      }
    }
  }

  lemma NothingNewIsSafe(cfg: Config, s: State, e: Event)
    requires WellFormed(cfg) && e.Apply? && ValidEvent(cfg, s, e) && Panics(cfg, s, e)
    requires Accepted(cfg, e.msg) && Tracked(cfg, s, e.msg.tenant) && NothingNew(cfg, s, e.msg)
    ensures Tracked(cfg, Run1(cfg, s, e), e.msg.tenant)
  {
    var plan := PlanOf(cfg, s, e);
    forall i | 0 <= i < e.cut.value && Scrape.Writes(plan[i])
      ensures Get(Previous(s, e.msg.tenant, e.msg.query), Signature(plan[i].tuple)) == Some(plan[i].tuple)
    {
      WrittenHasNumber(cfg, s, e, i);
    }
    PanicKeepsTrackedIff(cfg, s, e);
  }

  // ----- collisions -----

  /** An empty result removes a live series only if its very tuple is tracked. */
  lemma EmptyResultKeeps(cfg: Config, s: State, e: Event, k: Series)
    requires WellFormed(cfg) && e.Apply? && ValidEvent(cfg, s, e) && !Panics(cfg, s, e)
    requires Accepted(cfg, e.msg) && e.msg.rows == []
    requires k in s.series && forall sig :: sig in Previous(s, e.msg.tenant, e.msg.query) ==>
               Previous(s, e.msg.tenant, e.msg.query)[sig] != k.tuple
    ensures k in Run1(cfg, s, e).series
  {
    RefreshOutcome(cfg, s, e);
    assert Get(Run1(cfg, s, e).series, k) == RefreshedSeries(cfg, s, e.msg, k);
  }

  /** A series the result has a number for, whose signature another tuple took, is exposed, but its
      tuple is nowhere tracked. */
  lemma HiddenSeries(cfg: Config, s: State, d: Event, k: Series)
    requires WellFormed(cfg) && Tracked(cfg, s, d.Tenant())
    requires d.Apply? && ValidEvent(cfg, s, d) && Accepted(cfg, d.msg) && !Panics(cfg, s, d)
    requires LastNumber(cfg.spec[d.msg.query], d.msg.tenant, d.msg.rows, k).Some?
    requires Get(NewTuples(cfg.spec[d.msg.query], d.msg.tenant, d.msg.rows), Signature(k.tuple)) != Some(k.tuple)
    ensures var tracked := Previous(Run1(cfg, s, d), d.msg.tenant, d.msg.query);
            k in Run1(cfg, s, d).series && forall sig :: sig in tracked ==> tracked[sig] != k.tuple
  {
    RefreshOutcome(cfg, s, d);
    NewTuplesFaithful(cfg.spec[d.msg.query], d.msg.tenant, d.msg.rows);
    LastNumberSource(cfg.spec[d.msg.query], d.msg.tenant, d.msg.rows, k);
    StaysLive(cfg, s, d.msg, Run1(cfg, s, d), k);
  }

  /** Two tuples of a result, each with a number, under one signature: a following empty result, which
      should remove both, leaves a series of one of them exposed. */
  lemma CollisionLeaks(cfg: Config, s: State, d: Event, e: Event, j: Series, k: Series)
    requires WellFormed(cfg) && Tracked(cfg, s, d.Tenant())
    requires d.Apply? && ValidEvent(cfg, s, d) && Accepted(cfg, d.msg) && !Panics(cfg, s, d)
    requires LastNumber(cfg.spec[d.msg.query], d.msg.tenant, d.msg.rows, j).Some?
    requires LastNumber(cfg.spec[d.msg.query], d.msg.tenant, d.msg.rows, k).Some?
    requires j.tuple != k.tuple && Signature(j.tuple) == Signature(k.tuple)
    requires e.Apply? && e.msg == d.msg.(rows := [])
    requires ValidEvent(cfg, Run1(cfg, s, d), e) && !Panics(cfg, Run1(cfg, s, d), e)
    ensures var after := Run1(cfg, Run1(cfg, s, d), e); j in after.series || k in after.series
  {
    var current := NewTuples(cfg.spec[d.msg.query], d.msg.tenant, d.msg.rows);
    var hidden := if Get(current, Signature(j.tuple)) == Some(j.tuple) then k else j;
    HiddenSeries(cfg, s, d, hidden);
    EmptyResultKeeps(cfg, Run1(cfg, s, d), e, hidden);
  }

  const LEAKY := Query("q", "", ["l", "m"], ["v"], "", 0)

  function LeakyRow(l: string, m: string): Row {
    map["l" := Datum(l, None), "m" := Datum(m, None), "v" := Datum("1", Some(Finite(1.0)))]
  }

  const LEAKY_CONFIG := Config(map["q" := LEAKY], map["q" := {"v"}])

  const LEAKY_RESULT :=
    QueryResult("t", "q", [LeakyRow("a\0", "b"), LeakyRow("a", "\0b")], ["l", "m", "v"], false)

  const CLEAN_RESULT := LEAKY_RESULT.(rows := [LeakyRow("a", "b")])

  const FIRST_LEAK := Series("q", "v", ["t", "a\0", "b"])
  const SECOND_LEAK := Series("q", "v", ["t", "a", "\0b"])

  lemma LeakySeries()
    ensures WellFormed(LEAKY_CONFIG) && Accepted(LEAKY_CONFIG, LEAKY_RESULT)
    ensures LastNumber(LEAKY, "t", LEAKY_RESULT.rows, FIRST_LEAK).Some?
    ensures LastNumber(LEAKY, "t", LEAKY_RESULT.rows, SECOND_LEAK).Some?
  {
    var rows := LEAKY_RESULT.rows;
    assert ValueSet(LEAKY) == {"v"};
    assert TupleOf("t", LEAKY.labels, rows[0]) == FIRST_LEAK.tuple;
    assert TupleOf("t", LEAKY.labels, rows[1]) == SECOND_LEAK.tuple;
    assert Numeric(rows[0], "v") && Numeric(rows[1], "v");
    Scrape.OfferedHasNumber(LEAKY, "t", rows, FIRST_LEAK, 0, Finite(1.0));
    Scrape.OfferedHasNumber(LEAKY, "t", rows, SECOND_LEAK, 1, Finite(1.0));
  }

  /** Text with a NUL at a label boundary does collide: from the start, whatever the iteration orders,
      an empty result leaves a series behind. */
  lemma NulInLabelsLeaks(d: Event, e: Event)
    requires d.Apply? && d.cut.None? && d.msg == LEAKY_RESULT && ValidEvent(LEAKY_CONFIG, INITIAL, d)
    requires e.Apply? && e.cut.None? && e.msg == LEAKY_RESULT.(rows := [])
    requires ValidEvent(LEAKY_CONFIG, Run1(LEAKY_CONFIG, INITIAL, d), e)
    ensures !Tracked(LEAKY_CONFIG, Run1(LEAKY_CONFIG, INITIAL, d), "t")
    ensures Run1(LEAKY_CONFIG, Run1(LEAKY_CONFIG, INITIAL, d), e).series != map[]
  {
    LeakySeries();
    SignatureCollides();
    assert Tracked(LEAKY_CONFIG, INITIAL, "t");
    CollisionLeaks(LEAKY_CONFIG, INITIAL, d, e, FIRST_LEAK, SECOND_LEAK);
    HiddenOne(d);
  }

  lemma HiddenOne(d: Event)
    requires d.Apply? && d.cut.None? && d.msg == LEAKY_RESULT && ValidEvent(LEAKY_CONFIG, INITIAL, d)
    ensures !Tracked(LEAKY_CONFIG, Run1(LEAKY_CONFIG, INITIAL, d), "t")
  {
    LeakySeries();
    SignatureCollides();
    assert Tracked(LEAKY_CONFIG, INITIAL, "t");
    LastNumberSource(LEAKY, "t", LEAKY_RESULT.rows, FIRST_LEAK);
    NewTuplesFaithful(LEAKY, "t", LEAKY_RESULT.rows);
    assert Concerned(LEAKY_CONFIG, INITIAL, LEAKY_RESULT, FIRST_LEAK);
    assert Concerned(LEAKY_CONFIG, INITIAL, LEAKY_RESULT, SECOND_LEAK);
    TrackedIffSeparated(LEAKY_CONFIG, INITIAL, d);
  }

  /** The first steps of applying one row with a new tuple. */
  function NewRowSteps(): seq<Step> {
    [OpenTenant, Create("v", ["t", "a", "b"]), Step.Set("v", ["t", "a", "b"], Finite(1.0))]
  }

  lemma OneColumn(order: seq<string>)
    requires Enumerates(order, {"v"})
    ensures order == ["v"]
  {
    EnumerationSize(order, {"v"});
    assert order[0] in order;
  }

  lemma CleanRowSteps()
    ensures RowSteps(LEAKY, "t", CLEAN_RESULT.rows[0], ["v"]) == NewRowSteps()[1..]
  {
    var row := CLEAN_RESULT.rows[0];
    assert TupleOf("t", LEAKY.labels, row) == ["t", "a", "b"];
    assert NumberOf(CellAt(row, "v")) == Some(Finite(1.0));
    assert ["v"][..0] == [];
  }

  lemma CleanPlanStarts(e: Event)
    requires e.Apply? && e.msg == CLEAN_RESULT && ValidEvent(LEAKY_CONFIG, INITIAL, e)
    ensures NewRowSteps() < PlanOf(LEAKY_CONFIG, INITIAL, e)
  {
    var columns := e.sched.columns;
    assert ValueSet(LEAKY) == {"v"};
    assert Accepted(LEAKY_CONFIG, CLEAN_RESULT);
    OneColumn(columns[0]);
    CleanRowSteps();
    assert SetSteps(LEAKY, "t", CLEAN_RESULT.rows[..0], columns[..0]) == [];
    assert SetSteps(LEAKY, "t", CLEAN_RESULT.rows, columns) == NewRowSteps()[1..];
  }

  lemma NewRowWritten()
    ensures var s := ExecAll(INITIAL, "t", "q", NewRowSteps());
            s.series == map[Series("q", "v", ["t", "a", "b"]) := Finite(1.0)]
            && Previous(s, "t", "q") == map[]
  {
    var steps := NewRowSteps();
    assert steps[..0] == [] && steps[..3] == steps;
    ExecNext(INITIAL, "t", "q", steps, 0);
    ExecNext(INITIAL, "t", "q", steps, 1);
    ExecNext(INITIAL, "t", "q", steps, 2);
  }

  /** A panic loses a series that a clean apply would track: from the start, one row with a new tuple and
      a panic after its first write, whatever the iteration orders. */
  lemma PanicLosesNewSeries(e: Event)
    requires e.Apply? && e.msg == CLEAN_RESULT && e.cut == Some(3) && ValidEvent(LEAKY_CONFIG, INITIAL, e)
    ensures Panics(LEAKY_CONFIG, INITIAL, e)
    ensures Run1(LEAKY_CONFIG, INITIAL, e).series == map[Series("q", "v", ["t", "a", "b"]) := Finite(1.0)]
    ensures !Tracked(LEAKY_CONFIG, Run1(LEAKY_CONFIG, INITIAL, e), "t")
  {
    CleanPlanStarts(e);
    NewRowWritten();
    var after := Run1(LEAKY_CONFIG, INITIAL, e);
    assert PlanOf(LEAKY_CONFIG, INITIAL, e)[..3] == NewRowSteps();
    assert Series("q", "v", ["t", "a", "b"]) in after.series;
    assert !Indexed(LEAKY_CONFIG, after, "t", Series("q", "v", ["t", "a", "b"]));
  }
}
