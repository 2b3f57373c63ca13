/** The shadow state is an exact index: diffing against it does what recomputing would do. */
module Diff {
  import opened Values
  import opened Tuples
  import opened Steps
  import opened Outcomes

  ghost predicate HasTuple(q: Query, tenant: string, rows: seq<Row>, t: Tuple) {
    exists row :: row in rows && TupleOf(tenant, q.labels, row) == t
  }

  /** Every live series of the tenant is registered and stored under its own signature, and every
      stored tuple has the query's arity and starts with the tenant. */
  ghost predicate Tracked(cfg: Config, s: State, t: string) {
    && (forall query, sig :: sig in Previous(s, t, query) ==> Stored(cfg, t, query, sig, Previous(s, t, query)[sig]))
    && (forall k :: k in s.series && OwnedBy(k.tuple, t) ==> Indexed(cfg, s, t, k))
  }

  ghost predicate Stored(cfg: Config, t: string, query: string, sig: string, tuple: Tuple) {
    && Signature(tuple) == sig
    && OwnedBy(tuple, t)
    && query in cfg.spec
    && |tuple| == 1 + |cfg.spec[query].labels|
  }

  ghost predicate Indexed(cfg: Config, s: State, t: string, k: Series) {
    && k.query in cfg.gauges
    && k.value in cfg.gauges[k.query]
    && Get(Previous(s, t, k.query), Signature(k.tuple)) == Some(k.tuple)
  }

  /** The series the result will leave exposed unless it deletes them: those it has a number for, and
      those of the tenant and query that are live already. */
  ghost predicate Concerned(cfg: Config, s: State, msg: Message, k: Series)
    requires Accepted(cfg, msg)
  {
    || LastNumber(cfg.spec[msg.query], msg.tenant, msg.rows, k).Some?
    || (k in s.series && k.query == msg.query && OwnedBy(k.tuple, msg.tenant))
  }

  /** No such series has its signature taken by a different tuple of the result. */
  ghost predicate Separated(cfg: Config, s: State, msg: Message)
    requires Accepted(cfg, msg)
  {
    var current := NewTuples(cfg.spec[msg.query], msg.tenant, msg.rows);
    forall k: Series :: Concerned(cfg, s, msg, k) ==>
      Signature(k.tuple) !in current || current[Signature(k.tuple)] == k.tuple
  }

  lemma {:induction false} NewTuplesFaithful(q: Query, tenant: string, rows: seq<Row>)
    ensures var current := NewTuples(q, tenant, rows);
            && (forall sig :: sig in current ==>
                 HasTuple(q, tenant, rows, current[sig]) && Signature(current[sig]) == sig)
            && (forall t :: HasTuple(q, tenant, rows, t) ==> Signature(t) in current)
  {
    if rows != [] {
      var n := |rows| - 1;
      NewTuplesFaithful(q, tenant, rows[..n]);
      var last := TupleOf(tenant, q.labels, rows[n]);
      assert HasTuple(q, tenant, rows, last);
      forall t ensures HasTuple(q, tenant, rows, t) <==> HasTuple(q, tenant, rows[..n], t) || t == last {
        HasTupleSnoc(q, tenant, rows, t);
      }
    }
  }

  lemma HasTupleSnoc(q: Query, tenant: string, rows: seq<Row>, t: Tuple)
    requires rows != []
    ensures HasTuple(q, tenant, rows, t) <==>
              HasTuple(q, tenant, rows[..|rows| - 1], t) || t == TupleOf(tenant, q.labels, rows[|rows| - 1])
  {
  }

  lemma {:induction false} LastNumberSource(q: Query, tenant: string, rows: seq<Row>, k: Series)
    ensures LastNumber(q, tenant, rows, k).Some? ==>
              k.query == q.name && k.value in q.values && HasTuple(q, tenant, rows, k.tuple)
    ensures k.query == q.name && k.value in q.values && HasTuple(q, tenant, rows, k.tuple) && AllNumeric(q, rows) ==>
              LastNumber(q, tenant, rows, k).Some?
  {
    if rows != [] {
      LastNumberSource(q, tenant, rows[..|rows| - 1], k);
      HasTupleSnoc(q, tenant, rows, k.tuple);
    }
  }

  predicate AllNumeric(q: Query, rows: seq<Row>) {
    forall i, v :: 0 <= i < |rows| && v in q.values ==> Numeric(rows[i], v)
  }

  // ----- the index is kept -----

  lemma DropExactly(cfg: Config, s: State, msg: Message, tuple: Tuple)
    requires Accepted(cfg, msg) && Tracked(cfg, s, msg.tenant)
    ensures var q, prev := cfg.spec[msg.query], Previous(s, msg.tenant, msg.query);
            Dropped(prev, NewTuples(q, msg.tenant, msg.rows), tuple) <==>
              && Get(prev, Signature(tuple)) == Some(tuple)
              && Signature(tuple) !in NewTuples(q, msg.tenant, msg.rows)
  {
  }

  /** In a tracked state, what an apply makes of one series can be read off the rows and the series
      alone, provided signatures do not collide. */
  lemma RefreshedByRows(cfg: Config, s: State, msg: Message, k: Series)
    requires WellFormed(cfg) && Accepted(cfg, msg) && Tracked(cfg, s, msg.tenant) && Separated(cfg, s, msg)
    ensures var q := cfg.spec[msg.query];
            RefreshedSeries(cfg, s, msg, k) ==
              if LastNumber(q, msg.tenant, msg.rows, k).Some? then LastNumber(q, msg.tenant, msg.rows, k)
              else if k.query == msg.query && OwnedBy(k.tuple, msg.tenant)
                      && !HasTuple(q, msg.tenant, msg.rows, k.tuple)
              then None
              else Get(s.series, k)
  {
    var q, t := cfg.spec[msg.query], msg.tenant;
    var prev, current := Previous(s, t, msg.query), NewTuples(q, t, msg.rows);
    NewTuplesFaithful(q, t, msg.rows);
    LastNumberSource(q, t, msg.rows, k);
    DropExactly(cfg, s, msg, k.tuple);
    if k.query == msg.query && k in s.series && OwnedBy(k.tuple, t) && !HasTuple(q, t, msg.rows, k.tuple) {
      assert Indexed(cfg, s, t, k);
      assert Concerned(cfg, s, msg, k);
    }
    if Dropped(prev, current, k.tuple) {
      assert Stored(cfg, t, msg.query, Signature(k.tuple), k.tuple);
    }
  }

  lemma StoredAfter(cfg: Config, s: State, msg: Message, after: State)
    requires WellFormed(cfg) && Accepted(cfg, msg) && Tracked(cfg, s, msg.tenant) && Refreshed(cfg, s, msg, after)
    ensures forall query :: Previous(after, msg.tenant, query) ==
              if query == msg.query then NewTuples(cfg.spec[query], msg.tenant, msg.rows)
              else Previous(s, msg.tenant, query)
    ensures forall query, sig :: sig in Previous(after, msg.tenant, query) ==>
              Stored(cfg, msg.tenant, query, sig, Previous(after, msg.tenant, query)[sig])
  {
    NewTuplesFaithful(cfg.spec[msg.query], msg.tenant, msg.rows);
  }

  lemma RefreshKeepsTracked(cfg: Config, s: State, msg: Message, after: State)
    requires WellFormed(cfg) && Accepted(cfg, msg) && Tracked(cfg, s, msg.tenant) && Separated(cfg, s, msg)
    requires Refreshed(cfg, s, msg, after)
    ensures Tracked(cfg, after, msg.tenant)
  {
    var q, t := cfg.spec[msg.query], msg.tenant;
    StoredAfter(cfg, s, msg, after);
    NewTuplesFaithful(q, t, msg.rows);
    forall k | k in after.series && OwnedBy(k.tuple, t) ensures Indexed(cfg, after, t, k) {
      assert Get(after.series, k) == RefreshedSeries(cfg, s, msg, k);
      RefreshedByRows(cfg, s, msg, k);
      LastNumberSource(q, t, msg.rows, k);
      assert k in s.series ==> Indexed(cfg, s, t, k);
      assert k.query == msg.query ==> HasTuple(q, t, msg.rows, k.tuple) && Concerned(cfg, s, msg, k);
    }
  }

  /** The index stays exact if and only if no series is hidden by another tuple under its signature. */
  lemma TrackedIffSeparated(cfg: Config, s: State, e: Event)
    requires WellFormed(cfg) && ValidEvent(cfg, s, e)
    requires e.Apply? && Accepted(cfg, e.msg) && !Panics(cfg, s, e)
    requires Tracked(cfg, s, e.msg.tenant)
    ensures Tracked(cfg, Run1(cfg, s, e), e.msg.tenant) <==> Separated(cfg, s, e.msg)
  {
    var msg, after := e.msg, Run1(cfg, s, e);
    var current := NewTuples(cfg.spec[msg.query], msg.tenant, msg.rows);
    RefreshOutcome(cfg, s, e);
    if Separated(cfg, s, msg) {
      RefreshKeepsTracked(cfg, s, msg, after);
    }
    if Tracked(cfg, after, msg.tenant) {
      StoredAfter(cfg, s, msg, after);
      forall k: Series | Concerned(cfg, s, msg, k) && Signature(k.tuple) in current
        ensures current[Signature(k.tuple)] == k.tuple
      {
        StaysLive(cfg, s, msg, after, k);
        assert Indexed(cfg, after, msg.tenant, k);
      }
    }
  }

  /** A series whose signature is among the new ones is live afterwards. */
  lemma StaysLive(cfg: Config, s: State, msg: Message, after: State, k: Series)
    requires WellFormed(cfg) && Accepted(cfg, msg) && Tracked(cfg, s, msg.tenant) && Refreshed(cfg, s, msg, after)
    requires Concerned(cfg, s, msg, k)
    requires Signature(k.tuple) in NewTuples(cfg.spec[msg.query], msg.tenant, msg.rows)
    ensures OwnedBy(k.tuple, msg.tenant) && k.query == msg.query && k in after.series
  {
    DropExactly(cfg, s, msg, k.tuple);
    LastNumberSource(cfg.spec[msg.query], msg.tenant, msg.rows, k);
    assert Get(after.series, k) == RefreshedSeries(cfg, s, msg, k);
  }

  // ----- what the cells of a result decide -----

  /** A NULL, a missing cell, or one that does not convert. */
  predicate BadCell(row: Row, column: string) {
    column !in row || row[column].Null? || row[column].number.None?
  }

  lemma {:induction false} OnlyBadCells(q: Query, tenant: string, rows: seq<Row>, k: Series)
    requires forall i :: 0 <= i < |rows| && TupleOf(tenant, q.labels, rows[i]) == k.tuple ==> BadCell(rows[i], k.value)
    ensures LastNumber(q, tenant, rows, k).None?
  {
    if rows != [] {
      OnlyBadCells(q, tenant, rows[..|rows| - 1], k);
    }
  }

  /** A series whose cells in the result are all bad keeps its old value, or stays absent. */
  lemma BadCellsKeepSeries(cfg: Config, s: State, e: Event, k: Series)
    requires WellFormed(cfg) && ValidEvent(cfg, s, e) && e.Apply? && Accepted(cfg, e.msg) && !Panics(cfg, s, e)
    requires Tracked(cfg, s, e.msg.tenant) && HasTuple(cfg.spec[e.msg.query], e.msg.tenant, e.msg.rows, k.tuple)
    requires forall i :: 0 <= i < |e.msg.rows| ==>
               TupleOf(e.msg.tenant, cfg.spec[e.msg.query].labels, e.msg.rows[i]) == k.tuple ==>
               BadCell(e.msg.rows[i], k.value)
    ensures Get(Run1(cfg, s, e).series, k) == Get(s.series, k)
  {
    var q, t := cfg.spec[e.msg.query], e.msg.tenant;
    RefreshOutcome(cfg, s, e);
    OnlyBadCells(q, t, e.msg.rows, k);
    DropExactly(cfg, s, e.msg, k.tuple);
    NewTuplesFaithful(q, t, e.msg.rows);
    assert Get(Run1(cfg, s, e).series, k) == RefreshedSeries(cfg, s, e.msg, k);
  }

  lemma {:induction false} LastGoodCell(q: Query, tenant: string, rows: seq<Row>, k: Series, i: nat, n: Number)
    requires i < |rows| && k.query == q.name && k.value in q.values
    requires TupleOf(tenant, q.labels, rows[i]) == k.tuple
    requires k.value in rows[i] && rows[i][k.value].Datum? && rows[i][k.value].number == Some(n)
    requires forall j :: i < j < |rows| && TupleOf(tenant, q.labels, rows[j]) == k.tuple ==> BadCell(rows[j], k.value)
    ensures LastNumber(q, tenant, rows, k) == Some(n)
  {
    if i < |rows| - 1 {
      LastGoodCell(q, tenant, rows[..|rows| - 1], k, i, n);
    }
  }

  /** The last good cell of a series is what it reads afterwards. */
  lemma LastGoodCellDecides(cfg: Config, s: State, e: Event, k: Series, i: nat, n: Number)
    requires WellFormed(cfg) && ValidEvent(cfg, s, e) && e.Apply? && Accepted(cfg, e.msg) && !Panics(cfg, s, e)
    requires Tracked(cfg, s, e.msg.tenant)
    requires i < |e.msg.rows| && k.query == e.msg.query && k.value in cfg.spec[e.msg.query].values
    requires TupleOf(e.msg.tenant, cfg.spec[e.msg.query].labels, e.msg.rows[i]) == k.tuple
    requires var row := e.msg.rows[i];
             k.value in row && row[k.value].Datum? && row[k.value].number == Some(n)
    requires forall j :: i < j < |e.msg.rows| ==>
               TupleOf(e.msg.tenant, cfg.spec[e.msg.query].labels, e.msg.rows[j]) == k.tuple ==>
               BadCell(e.msg.rows[j], k.value)
    ensures Get(Run1(cfg, s, e).series, k) == Some(n)
  {
    var q, t := cfg.spec[e.msg.query], e.msg.tenant;
    RefreshOutcome(cfg, s, e);
    LastGoodCell(q, t, e.msg.rows, k, i, n);
    LastNumberSource(q, t, e.msg.rows, k);
    DropExactly(cfg, s, e.msg, k.tuple);
    NewTuplesFaithful(q, t, e.msg.rows);
    assert Get(Run1(cfg, s, e).series, k) == RefreshedSeries(cfg, s, e.msg, k);
  }

  /** Of rows under one signature the last one's tuple is tracked. */
  lemma {:induction false} LastTupleTracked(q: Query, tenant: string, rows: seq<Row>, i: nat)
    requires i < |rows|
    requires var sig := Signature(TupleOf(tenant, q.labels, rows[i]));
             forall j :: i < j < |rows| ==> Signature(TupleOf(tenant, q.labels, rows[j])) != sig
    ensures var u := TupleOf(tenant, q.labels, rows[i]);
            Get(NewTuples(q, tenant, rows), Signature(u)) == Some(u)
  {
    if i < |rows| - 1 {
      LastTupleTracked(q, tenant, rows[..|rows| - 1], i);
    }
  }

  // ----- the simple recomputation -----

  /** Drop the tenant's series of the query, except tuples the new result still has. */
  ghost function Retain(series: map<Series, Number>, q: Query, tenant: string, rows: seq<Row>): map<Series, Number> {
    map k | k in series && !(k.query == q.name && OwnedBy(k.tuple, tenant) && !HasTuple(q, tenant, rows, k.tuple))
      :: series[k]
  }

  /** Drop the tenant's series of the query altogether. */
  function Wipe(series: map<Series, Number>, q: Query, tenant: string): map<Series, Number> {
    map k | k in series && !(k.query == q.name && OwnedBy(k.tuple, tenant)) :: series[k]
  }

  /** Write every convertible cell, row by row. */
  function Write(series: map<Series, Number>, q: Query, tenant: string, rows: seq<Row>): map<Series, Number> {
    if rows == [] then series
    else
      var n := |rows| - 1;
      Write(series, q, tenant, rows[..n])
      + map v | v in q.values && Numeric(rows[n], v)
          :: Series(q.name, v, TupleOf(tenant, q.labels, rows[n])) := rows[n][v].number.value
  }

  lemma {:induction false} WriteLookup(series: map<Series, Number>, q: Query, tenant: string, rows: seq<Row>, k: Series)
    ensures var number := LastNumber(q, tenant, rows, k);
            Get(Write(series, q, tenant, rows), k) == if number.Some? then number else Get(series, k)
  {
    if rows != [] {
      WriteLookup(series, q, tenant, rows[..|rows| - 1], k);
    }
  }

  /** What a publisher without any shadow state would do with the series it exposes. */
  ghost function Recompute(cfg: Config, series: map<Series, Number>, e: Event): map<Series, Number> {
    if e.Reset? then map k | k in series && !OwnedBy(k.tuple, e.resetTenant) :: series[k]
    else if !Accepted(cfg, e.msg) then series
    else
      var q := cfg.spec[e.msg.query];
      Write(Retain(series, q, e.msg.tenant, e.msg.rows), q, e.msg.tenant, e.msg.rows)
  }

  ghost function RecomputeAll(cfg: Config, series: map<Series, Number>, es: seq<Event>): map<Series, Number> {
    if es == [] then series
    else Recompute(cfg, RecomputeAll(cfg, series, es[..|es| - 1]), es[|es| - 1])
  }

  lemma DiffIsRecompute(cfg: Config, s: State, e: Event)
    requires WellFormed(cfg) && ValidEvent(cfg, s, e) && !Panics(cfg, s, e)
    requires Tracked(cfg, s, e.Tenant())
    requires e.Apply? && Accepted(cfg, e.msg) ==> Separated(cfg, s, e.msg)
    ensures Run1(cfg, s, e).series == Recompute(cfg, s.series, e)
  {
    if e.Apply? && Accepted(cfg, e.msg) {
      var q, t, rows := cfg.spec[e.msg.query], e.msg.tenant, e.msg.rows;
      RefreshOutcome(cfg, s, e);
      forall k ensures Get(Run1(cfg, s, e).series, k) == Get(Recompute(cfg, s.series, e), k) {
        assert Get(Run1(cfg, s, e).series, k) == RefreshedSeries(cfg, s, e.msg, k);
        RefreshedByRows(cfg, s, e.msg, k);
        WriteLookup(Retain(s.series, q, t, rows), q, t, rows, k);
      }
      EqualMaps(Run1(cfg, s, e).series, Recompute(cfg, s.series, e));
    } else if e.Apply? {
      QuietSeries(cfg, s, e);
    }
  }

  /** A message that is not an accepted result leaves every series and the tracking alone. */
  lemma QuietSeries(cfg: Config, s: State, e: Event)
    requires e.Apply? && ValidEvent(cfg, s, e) && !Accepted(cfg, e.msg)
    ensures Run1(cfg, s, e).series == s.series && Run1(cfg, s, e).lastLabels == s.lastLabels
  {
    var plan := PlanOf(cfg, s, e);
    var prefix := if Panics(cfg, s, e) then plan[..e.cut.value] else plan;
    QuietSteps(s, e.msg.tenant, QueryName(e.msg), prefix);
  }

  lemma {:induction false} QuietSteps(s: State, t: string, query: string, steps: seq<Step>)
    requires forall i :: 0 <= i < |steps| ==>
      steps[i].BumpError? || steps[i].SetPool? || steps[i].ObserveEmptyAcquires?
    ensures ExecAll(s, t, query, steps).series == s.series
    ensures ExecAll(s, t, query, steps).lastLabels == s.lastLabels
  {
    if steps != [] {
      var n := |steps| - 1;
      QuietSteps(s, t, query, steps[..n]);
      assert steps[n].BumpError? || steps[n].SetPool? || steps[n].ObserveEmptyAcquires?;
    }
  }

  /** When every cell converts, recomputing is wiping the tenant's series and writing them again. */
  lemma RecomputeIsRepopulate(cfg: Config, s: State, e: Event)
    requires WellFormed(cfg) && e.Apply? && Accepted(cfg, e.msg) && Tracked(cfg, s, e.msg.tenant)
    requires AllNumeric(cfg.spec[e.msg.query], e.msg.rows)
    ensures var q, t := cfg.spec[e.msg.query], e.msg.tenant;
            && Recompute(cfg, s.series, e) == Write(Wipe(s.series, q, t), q, t, e.msg.rows)
            && forall k: Series :: k.query == e.msg.query && OwnedBy(k.tuple, t) && k.value in q.values ==>
                 (k in Recompute(cfg, s.series, e) <==> HasTuple(q, t, e.msg.rows, k.tuple))
  {
    var q, t, rows := cfg.spec[e.msg.query], e.msg.tenant, e.msg.rows;
    var a, b := Recompute(cfg, s.series, e), Write(Wipe(s.series, q, t), q, t, rows);
    forall k: Series ensures Get(a, k) == Get(b, k)
             ensures k.query == e.msg.query && OwnedBy(k.tuple, t) && k.value in q.values ==>
                       (k in a <==> HasTuple(q, t, rows, k.tuple)) {
      WriteLookup(Retain(s.series, q, t, rows), q, t, rows, k);
      WriteLookup(Wipe(s.series, q, t), q, t, rows, k);
      LastNumberSource(q, t, rows, k);
      assert k in s.series && OwnedBy(k.tuple, t) ==> Indexed(cfg, s, t, k);
    }
    EqualMaps(a, b);
  }
}
