/** From the database to the gauges: runs in which every query is answered by the catalog, and where an
    exposed series comes from. */
module Provenance {
  import opened Values
  import opened Steps
  import opened Cadence
  import opened Cycles
  import opened Discipline
  import opened EndToEnd
  import Protocol
  import Scrape
  import Catalog
  import Publishing

  /** What the driver yields for each query of each cycle: tenant, cycle, and place among the due queries.
      Every query of a cycle runs at most once, so this fixes no more than the database's behaviour. */
  type Database = (nat, nat, nat) -> Catalog.Script

  /** The cycle's message for the k-th due query. */
  function AnswerTo(db: Database, maxRows: int, name: string, c: Cycle, t: nat, i: nat, k: nat): Message
    requires k < |c.due| && Catalog.WellShaped(db(t, i, k))
  {
    Catalog.MessageOf(name, c.due[k].name, Catalog.AnswerOf(db(t, i, k), maxRows))
  }

  ghost predicate Shaped(db: Database) {
    forall t: nat, i: nat, k: nat :: Catalog.WellShaped(db(t, i, k))
  }

  /** The action, if a query returns, returns what the catalog makes of the database. */
  ghost predicate FromDatabase(db: Database, maxRows: int, s: System, a: Action)
    requires Shaped(db) && Enabled(s, a)
  {
    a.StepOf? && a.step.QueryReturns? ==>
      var c := s.tenants[a.tenant].cycles[a.cycle];
      c.at.k < |c.due| ==>
        QueryResult(s.tenants[a.tenant].name, c.due[c.at.k].name, a.step.rows, a.step.cols, a.step.failed)
          == AnswerTo(db, maxRows, s.tenants[a.tenant].name, c, a.tenant, a.cycle, c.at.k)
  }

  ghost predicate Answered(db: Database, maxRows: int, qs: seq<Query>, start: System, actions: seq<Action>)
    requires Shaped(db) && ValidTrace(qs, start, actions)
  {
    forall n :: 0 <= n < |actions| ==> AnsweredAt(db, maxRows, qs, start, actions, n)
  }

  ghost predicate AnsweredAt(db: Database, maxRows: int, qs: seq<Query>, start: System, actions: seq<Action>, n: nat)
    requires Shaped(db) && n < |actions|
  {
    ValidTrace(qs, start, actions[..n])
    && Enabled(After(qs, start, actions[..n]), actions[n])
    && FromDatabase(db, maxRows, After(qs, start, actions[..n]), actions[n])
  }

  /** Every result a cycle has sent or holds is the catalog's answer. */
  ghost predicate CycleAnswered(db: Database, maxRows: int, name: string, c: Cycle, t: nat, i: nat)
    requires Shaped(db)
  {
    && (forall k :: 0 <= k < |c.sent| && k < |c.due| ==> c.sent[k] == AnswerTo(db, maxRows, name, c, t, i, k))
    && (c.at.Sending? && c.at.k < |c.due| ==> c.at.result == AnswerTo(db, maxRows, name, c, t, i, c.at.k))
  }

  ghost predicate TenantAnswered(db: Database, maxRows: int, tenant: Tenant, t: nat)
    requires Shaped(db)
  {
    forall i :: 0 <= i < |tenant.cycles| ==> CycleAnswered(db, maxRows, tenant.name, tenant.cycles[i], t, i)
  }

  ghost predicate AllAnswered(db: Database, maxRows: int, s: System)
    requires Shaped(db)
  {
    forall t :: 0 <= t < |s.tenants| ==> TenantAnswered(db, maxRows, s.tenants[t], t)
  }

  lemma StepAnswered(db: Database, maxRows: int, s: System, t: nat, i: nat, step: CycleStep)
    requires Shaped(db) && Enabled(s, StepOf(t, i, step)) && FromDatabase(db, maxRows, s, StepOf(t, i, step))
    requires var c := s.tenants[t].cycles[i];
             CycleOk(s.tenants[t].name, c) && CycleAnswered(db, maxRows, s.tenants[t].name, c, t, i)
    ensures var name := s.tenants[t].name;
            CycleAnswered(db, maxRows, name, StepCycle(name, s.tenants[t].cycles[i], step), t, i)
  {
  }

  lemma StepTenantAnswered(db: Database, maxRows: int, qs: seq<Query>, s: System, t: nat, i: nat, step: CycleStep)
    requires Shaped(db) && Enabled(s, StepOf(t, i, step)) && FromDatabase(db, maxRows, s, StepOf(t, i, step))
    requires TenantOk(qs, s.tenants[t]) && TenantAnswered(db, maxRows, s.tenants[t], t)
    ensures TenantAnswered(db, maxRows, StepTenant(s.tenants[t], i, step), t)
  {
    var tenant, after := s.tenants[t], StepTenant(s.tenants[t], i, step);
    assert CycleOk(tenant.name, tenant.cycles[i]);
    StepAnswered(db, maxRows, s, t, i, step);
    forall j | 0 <= j < |after.cycles| ensures CycleAnswered(db, maxRows, after.name, after.cycles[j], t, j) {
      assert CycleAnswered(db, maxRows, tenant.name, tenant.cycles[j], t, j);
    }
  }

  lemma OneTenantAnswered(db: Database, maxRows: int, s: System, t: nat, after: Tenant)
    requires Shaped(db) && AllAnswered(db, maxRows, s) && t < |s.tenants| && TenantAnswered(db, maxRows, after, t)
    ensures AllAnswered(db, maxRows, s.(tenants := s.tenants[t := after]))
  {
  }

  lemma CancelAnswered(db: Database, maxRows: int, tenant: Tenant, t: nat)
    requires Shaped(db) && TenantAnswered(db, maxRows, tenant, t)
    ensures TenantAnswered(db, maxRows, tenant.(cycles := CancelNewest(tenant.cycles)), t)
  {
    forall i | 0 <= i < |tenant.cycles|
      ensures CycleAnswered(db, maxRows, tenant.name, CancelNewest(tenant.cycles)[i], t, i)
    {
      assert CycleAnswered(db, maxRows, tenant.name, tenant.cycles[i], t, i);
    }
  }

  lemma FireAnswered(db: Database, maxRows: int, qs: seq<Query>, tenant: Tenant, t: nat, now: int, root: bool)
    requires Shaped(db) && TenantAnswered(db, maxRows, tenant, t)
    ensures TenantAnswered(db, maxRows, FireTenant(qs, tenant, now, root), t)
  {
    CancelAnswered(db, maxRows, tenant, t);
    var after, old' := FireTenant(qs, tenant, now, root), tenant.(cycles := CancelNewest(tenant.cycles));
    forall i | 0 <= i < |after.cycles| ensures CycleAnswered(db, maxRows, after.name, after.cycles[i], t, i) {
      if i < |old'.cycles| {
        assert CycleAnswered(db, maxRows, old'.name, old'.cycles[i], t, i);
      }
    }
  }

  lemma ActionAnswered(db: Database, maxRows: int, qs: seq<Query>, s: System, a: Action)
    requires Shaped(db) && SystemOk(qs, s) && AllAnswered(db, maxRows, s)
    requires Enabled(s, a) && FromDatabase(db, maxRows, s, a)
    ensures AllAnswered(db, maxRows, Do(qs, s, a))
  {
    match a
    case Fire(t, now) =>
      FireAnswered(db, maxRows, qs, s.tenants[t], t, now, s.root);
      OneTenantAnswered(db, maxRows, s, t, FireTenant(qs, s.tenants[t], now, s.root));
    case Return(t) =>
      CancelAnswered(db, maxRows, s.tenants[t], t);
      OneTenantAnswered(db, maxRows, s, t, ReturnTenant(s.tenants[t]));
    case StepOf(t, i, step) =>
      StepTenantAnswered(db, maxRows, qs, s, t, i, step);
      OneTenantAnswered(db, maxRows, s, t, StepTenant(s.tenants[t], i, step));
    case RootCancel =>
    case Receive =>
    case PublisherReturn =>
    case CloseInbox =>
  }

  lemma {:induction false} AlwaysAnswered(
    db: Database, maxRows: int, qs: seq<Query>, start: System, actions: seq<Action>)
    requires Shaped(db) && Initial(start) && ValidTrace(qs, start, actions)
    requires Answered(db, maxRows, qs, start, actions)
    ensures AllAnswered(db, maxRows, After(qs, start, actions))
  {
    if actions != [] {
      var n := |actions| - 1;
      forall m | 0 <= m < n ensures AnsweredAt(db, maxRows, qs, start, actions[..n], m) {
        assert AnsweredAt(db, maxRows, qs, start, actions, m);
        assert actions[..n][..m] == actions[..m];
      }
      AlwaysAnswered(db, maxRows, qs, start, actions[..n]);
      AlwaysOk(qs, start, actions[..n]);
      assert AnsweredAt(db, maxRows, qs, start, actions, n);
      ActionAnswered(db, maxRows, qs, After(qs, start, actions[..n]), actions[n]);
    }
  }

  // ----- which query a message answers -----

  lemma {:induction false} FilterDistinct(qs: seq<Query>, lastRun: LastRun, now: int)
    requires DistinctNames(qs)
    ensures DistinctNames(Filter(qs, lastRun, now))
  {
    if qs != [] {
      var n := |qs| - 1;
      FilterDistinct(qs[..n], lastRun, now);
      var front := Filter(qs[..n], lastRun, now);
      forall i | 0 <= i < |front| ensures front[i].name != qs[n].name {
        FilterMember(qs[..n], lastRun, now, front[i]);
        var j :| 0 <= j < n && qs[j] == front[i];
      }
    }
  }

  lemma DueDistinct(qs: seq<Query>, lastRun: LastRun, now: int)
    requires DistinctNames(qs)
    ensures DistinctNames(Due(qs, lastRun, now).due)
  {
    AdmitIsFilter(qs, lastRun, now);
    FilterDistinct(qs, lastRun, now);
  }

  /** The result was sent by its cycle as the catalog's answer to this query of it. */
  ghost predicate Answers(db: Database, maxRows: int, s: System, e: Envelope, k: nat)
    requires Shaped(db)
  {
    && SentByKnownCycle(s, e)
    && e.msg.QueryResult?
    && var c := s.tenants[e.tenant].cycles[e.cycle];
       && k < |c.due|
       && c.due[k].name == e.msg.query
       && e.msg == AnswerTo(db, maxRows, s.tenants[e.tenant].name, c, e.tenant, e.cycle, k)
  }

  /** Every accepted result is the catalog's answer to the one query of its cycle that has its name. */
  lemma ResultsAreAnswers(db: Database, maxRows: int, qs: seq<Query>, start: System, actions: seq<Action>,
                          s: System, n: nat) returns (k: nat)
    requires Shaped(db) && Protocol.Reached(qs, start, actions, s) && Answered(db, maxRows, qs, start, actions)
    requires DistinctNames(qs) && n < |s.accepted| && s.accepted[n].msg.QueryResult?
    ensures Answers(db, maxRows, s, s.accepted[n], k)
    ensures var due := s.tenants[s.accepted[n].tenant].cycles[s.accepted[n].cycle].due;
            forall j :: 0 <= j < |due| && due[j].name == s.accepted[n].msg.query ==> j == k
  {
    AlwaysOk(qs, start, actions);
    AlwaysAnswered(db, maxRows, qs, start, actions);
    var e := s.accepted[n];
    assert SentByKnownCycle(s, e);
    var tenant := s.tenants[e.tenant];
    var c := tenant.cycles[e.cycle];
    EnvelopeAmongSent(s.accepted, n);
    k :| 0 <= k < |c.sent| && c.sent[k] == e.msg;
    assert TenantOk(qs, tenant) && TenantAnswered(db, maxRows, tenant, e.tenant);
    SentIsKnown(qs, tenant, e.cycle, k);
    assert CycleAnswered(db, maxRows, tenant.name, c, e.tenant, e.cycle);
    DueDistinct(qs, LastRunAfter(qs, tenant.fireTimes[..e.cycle]), tenant.fireTimes[e.cycle]);
  }

  /** Every accepted result is all or nothing: it is marked failed unless its query started, every row
      decoded, iteration ended cleanly and the rows were within the cap; and then it carries every row. */
  lemma AcceptedAllOrNothing(db: Database, maxRows: int, qs: seq<Query>, start: System, actions: seq<Action>,
                             s: System, n: nat) returns (k: nat)
    requires Shaped(db) && Protocol.Reached(qs, start, actions, s) && Answered(db, maxRows, qs, start, actions)
    requires DistinctNames(qs) && n < |s.accepted| && s.accepted[n].msg.QueryResult?
    ensures Answers(db, maxRows, s, s.accepted[n], k)
    ensures var e := s.accepted[n]; var script := db(e.tenant, e.cycle, k);
            && (!e.msg.failed <==> script.starts && Catalog.AllDecode(script) && script.endsClean
                                   && !Catalog.OverCap(maxRows, |script.fetches|))
            && (e.msg.failed ==> e.msg.rows == [])
            && (!e.msg.failed ==>
                 && e.msg.cols == script.cols
                 && |e.msg.rows| == |script.fetches|
                 && forall r :: 0 <= r < |e.msg.rows| ==>
                      e.msg.rows[r] == Catalog.RowOf(script.cols, script.fetches[r].cells))
  {
    k := ResultsAreAnswers(db, maxRows, qs, start, actions, s, n);
    Catalog.AllOrNothing(db(s.accepted[n].tenant, s.accepted[n].cycle, k), maxRows);
  }

  // ----- the row cap -----

  /** In every run whose queries are answered by the catalog: if the result a message carries answers a
      query whose rows exceed the cap, applying it changes no gauge and no tracking, and only counts one
      error, or a panic. */
  lemma OverCapNeverChangesGauges(db: Database, maxRows: int, qs: seq<Query>, start: System, actions: seq<Action>,
                                  s: System, n: nat, k: nat, cfg: Config, before: State, e: Event)
    requires Shaped(db) && Protocol.Reached(qs, start, actions, s) && Answered(db, maxRows, qs, start, actions)
    requires DistinctNames(qs) && n < |s.applied| && s.applied[n].msg.QueryResult?
    requires SentByKnownCycle(s, s.applied[n])
    requires var env := s.applied[n]; var due := s.tenants[env.tenant].cycles[env.cycle].due;
             && k < |due| && due[k].name == env.msg.query
             && Catalog.OverCap(maxRows, |db(env.tenant, env.cycle, k).fetches|)
    requires e.Apply? && e.msg == s.applied[n].msg && ValidEvent(cfg, before, e)
    ensures var after, key := Run1(cfg, before, e), (e.msg.tenant, e.msg.query);
            after == if e.cut == Some(0)
                     then before.(panics := before.panics[e.msg.tenant := Count(before.panics, e.msg.tenant) + 1])
                     else before.(errors := before.errors[key := Count(before.errors, key) + 1])
  {
    OverCapAnswerFailed(db, maxRows, qs, start, actions, s, n, k);
    Scrape.RejectedLeavesGauges(cfg, before, e);
    ExecOne(before, e.msg.tenant, e.msg.query, Step.BumpError);
  }

  lemma OverCapAnswerFailed(db: Database, maxRows: int, qs: seq<Query>, start: System, actions: seq<Action>,
                            s: System, n: nat, k: nat)
    requires Shaped(db) && Protocol.Reached(qs, start, actions, s) && Answered(db, maxRows, qs, start, actions)
    requires DistinctNames(qs) && n < |s.applied| && s.applied[n].msg.QueryResult?
    requires SentByKnownCycle(s, s.applied[n])
    requires var env := s.applied[n]; var due := s.tenants[env.tenant].cycles[env.cycle].due;
             && k < |due| && due[k].name == env.msg.query
             && Catalog.OverCap(maxRows, |db(env.tenant, env.cycle, k).fetches|)
    ensures s.applied[n].msg.failed
  {
    AlwaysOk(qs, start, actions);
    assert s.accepted[n] == s.applied[n];
    var j := ResultsAreAnswers(db, maxRows, qs, start, actions, s, n);
    Catalog.AllOrNothing(db(s.applied[n].tenant, s.applied[n].cycle, k), maxRows);
  }

  // ----- where a series comes from -----

  /** A fetched row of the script, read under the query's columns, offers the number for the series. */
  ghost predicate Fetches(q: Query, name: string, script: Catalog.Script, k: Series, number: Number)
    requires Catalog.WellShaped(script)
  {
    exists r :: 0 <= r < |script.fetches| && script.fetches[r].Fetched?
                && Scrape.Offers(q, name, Catalog.RowOf(script.cols, script.fetches[r].cells), k, number)
  }

  /** What justifies an exposed series: the n-th applied message, the answer to the j-th query of its
      cycle, whose rows were all fetched, did not exceed the cap and offered the number. */
  ghost predicate Justified(db: Database, maxRows: int, qs: seq<Query>, s: System, k: Series, number: Number,
                            n: nat, j: nat)
    requires Shaped(db)
  {
    && n < |s.applied|
    && var e := s.applied[n];
       && SentByKnownCycle(s, e)
       && var c := s.tenants[e.tenant].cycles[e.cycle];
          && j < |c.due|
          && c.due[j] in qs && c.due[j].name == k.query && k.value in c.due[j].values
          && OwnedBy(k.tuple, s.tenants[e.tenant].name)
          && var script := db(e.tenant, e.cycle, j);
             && Catalog.AllDecode(script) && script.endsClean
             && !Catalog.OverCap(maxRows, |script.fetches|)
             && Fetches(c.due[j], s.tenants[e.tenant].name, script, k, number)
  }

  /** In every run whose queries are answered by the catalog, whatever panics: each exposed series was
      offered by a row fetched for a query of a cycle of its own tenant, from a result within the cap;
      its value is that row's, or 0 if a panic fell between its creation and its first value. */
  lemma ExposedSeriesAreJustified(db: Database, maxRows: int, qs: seq<Query>, start: System, actions: seq<Action>,
                                  s: System, es: seq<Event>, k: Series)
    returns (n: nat, j: nat, offered: Number)
    requires Shaped(db) && Protocol.Reached(qs, start, actions, s) && Answered(db, maxRows, qs, start, actions)
    requires DistinctNames(qs) && Follows(es, s.applied) && ValidRun(Configuration(qs), INITIAL, es)
    requires k in Run(Configuration(qs), INITIAL, es).series
    ensures Justified(db, maxRows, qs, s, k, offered, n, j)
    ensures var number := Run(Configuration(qs), INITIAL, es).series[k];
            number == offered || (number == Finite(0.0) && es[n].cut.Some?)
  {
    var cfg := Configuration(qs);
    Publishing.RegisteredMatchesSpec(qs);
    n := Scrape.EverySeriesOffered(cfg, es, k);
    var number := Run(cfg, INITIAL, es).series[k];
    offered :| Scrape.Offered(cfg, es[n].msg, k, offered)
               && (number == offered || (number == Finite(0.0) && es[n].cut.Some?));
    j := MessageJustifies(db, maxRows, qs, start, actions, s, n, k, offered);
  }

  lemma MessageJustifies(db: Database, maxRows: int, qs: seq<Query>, start: System, actions: seq<Action>,
                         s: System, n: nat, k: Series, offered: Number) returns (j: nat)
    requires Shaped(db) && Protocol.Reached(qs, start, actions, s) && Answered(db, maxRows, qs, start, actions)
    requires DistinctNames(qs) && n < |s.applied|
    requires Scrape.Offered(Configuration(qs), s.applied[n].msg, k, offered)
    ensures Justified(db, maxRows, qs, s, k, offered, n, j)
  {
    var e := s.applied[n];
    AlwaysOk(qs, start, actions);
    assert s.accepted[n] == e;
    j := ResultsAreAnswers(db, maxRows, qs, start, actions, s, n);
    var tenant := s.tenants[e.tenant];
    var q, script := tenant.cycles[e.cycle].due[j], db(e.tenant, e.cycle, j);
    assert TenantOk(qs, tenant);
    DueAreConfigured(qs, LastRunAfter(qs, tenant.fireTimes[..e.cycle]), tenant.fireTimes[e.cycle]);
    ConfiguredResolves(qs, q);
    Catalog.AllOrNothing(script, maxRows);
    var r :| 0 <= r < |e.msg.rows| && Scrape.Offers(q, tenant.name, e.msg.rows[r], k, offered);
    assert Scrape.Offers(q, tenant.name, Catalog.RowOf(script.cols, script.fetches[r].cells), k, offered);
  }
}
