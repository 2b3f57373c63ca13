/** Results that need several components: query definitions, schedulers, channel and publisher. */
module EndToEnd {
  import opened Values
  import opened Steps
  import opened Cadence
  import opened Cycles
  import opened Discipline
  import Protocol
  import Isolation
  import Diff
  import History
  import Publishing
  import Sorting
  import Queries
  import Health

  // ----- messages come from the cycles of their own tenant, and name configured queries -----

  lemma {:induction false} EnvelopeAmongSent(es: seq<Envelope>, k: nat)
    requires k < |es|
    ensures es[k].msg in FromCycle(es, es[k].tenant, es[k].cycle)
  {
    if k < |es| - 1 {
      EnvelopeAmongSent(es[..|es| - 1], k);
    }
  }

  lemma {:induction false} DueAreConfigured(qs: seq<Query>, lastRun: LastRun, now: int)
    ensures forall q :: q in Due(qs, lastRun, now).due ==> q in qs
  {
    if AnyInterval(qs) {
      AdmittedAreConfigured(qs, lastRun, now);
    }
  }

  lemma {:induction false} AdmittedAreConfigured(qs: seq<Query>, lastRun: LastRun, now: int)
    ensures forall q :: q in Admit(qs, lastRun, now).due ==> q in qs
  {
    if qs != [] {
      AdmittedAreConfigured(qs[..|qs| - 1], lastRun, now);
      assert qs == qs[..|qs| - 1] + [qs[|qs| - 1]];
    }
  }

  lemma ConfiguredResolves(qs: seq<Query>, q: Query)
    requires q in qs && DistinctNames(qs)
    ensures Get(Publishing.SpecOf(qs), q.name) == Some(q) && q.name in Publishing.Registered(qs)
  {
  }

  /** A message a cycle sent is the pool's, or the result of a configured query that was due. */
  lemma SentIsKnown(qs: seq<Query>, tenant: Tenant, i: nat, j: nat)
    requires TenantOk(qs, tenant) && i < |tenant.cycles| && j < |tenant.cycles[i].sent|
    ensures var c := tenant.cycles[i];
            && c.sent[j].tenant == tenant.name
            && !c.sent[j].Unrecognized?
            && (c.sent[j].QueryResult? ==> j < |c.due| && c.sent[j].query == c.due[j].name && c.due[j] in qs)
  {
    var c := tenant.cycles[i];
    assert CycleOk(tenant.name, c);
    if j < |c.due| {
      assert ResultFor(tenant.name, c.due[j], c.sent[j]);
      DueAreConfigured(qs, LastRunAfter(qs, tenant.fireTimes[..i]), tenant.fireTimes[i]);
    }
  }

  /** Every accepted message carries the name of the tenant whose cycle sent it, and every result names
      a query of the merged configuration that the publisher's table resolves to itself. */
  lemma AcceptedMessagesKnown(qs: seq<Query>, start: System, actions: seq<Action>, s: System, k: nat)
    requires Protocol.Reached(qs, start, actions, s) && k < |s.accepted|
    requires DistinctNames(qs)
    ensures var e := s.accepted[k];
            && SentByKnownCycle(s, e)
            && e.msg.tenant == s.tenants[e.tenant].name
            && !e.msg.Unrecognized?
            && (e.msg.QueryResult? ==> exists q :: q in qs && e.msg.query == q.name
                                        && Get(Publishing.SpecOf(qs), e.msg.query) == Some(q)
                                        && e.msg.query in Publishing.Registered(qs))
  {
    AlwaysOk(qs, start, actions);
    var e := s.accepted[k];
    assert SentByKnownCycle(s, e);
    var tenant := s.tenants[e.tenant];
    var c := tenant.cycles[e.cycle];
    EnvelopeAmongSent(s.accepted, k);
    var j :| 0 <= j < |c.sent| && c.sent[j] == e.msg;
    assert TenantOk(qs, tenant);
    SentIsKnown(qs, tenant, e.cycle, j);
    if e.msg.QueryResult? {
      ConfiguredResolves(qs, c.due[j]);
    }
  }

  /** The same from the two query lists: merging makes the names distinct. */
  lemma MergedQueriesResolve(builtins: seq<Query>, user: seq<Query>, disable: map<string, bool>,
                             qs: seq<Query>, q: Query)
    requires Queries.IsMerge(qs, builtins + user, disable)
    ensures DistinctNames(qs)
    ensures q in qs ==> Get(Publishing.SpecOf(qs), q.name) == Some(q)
  {
    Queries.MergeDetermined(qs, qs, builtins + user, disable);
    if q in qs {
      var i :| 0 <= i < |qs| && qs[i] == q;
      Publishing.SpecFindsEachQuery(qs, i);
    }
  }

  // ----- the cadence the cycles actually have -----

  /** In every reachable state, if a tenant's fires came at regular ticks, its i-th cycle carries a
      query with an interval exactly when i is a multiple of ceil(interval / tick). */
  lemma CycleCarriesByCadence(qs: seq<Query>, start: System, actions: seq<Action>, s: System,
                              t: nat, i: nat, q: Query, first: int, tick: int)
    requires Protocol.Reached(qs, start, actions, s) && Protocol.HasCycle(s, t, i)
    requires Paced(qs, q) && tick > 0 && Regular(s.tenants[t].fireTimes, first, tick)
    ensures Stride(q, tick) >= 1
    ensures q in s.tenants[t].cycles[i].due <==> i % Stride(q, tick) == 0
  {
    Protocol.MessageDiscipline(qs, start, actions, s, t, i);
    ExactCadence(qs, q, s.tenants[t].fireTimes, first, tick, i);
  }

  // ----- the probe of a running system -----

  ghost predicate DistinctTenants(s: System) {
    forall t, u :: 0 <= t < u < |s.tenants| ==> s.tenants[t].name != s.tenants[u].name
  }

  /** What a probe at this time reads: each tenant's last fire so far. */
  function Snapshots(s: System, interval: int, now: int): (snapshots: map<string, Health.Liveness>)
    requires DistinctTenants(s)
    ensures forall t :: 0 <= t < |s.tenants| ==>
              Get(snapshots, s.tenants[t].name)
                == Some(Health.Liveness(interval, Health.LastFire(s.tenants[t].fireTimes, now)))
    ensures forall name :: name in snapshots ==> exists t :: 0 <= t < |s.tenants| && s.tenants[t].name == name
  {
    map t | 0 <= t < |s.tenants| ::
      s.tenants[t].name := Health.Liveness(interval, Health.LastFire(s.tenants[t].fireTimes, now))
  }

  /** The tenant has fired by now, but not within the last span. */
  ghost predicate Silent(times: seq<int>, span: int, now: int) {
    && (exists i :: 0 <= i < |times| && times[i] <= now)
    && (forall i :: 0 <= i < |times| && times[i] <= now ==> now - times[i] > span)
  }

  lemma {:induction false} Ascends(times: seq<int>)
    requires NonDecreasing(times)
    ensures Health.Ascending(times)
  {
    if |times| > 1 {
      var n := |times| - 1;
      Ascends(times[..n]);
      assert times[n - 1] <= times[n - 1 + 1];
      forall i, j | 0 <= i < j < |times| ensures times[i] <= times[j] {
        assert times[..n][i] == times[i] && times[..n][n - 1] == times[n - 1];
        if j < n {
          assert times[..n][j] == times[j];
        }
      }
    }
  }

  lemma StaleIffSilent(times: seq<int>, interval: int, now: int)
    requires 0 < interval && 2 * interval <= MAX64 && NonDecreasing(times)
    ensures !Health.Alive(times, interval, now) <==> Silent(times, 2 * interval, now)
  {
    Ascends(times);
    Health.ThresholdHonouredIffFits(interval);
    var i := Health.FiresSoFar(times, now);
    if i > 0 {
      assert times[i - 1] <= now;
    }
  }

  /** In every reachable state and at any time, past or present, the stale tenants are exactly the silent ones. */
  lemma StaleTenants(qs: seq<Query>, start: System, actions: seq<Action>, s: System, interval: int, now: int, t: nat)
    requires Protocol.Reached(qs, start, actions, s) && DistinctTenants(s) && t < |s.tenants|
    requires 0 < interval && 2 * interval <= MAX64
    ensures s.tenants[t].name in Health.Stale(Snapshots(s, interval, now), now)
            <==> Silent(s.tenants[t].fireTimes, 2 * interval, now)
  {
    AlwaysOk(qs, start, actions);
    assert TenantOk(qs, s.tenants[t]);
    StaleIffSilent(s.tenants[t].fireTimes, interval, now);
    assert Health.Alive(s.tenants[t].fireTimes, interval, now) ==
           Health.LivenessStatus(Snapshots(s, interval, now)[s.tenants[t].name], now).alive;
  }

  ghost function SilentTenants(s: System, span: int, now: int): set<string> {
    set t | 0 <= t < |s.tenants| && Silent(s.tenants[t].fireTimes, span, now) :: s.tenants[t].name
  }

  lemma StaleAreSilent(qs: seq<Query>, start: System, actions: seq<Action>, s: System, interval: int, now: int)
    requires Protocol.Reached(qs, start, actions, s) && DistinctTenants(s)
    requires 0 < interval && 2 * interval <= MAX64
    ensures Health.Stale(Snapshots(s, interval, now), now) == SilentTenants(s, 2 * interval, now)
  {
    var stale := Health.Stale(Snapshots(s, interval, now), now);
    forall name ensures name in stale <==> name in SilentTenants(s, 2 * interval, now) {
      if name in Snapshots(s, interval, now) {
        var t :| 0 <= t < |s.tenants| && s.tenants[t].name == name;
        StaleTenants(qs, start, actions, s, interval, now, t);
      }
    }
  }

  /** Probing a running system: 503 exactly when some tenant has fired by now but not within twice the
      interval; exactly those tenants are listed, in order, and counted. */
  method Probe(server: Health.Server, ghost qs: seq<Query>, ghost start: System, ghost actions: seq<Action>,
               s: System, interval: int, now: int)
    returns (status: int, failures: seq<string>)
    requires Protocol.Reached(qs, start, actions, s) && DistinctTenants(s)
    requires 0 < interval && 2 * interval <= MAX64
    modifies server
    ensures var silent := SilentTenants(s, 2 * interval, now);
            && status == (if silent != {} then 503 else 200)
            && Sorting.StrictlySorted(failures, Health.Id)
            && (forall name :: name in failures <==> name in silent)
            && forall k :: Count(server.livenessFailures, k) == Count(old(server.livenessFailures), k) +
                 if k.0 in silent && k.1 == Health.StaleSchedule then 1 else 0
  {
    StaleAreSilent(qs, start, actions, s, interval, now);
    status, failures := server.HandleHealthy(Snapshots(s, interval, now), now);
  }

  /** The same tenants, and those that have returned as they were but for their cycles. */
  ghost predicate Continues(s: System, after: System) {
    && |after.tenants| == |s.tenants|
    && forall t :: 0 <= t < |s.tenants| ==> SameTenant(s.tenants[t], after.tenants[t])
  }

  predicate SameTenant(a: Tenant, b: Tenant) {
    b.name == a.name && (a.phase.Returned? ==> b.phase.Returned? && b.fireTimes == a.fireTimes)
  }

  lemma ActionContinues(qs: seq<Query>, s: System, a: Action)
    requires Enabled(s, a)
    ensures Continues(s, Do(qs, s, a))
  {
  }

  lemma {:induction false} RunContinues(qs: seq<Query>, s: System, actions: seq<Action>)
    requires ValidTrace(qs, s, actions)
    ensures Continues(s, After(qs, s, actions))
  {
    if actions != [] {
      var n := |actions| - 1;
      var here := After(qs, s, actions[..n]);
      RunContinues(qs, s, actions[..n]);
      ActionContinues(qs, here, actions[n]);
      ContinuesOn(s, here, Do(qs, here, actions[n]));
    }
  }

  lemma ContinuesOn(a: System, b: System, c: System)
    requires Continues(a, b) && Continues(b, c)
    ensures Continues(a, c)
  {
  }

  lemma SilentByName(s: System, t: nat, span: int, now: int)
    requires DistinctTenants(s) && t < |s.tenants|
    ensures s.tenants[t].name in SilentTenants(s, span, now) <==> Silent(s.tenants[t].fireTimes, span, now)
  {
  }

  lemma LateProbe(times: seq<int>, span: int, now: int)
    requires Health.Ascending(times) && times != [] && times[|times| - 1] <= now
    ensures Silent(times, span, now) <==> now > times[|times| - 1] + span
  {
  }

  /** Once a scheduler that has fired returns, then however the run goes on, of the probes after its last
      fire exactly those later than twice the interval report it. */
  lemma StoppedTenantTrips(qs: seq<Query>, start: System, actions: seq<Action>, s: System, more: seq<Action>,
                           t: nat, interval: int, now: int)
    requires Protocol.Reached(qs, start, actions, s) && ValidTrace(qs, s, more) && DistinctTenants(s)
    requires t < |s.tenants| && s.tenants[t].phase.Returned? && s.tenants[t].fireTimes != []
    requires 0 < interval && 2 * interval <= MAX64
    requires s.tenants[t].fireTimes[|s.tenants[t].fireTimes| - 1] <= now
    ensures var last := s.tenants[t].fireTimes[|s.tenants[t].fireTimes| - 1];
            s.tenants[t].name in SilentTenants(After(qs, s, more), 2 * interval, now) <==> now > last + 2 * interval
  {
    AlwaysOk(qs, start, actions);
    assert TenantOk(qs, s.tenants[t]);
    Ascends(s.tenants[t].fireTimes);
    LateProbe(s.tenants[t].fireTimes, 2 * interval, now);
    RunContinues(qs, s, more);
    assert SameTenant(s.tenants[t], After(qs, s, more).tenants[t]);
    StillDistinct(s, After(qs, s, more));
    SilentByName(After(qs, s, more), t, 2 * interval, now);
  }

  lemma StillDistinct(s: System, after: System)
    requires DistinctTenants(s) && Continues(s, after)
    ensures DistinctTenants(after)
  {
    forall t, u | 0 <= t < u < |after.tenants| ensures after.tenants[t].name != after.tenants[u].name {
      assert SameTenant(s.tenants[t], after.tenants[t]) && SameTenant(s.tenants[u], after.tenants[u]);
    }
  }

  /** While no tenant lets more than twice the interval pass between fires, no probe ever fails. */
  lemma SteadySystemPasses(qs: seq<Query>, start: System, actions: seq<Action>, s: System, interval: int, now: int)
    requires Protocol.Reached(qs, start, actions, s) && DistinctTenants(s)
    requires 0 < interval && 2 * interval <= MAX64
    requires forall t :: 0 <= t < |s.tenants| ==> Steady(s.tenants[t].fireTimes, 2 * interval, now)
    ensures SilentTenants(s, 2 * interval, now) == {}
  {
    AlwaysOk(qs, start, actions);
    forall t | 0 <= t < |s.tenants| ensures !Silent(s.tenants[t].fireTimes, 2 * interval, now) {
      var times := s.tenants[t].fireTimes;
      assert Steady(times, 2 * interval, now) && TenantOk(qs, s.tenants[t]);
      Ascends(times);
      Health.SteadyFiresStayAlive(times, interval, now);
      StaleIffSilent(times, interval, now);
    }
  }

  /** Fires no further apart than the span, the last of them not further back. */
  predicate Steady(times: seq<int>, span: int, now: int) {
    && (forall i :: 0 <= i < |times| - 1 ==> times[i + 1] <= times[i] + span)
    && (times == [] || now <= times[|times| - 1] + span)
  }

  // ----- what reaches the gauges -----

  /** The publisher's events carry out the applied log, message by message. */
  ghost predicate Follows(es: seq<Event>, log: seq<Envelope>) {
    && |es| == |log|
    && forall k :: 0 <= k < |es| ==> es[k].Apply? && es[k].msg == log[k].msg
  }

  /** The messages of one tenant's cycles, in log order. */
  function LogOf(log: seq<Envelope>, t: nat): seq<Message> {
    if log == [] then []
    else
      var last := log[|log| - 1];
      LogOf(log[..|log| - 1], t) + if last.tenant == t then [last.msg] else []
  }

  function MessagesOf(es: seq<Event>): seq<Message> {
    if es == [] then []
    else MessagesOf(es[..|es| - 1]) + if es[|es| - 1].Apply? then [es[|es| - 1].msg] else []
  }

  lemma {:induction false} OwnLog(s: System, log: seq<Envelope>, es: seq<Event>, t: nat)
    requires DistinctTenants(s) && t < |s.tenants| && Follows(es, log)
    requires forall k :: 0 <= k < |log| ==>
               log[k].tenant < |s.tenants| && log[k].msg.tenant == s.tenants[log[k].tenant].name
    ensures MessagesOf(Isolation.Only(es, s.tenants[t].name)) == LogOf(log, t)
  {
    if es != [] {
      var n := |es| - 1;
      OwnLog(s, log[..n], es[..n], t);
      var name := s.tenants[t].name;
      var own := Isolation.Only(es[..n], name);
      var sender := log[n].tenant;
      assert es[n].Tenant() == log[n].msg.tenant == s.tenants[sender].name;
      if sender == t {
        assert Isolation.Only(es, name) == own + [es[n]];
        MessagesOfAppend(own, es[n]);
      } else {
        assert es[n].Tenant() != name;
        assert Isolation.Only(es, name) == own;
        assert LogOf(log, t) == LogOf(log[..n], t);
      }
    }
  }

  lemma MessagesOfAppend(es: seq<Event>, e: Event)
    requires e.Apply?
    ensures MessagesOf(es + [e]) == MessagesOf(es) + [e.msg]
  {
  }

  /** In every reachable state, what the publisher holds for a tenant is what running only that tenant's
      own events gives, and those carry exactly the applied messages of that tenant's cycles. */
  lemma TenantSeesOwnCyclesOnly(qs: seq<Query>, start: System, actions: seq<Action>, s: System,
                                cfg: Config, es: seq<Event>, t: nat)
    requires Protocol.Reached(qs, start, actions, s) && DistinctNames(qs) && DistinctTenants(s) && t < |s.tenants|
    requires Follows(es, s.applied) && ValidRun(cfg, INITIAL, es)
    ensures var own := Isolation.Only(es, s.tenants[t].name);
            && ValidRun(cfg, INITIAL, own)
            && Isolation.SameFor(s.tenants[t].name, Run(cfg, INITIAL, es), Run(cfg, INITIAL, own))
            && MessagesOf(own) == LogOf(s.applied, t)
  {
    AppliedIsAddressed(qs, start, actions, s);
    Isolation.NonInterference(cfg, INITIAL, es, s.tenants[t].name);
    OwnLog(s, s.applied, es, t);
  }

  // ----- recomputing the exposed series from the applied log -----

  function Configuration(qs: seq<Query>): Config {
    Config(Publishing.SpecOf(qs), Publishing.Registered(qs))
  }

  /** What the log of applied envelopes amounts to: each successful result is dropped and written under
      the name of the tenant whose cycle sent it. There is no message order but the log's, no iteration
      order, and no shadow state. */
  ghost function RecomputeLog(s: System, qs: seq<Query>, log: seq<Envelope>): map<Series, Number>
    requires forall k :: 0 <= k < |log| ==> log[k].tenant < |s.tenants|
  {
    if log == [] then map[]
    else
      var e, before := log[|log| - 1], RecomputeLog(s, qs, log[..|log| - 1]);
      var q := Queries.LastDefinition(qs, QueryName(e.msg));
      if !e.msg.QueryResult? || e.msg.failed || q.None? || !HasColumns(q.value, e.msg.cols) then before
      else
        var name := s.tenants[e.tenant].name;
        Diff.Write(Diff.Retain(before, q.value, name, e.msg.rows), q.value, name, e.msg.rows)
  }

  lemma {:induction false} SpecIsLastDefinition(qs: seq<Query>, name: string)
    ensures Get(Publishing.SpecOf(qs), name) == Queries.LastDefinition(qs, name)
  {
    if qs != [] {
      SpecIsLastDefinition(qs[..|qs| - 1], name);
    }
  }

  /** The log holds envelopes of known tenants, each carrying its sender's name. */
  ghost predicate Addressed(s: System, log: seq<Envelope>) {
    forall k :: 0 <= k < |log| ==>
      log[k].tenant < |s.tenants| && log[k].msg.tenant == s.tenants[log[k].tenant].name
  }

  lemma {:induction false} LogIsRecomputed(s: System, qs: seq<Query>, log: seq<Envelope>, es: seq<Event>)
    requires Addressed(s, log) && Follows(es, log)
    ensures Diff.RecomputeAll(Configuration(qs), map[], es) == RecomputeLog(s, qs, log)
  {
    if log != [] {
      var n := |log| - 1;
      LogIsRecomputed(s, qs, log[..n], es[..n]);
      SpecIsLastDefinition(qs, QueryName(log[n].msg));
      Publishing.RegisteredMatchesSpec(qs);
      var name := QueryName(log[n].msg);
      assert name in Publishing.SpecOf(qs).Keys <==> name in Publishing.Registered(qs).Keys;
    }
  }

  lemma AppliedIsAddressed(qs: seq<Query>, start: System, actions: seq<Action>, s: System)
    requires Protocol.Reached(qs, start, actions, s) && DistinctNames(qs)
    ensures Addressed(s, s.applied)
  {
    AlwaysOk(qs, start, actions);
    forall k | 0 <= k < |s.applied|
      ensures s.applied[k].tenant < |s.tenants| && s.applied[k].msg.tenant == s.tenants[s.applied[k].tenant].name
    {
      assert s.accepted[k] == s.applied[k];
      AcceptedMessagesKnown(qs, start, actions, s, k);
    }
  }

  /** In every reachable state, as long as no apply panicked and no label holds a NUL, the exposed series
      are a function of the applied log and the tenants that sent it. */
  lemma ExposedSeriesAreRecomputed(qs: seq<Query>, start: System, actions: seq<Action>, s: System, es: seq<Event>)
    requires Protocol.Reached(qs, start, actions, s) && DistinctNames(qs) && Follows(es, s.applied)
    requires ValidRun(Configuration(qs), INITIAL, es)
    requires forall k :: 0 <= k < |es| ==> History.Clean(Configuration(qs), es[k])
    ensures Addressed(s, s.applied)
    ensures Run(Configuration(qs), INITIAL, es).series == RecomputeLog(s, qs, s.applied)
  {
    Publishing.RegisteredMatchesSpec(qs);
    AppliedIsAddressed(qs, start, actions, s);
    History.HistoryIsRecomputation(Configuration(qs), es);
    LogIsRecomputed(s, qs, s.applied, es);
  }
}
