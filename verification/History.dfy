/** The tracking invariant and the refinement over whole histories. */
module History {
  import opened Values
  import opened Tuples
  import opened Steps
  import opened Outcomes
  import opened Isolation
  import opened Diff

  /** No label the result carries contains a NUL, as for any text column of Postgres. */
  ghost predicate NulFreeResult(cfg: Config, msg: Message) {
    Accepted(cfg, msg) ==> forall i :: 0 <= i < |msg.rows| ==>
      NulFree(TupleOf(msg.tenant, cfg.spec[msg.query].labels, msg.rows[i]))
  }

  /** The event runs to its end and brings no NUL. */
  ghost predicate Clean(cfg: Config, e: Event) {
    e.Apply? ==> e.cut.None? && NulFreeResult(cfg, e.msg)
  }

  ghost predicate StoredNulFree(s: State, t: string) {
    forall query, sig :: sig in Previous(s, t, query) ==> NulFree(Previous(s, t, query)[sig])
  }

  ghost predicate Sound(cfg: Config, s: State, t: string) {
    Tracked(cfg, s, t) && StoredNulFree(s, t)
  }

  lemma RowTupleShape(cfg: Config, msg: Message, u: Tuple)
    requires Accepted(cfg, msg) && NulFreeResult(cfg, msg)
    requires HasTuple(cfg.spec[msg.query], msg.tenant, msg.rows, u)
    ensures NulFree(u) && |u| == 1 + |cfg.spec[msg.query].labels|
  {
  }

  lemma ConcernedShape(cfg: Config, s: State, msg: Message, k: Series)
    requires Accepted(cfg, msg) && NulFreeResult(cfg, msg) && Sound(cfg, s, msg.tenant)
    requires Concerned(cfg, s, msg, k)
    ensures NulFree(k.tuple) && |k.tuple| == 1 + |cfg.spec[msg.query].labels|
  {
    LastNumberSource(cfg.spec[msg.query], msg.tenant, msg.rows, k);
    if HasTuple(cfg.spec[msg.query], msg.tenant, msg.rows, k.tuple) {
      RowTupleShape(cfg, msg, k.tuple);
    } else {
      assert Indexed(cfg, s, msg.tenant, k);
      assert Stored(cfg, msg.tenant, msg.query, Signature(k.tuple), k.tuple);
    }
  }

  lemma NulFreeSeparated(cfg: Config, s: State, msg: Message)
    requires Accepted(cfg, msg) && NulFreeResult(cfg, msg) && Sound(cfg, s, msg.tenant)
    ensures Separated(cfg, s, msg)
  {
    var current := NewTuples(cfg.spec[msg.query], msg.tenant, msg.rows);
    forall k: Series | Concerned(cfg, s, msg, k) && Signature(k.tuple) in current
      ensures current[Signature(k.tuple)] == k.tuple
    {
      var u := current[Signature(k.tuple)];
      NewTuplesFaithful(cfg.spec[msg.query], msg.tenant, msg.rows);
      RowTupleShape(cfg, msg, u);
      ConcernedShape(cfg, s, msg, k);
      SignatureInjective(u, k.tuple);
    }
  }

  lemma SoundnessIsLocal(cfg: Config, a: State, b: State, t: string)
    requires Sound(cfg, a, t) && SameFor(t, a, b)
    ensures Sound(cfg, b, t)
  {
    forall query ensures Previous(a, t, query) == Previous(b, t, query) {
      PreviousCongruent(a, b, t, query);
    }
    forall k | k in b.series && OwnedBy(k.tuple, t) ensures Indexed(cfg, b, t, k) {
      assert Get(a.series, k) == Get(b.series, k);
      assert Indexed(cfg, a, t, k);
    }
  }

  lemma SameIndexSound(cfg: Config, a: State, b: State, t: string)
    requires Sound(cfg, a, t) && a.series == b.series && a.lastLabels == b.lastLabels
    ensures Sound(cfg, b, t)
  {
    assert forall query :: Previous(a, t, query) == Previous(b, t, query);
    forall k | k in b.series && OwnedBy(k.tuple, t) ensures Indexed(cfg, b, t, k) {
      assert Indexed(cfg, a, t, k);
    }
  }

  lemma CleanEventKeepsSound(cfg: Config, s: State, e: Event)
    requires WellFormed(cfg) && ValidEvent(cfg, s, e) && Clean(cfg, e)
    requires e.Apply? ==> Sound(cfg, s, e.Tenant())
    ensures Sound(cfg, Run1(cfg, s, e), e.Tenant())
  {
    var after, t := Run1(cfg, s, e), e.Tenant();
    if e.Reset? {
      assert forall query :: Previous(after, t, query) == map[];
    } else if Accepted(cfg, e.msg) {
      RefreshOutcome(cfg, s, e);
      NulFreeSeparated(cfg, s, e.msg);
      RefreshKeepsTracked(cfg, s, e.msg, after);
      StoredAfter(cfg, s, e.msg, after);
      NewTuplesFaithful(cfg.spec[e.msg.query], t, e.msg.rows);
    } else {
      QuietSeries(cfg, s, e);
      SameIndexSound(cfg, s, after, t);
    }
  }

  ghost predicate CleanFor(cfg: Config, es: seq<Event>, t: string) {
    forall i :: 0 <= i < |es| && es[i].Tenant() == t ==> Clean(cfg, es[i])
  }

  /** Whatever the other tenants do, panics included, a tenant whose own events are clean stays
      tracked through every run. */
  lemma {:induction false} TrackedThroughRuns(cfg: Config, s: State, es: seq<Event>, t: string)
    requires WellFormed(cfg) && Owned(s) && ValidRun(cfg, s, es)
    requires Sound(cfg, s, t) && CleanFor(cfg, es, t)
    ensures Sound(cfg, Run(cfg, s, es), t)
  {
    if es != [] {
      var n := |es| - 1;
      TrackedThroughRuns(cfg, s, es[..n], t);
      RunOwned(cfg, s, es[..n]);
      var here := Run(cfg, s, es[..n]);
      if es[n].Tenant() == t {
        CleanEventKeepsSound(cfg, here, es[n]);
      } else {
        EventConfined(cfg, here, es[n], t);
        SoundnessIsLocal(cfg, here, Run(cfg, s, es), t);
      }
    }
  }

  lemma InitiallySound(cfg: Config, t: string)
    ensures Owned(INITIAL) && Sound(cfg, INITIAL, t)
  {
  }

  /** Resetting a tenant makes it tracked again from any state at all, damaged by panics or not,
      leaves it no series, and changes no other tenant. */
  lemma ResetRestoresTracking(cfg: Config, s: State, t: string)
    ensures Sound(cfg, ResetTenant(s, t), t)
    ensures forall k :: k in ResetTenant(s, t).series ==> !OwnedBy(k.tuple, t)
    ensures forall u :: u != t ==> SameFor(u, s, ResetTenant(s, t))
  {
  }

  /** Over every panic-free history the publisher exposes exactly the series a stateless publisher
      would: the one that, per message, drops and rewrites the tenant's series of the query. */
  lemma {:induction false} HistoryIsRecomputation(cfg: Config, es: seq<Event>)
    requires WellFormed(cfg) && ValidRun(cfg, INITIAL, es)
    requires forall i :: 0 <= i < |es| ==> Clean(cfg, es[i])
    ensures Run(cfg, INITIAL, es).series == RecomputeAll(cfg, map[], es)
  {
    if es != [] {
      var n := |es| - 1;
      var here, t := Run(cfg, INITIAL, es[..n]), es[n].Tenant();
      HistoryIsRecomputation(cfg, es[..n]);
      InitiallySound(cfg, t);
      TrackedThroughRuns(cfg, INITIAL, es[..n], t);
      if es[n].Apply? && Accepted(cfg, es[n].msg) {
        NulFreeSeparated(cfg, here, es[n].msg);
      }
      DiffIsRecompute(cfg, here, es[n]);
    }
  }

  /** ... and if every cell of the last message converts, the tenant's slice is what wiping it and
      writing the rows gives, whatever came before. */
  lemma DiffIsRepopulate(cfg: Config, es: seq<Event>, e: Event)
    requires WellFormed(cfg) && ValidRun(cfg, INITIAL, es) && CleanFor(cfg, es, e.Tenant())
    requires ValidEvent(cfg, Run(cfg, INITIAL, es), e) && Clean(cfg, e)
    requires e.Apply? && Accepted(cfg, e.msg) && AllNumeric(cfg.spec[e.msg.query], e.msg.rows)
    ensures var q, t, s := cfg.spec[e.msg.query], e.msg.tenant, Run(cfg, INITIAL, es);
            && Run1(cfg, s, e).series == Write(Wipe(s.series, q, t), q, t, e.msg.rows)
            && forall k: Series :: k.query == e.msg.query && OwnedBy(k.tuple, t) && k.value in q.values ==>
                 (k in Run1(cfg, s, e).series <==> HasTuple(q, t, e.msg.rows, k.tuple))
  {
    var s, t := Run(cfg, INITIAL, es), e.msg.tenant;
    InitiallySound(cfg, t);
    TrackedThroughRuns(cfg, INITIAL, es, t);
    NulFreeSeparated(cfg, s, e.msg);
    DiffIsRecompute(cfg, s, e);
    RecomputeIsRepopulate(cfg, s, e);
  }
}
