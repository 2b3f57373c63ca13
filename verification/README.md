# Verification of the ducklake metrics daemon

The daemon polls one Postgres catalog per tenant and exposes the results as Prometheus gauges. Each tenant has a
scheduler that starts a cycle per tick; cycles run queries and send the results into one bounded inbox; a single
publisher receives them and updates the gauges. This project models that pipeline in Dafny and proves what it
guarantees over whole runs, for every interleaving, every map iteration order and every placement of panics.
`dafny verify dfyconfig.toml` checks all of it.

## How it is modelled

- `Steps` says what the publisher does to the metrics as a list of atomic steps per message (create a gauge series at
  0, set one, delete one, bump one counter, store the new tuples). A scrape can fall between two steps. A panic cuts the list at
  any point. Go's map iteration orders are a `Schedule`; a theorem for every valid schedule holds for every order.
- `Publishing` is the publisher itself: a class whose methods update the shared maps loop by loop, each proved to carry
  out exactly the steps of `Steps`, panics included. `Isolation`, `Outcomes`, `Diff`, `History`, `Damage`, `Scrape`,
  `Accounts` and `EmptyAcquires` prove what those steps come to, in terms of the messages alone.
- `Cycles` is a transition system: schedulers, cycles with their contexts and program counters, the inbox, the
  publisher's receive and the shutdown order. A `select` with several ready cases may take any of them. The pool's
  statistics are read when the last `select` is entered and may be sent much later. `Discipline`
  holds its invariant, `Protocol` the results, `Endings` exactly what can still happen from a given state,
  `SamplingOrder` when pool samples arrive in order, `Witnesses` concrete runs that show the bounds are met.
- `Cadence` is the per-query admission filter and the cadence it gives. `Health` is the liveness probe against the
  trace of fires. `Queries` and `Sorting` are the merge of query definitions, `Catalog` the row loop with its cap,
  `Dsn` the connection string against a parser of the keyword/value grammar (section 34.1.1.1 of the PostgreSQL 16
  documentation). `EndToEnd` joins the components; `Provenance` follows a value from the database to an exposed
  series. `Values` and `Tuples` hold the shared data.

A database cell is represented by the images of the two converters (`toLabelString`, total; `toFloat`, partial). Times
and intervals are nanoseconds; int64 wrap-around of products and saturation of time differences are written out.

## Where the code says otherwise

The model follows the code; these comments and documents promise something else.

- Shutdown comments (cmd/ducklake-metrics-daemon/main.go:238-246, internal/publisher/publisher.go:104-107) say the
  inbox is drained and in-flight results are dropped. The publisher may return on the cancelled context with messages
  waiting (`Witnesses.ShutdownCanDropAccepted`): all is applied exactly if nothing was waiting at its return and nothing
  was accepted since (`Endings.DrainedIff`). Cycles are not waited for, so a send on the closed inbox can panic
  (`Witnesses.LateSendCanPanic`): exactly if some cycle is bound to send at the close (`Endings.LateSendIff`).
- The completed and killed counters are described as relative to the next tick (internal/metrics/metrics.go:149-161).
  A cycle cancelled by the next tick can still complete and be counted as completed
  (`Witnesses.CancelledCycleCompletes`): exactly if its last query has begun and the inbox can take what it has left to
  send (`Endings.CancelledCompletesIff`). The killed counter also counts cycles cancelled by shutdown.
- `ResetTenantGauges` is documented as called on tenant teardown (internal/publisher/publisher.go:290-293); nothing
  calls it. It is modelled as an event that may happen at any point of a run.
- Per-query intervals are described as gone (internal/queries/queries.go:35-40), yet `IntervalSeconds` paces queries.

## What is false, and exactly when it holds

- The NUL-joined signature identifies a tuple only for a fixed arity and NUL-free labels: `Tuples.SignatureCollides`,
  `Damage.NulInLabelsLeaks`. The index stays exact if and only if no series written or live has its signature taken
  by another tuple of the result
  (`Diff.TrackedIffSeparated`); NUL-free labels are enough (`History.TrackedThroughRuns`). Text columns of Postgres
  cannot hold a NUL, but a `bytea` label is turned into a string as it is (internal/publisher/publisher.go:359-360), so
  the colliding input can be received.
- A panic in mid-apply can lose the index (`Damage.PanicLosesNewSeries`). An apply keeps it through every panic and
  iteration order if and only if the result brings no new series (`Damage.PanicProofIffNothingNew`). A reset repairs any
  damage (`History.ResetRestoresTracking`).
- A scrape can read 0 for a series during an apply, though no row offered 0: exactly for new series, between their
  creation and their first value (`Scrape.ReadsZeroIffNew`).
- A configured interval is honoured if and only if its nanoseconds fit in an int64 (`Cadence.IntervalHonouredIffFits`),
  and the health threshold if and only if twice the cycle interval does (`Health.ThresholdHonouredIffFits`).
- The empty-acquire counter can overstate without any pool recreation: a cancelled cycle may deliver its sample after a
  newer cycle's (`Witnesses.LateSampleOverstates`). In every run it falls short of the truth by the sum, over
  consecutive deliveries, of the smaller of the acquires between them and the count thrown away between them; it never
  overstates if and only if no prefix of that sum is negative (`EmptyAcquires.Shortfall`). With no count thrown away
  that means that no sample is overtaken by a higher one (`EmptyAcquires.OverstatesIffOvertaken`).
- Delivered in sampling order it never overstates (`EmptyAcquires.NeverOverstates`), and is exact if and only if between
  no two consecutive deliveries both an acquire happened and a recreation threw away a count
  (`EmptyAcquires.ExactIffNoLossyGap`). Samples are sent in sampling order if no two cycles of a tenant ever hold one at
  once (`SamplingOrder.SamplesInOrder`).

## Model

| member | source | states |
|---|---|---|
| Tuples.SignatureInjective | internal/publisher/publisher.go:184-195 | for a fixed arity and NUL-free components, equal NUL-joined signatures mean equal label tuples |
| Tuples.SignatureCollides | internal/publisher/publisher.go:194 | a NUL inside a label, or a different arity, makes two different tuples share a signature |
| Publishing.Publisher.constructor | internal/publisher/publisher.go:87-102 | the spec table holds the last query of each name and matches the registered gauges; all state starts empty |
| Publishing.SpecFindsEachQuery | internal/publisher/publisher.go:87-91 | with distinct names, looking up any configured query by its name returns that very query |
| Publishing.RegisteredMatchesSpec | internal/metrics/metrics.go:182-198 | the registered gauges cover exactly the spec's names, one gauge per distinct value column |
| Publishing.IndexLabelColumns | internal/publisher/publisher.go:316-330 | succeeds iff every label column is present; position k is then the last column named by label k, in declared order |
| Publishing.IndexValueColumns | internal/publisher/publisher.go:334-348 | succeeds iff every value column is present; maps exactly the value columns, each to the last column of its name |
| Publishing.Publisher.WriteCell | internal/publisher/publisher.go:217-237 | one value column: a NULL or unconvertible cell is counted; otherwise the series is created if absent and then set, with a panic possible before each |
| Diff.BadCellsKeepSeries | internal/publisher/publisher.go:217-236 | after an uncut apply a series whose cells in the result are all missing, NULL or unconvertible keeps its old value or stays absent |
| Diff.LastGoodCellDecides | internal/publisher/publisher.go:210-238 | the last cell of a series that is a datum with a numeric reading is what the series reads afterwards |
| Publishing.Publisher.WriteRow | internal/publisher/publisher.go:211-238 | one row's value columns in any iteration order, up to a panic |
| Publishing.Publisher.WriteRows | internal/publisher/publisher.go:210-239 | the whole Set phase, row by row, up to a panic |
| Publishing.Publisher.BuildTuples | internal/publisher/publisher.go:187-195 | the loop builds the new tuple table: keyed by signature, later rows replacing earlier ones |
| Diff.LastTupleTracked | internal/publisher/publisher.go:187-195 | of rows under one signature, the last one's tuple is the one tracked |
| Publishing.Publisher.DropStale | internal/publisher/publisher.go:241-250 | deletes from every gauge of the query exactly the tracked tuples whose signature is gone, up to a panic |
| Publishing.Publisher.Refresh | internal/publisher/publisher.go:187-254 | Set phase, then Delete phase, then storing the new tuples, cut where a panic falls |
| Publishing.Publisher.ApplyQuery | internal/publisher/publisher.go:153-256 | every branch of the result handler: failed, unknown, unregistered, missing column, diff; the column positions it looks up drop out, cells are read by column name alone |
| Publishing.Publisher.BumpEmptyAcquireCounter | internal/publisher/publisher.go:268-288 | afterwards the tenant is seen and the sample is its baseline; the counter has grown by max(0, sample - baseline), by nothing at the first sample; no other tenant is affected |
| Publishing.Publisher.ApplyPoolStat | internal/publisher/publisher.go:258-266 | three pool gauges, then the sampled counter, cut where a panic falls |
| Accounts.PoolStatOutcome | internal/publisher/publisher.go:258-266 | an uncut pool message sets exactly its tenant's acquired, idle and total gauges to its acquired, idle and total levels, feeds the empty-acquire mirror, and touches nothing else |
| Accounts.PoolGaugesFollow | internal/publisher/publisher.go:258-266 | over every run, panics included, each pool gauge of a tenant reads what its last pool message that got as far as that gauge said, and is absent since a reset |
| Publishing.Publisher.SafeApply | internal/publisher/publisher.go:127-151 | one message moves the whole state by its plan, or by the prefix before a panic plus one panic count |
| Accounts.EventPanics | internal/publisher/publisher.go:127-140 | a panicking apply does the steps before the cut and adds 1 to its tenant's panics, moving no other field; any other event counts no panic |
| Accounts.PanicsAccounted | internal/publisher/publisher.go:127-140 | over every run a tenant's panic counter is the number of its applies that a panic ended |
| Publishing.Publisher.Run | internal/publisher/publisher.go:113-125 | consumes a prefix of the inbox in order; all of it unless the done context is noticed first |
| Publishing.Publisher.ResetTenantGauges | internal/publisher/publisher.go:294-311 | the tenant has no series or pool gauge left, every other series is as before, nothing is tracked for it, its next sample emits nothing, counters and other tenants are untouched |
| Steps.ScheduleExists | internal/publisher/publisher.go:216-250 | every message can be applied under some map iteration order in every state, so the quantification over schedules is never empty |
| Isolation.EventConfined | internal/publisher/publisher.go:127-256 | one message or reset, cut by a panic anywhere, changes nothing of any other tenant: series, tracking, errors, panics, baselines, pool |
| Isolation.NonInterference | internal/publisher/publisher.go:113-256 | whatever the other tenants send and wherever panics strike, a tenant's slice is what running its own events alone gives |
| Isolation.InterleavingsAgree | internal/publisher/publisher.go:113-125 | any two interleavings with the same messages in the same order per tenant end in the same whole state, whatever order the maps were iterated in; only applies cut by a panic must be cut alike |
| Outcomes.RefreshOutcome | internal/publisher/publisher.go:184-254 | a panic-free apply gives each series the last row's convertible cell, removes dropped tuples, keeps the rest, counts the bad cells; the schedule does not appear |
| Outcomes.OrderIndependence | internal/publisher/publisher.go:216-250 | two applies of a message from one state agree whatever order the value, previous-tuple and gauge maps were iterated in |
| Outcomes.ColumnOrderIrrelevant | internal/publisher/publisher.go:171-182 | hence permuting or repeating the result's column list changes nothing: the plan ApplyQuery carries out depends only on which columns there are |
| Diff.TrackedIffSeparated | internal/publisher/publisher.go:184-254 | after any accepted result, NULL and unconvertible cells included, every live series of the tenant is stored under its own signature iff no series the result has a number for, or that was live before, has its signature taken by a different tuple of the result |
| Diff.DiffIsRecompute | internal/publisher/publisher.go:197-254 | the diff against stored tuples gives the same series as a stateless drop-and-write of the tenant's series of the query |
| Diff.RecomputeIsRepopulate | internal/publisher/publisher.go:197-254 | when every cell converts, that is wiping the tenant's series of the query and rewriting; exactly the result's tuples are then live |
| History.NulFreeSeparated | internal/publisher/publisher.go:184-195 | NUL-free labels rule out collisions with the result and with every live series |
| History.TrackedThroughRuns | internal/publisher/publisher.go:241-254 | a tenant whose own applies do not panic stays exactly tracked through every run, whatever others do, their panics included |
| History.ResetRestoresTracking | internal/publisher/publisher.go:294-311 | from any state, a reset leaves the tenant no series, tracked again, and every other tenant unchanged |
| History.HistoryIsRecomputation | internal/publisher/publisher.go:184-254 | over every panic-free history the exposed series equal those of a publisher that keeps no shadow state |
| History.DiffIsRepopulate | internal/publisher/publisher.go:184-254 | after any history, a numeric result leaves the tenant's slice exactly as wiping and rewriting it would |
| Damage.PanicKeepsTrackedIff | internal/publisher/publisher.go:127-140 | a panic at a given step keeps the index exact iff every series written before it had its tuple tracked already |
| Damage.PanicProofIffNothingNew | internal/publisher/publisher.go:127-140 | every panic under every iteration order keeps the index exact iff each series the result has a number for is already tracked under its signature |
| Damage.PanicLosesNewSeries | internal/publisher/publisher.go:127-140 | a concrete one-row result and a panic after its first write leave an untracked series, under every iteration order |
| Damage.WrittenSurvives | internal/publisher/publisher.go:210-250 | nothing an apply has written is deleted again by the same apply |
| Damage.CollisionLeaks | internal/publisher/publisher.go:241-254 | if two series of a result have numbers and different tuples under one signature, a following empty result leaves one of them exposed |
| Damage.NulInLabelsLeaks | internal/publisher/publisher.go:187-195 | a concrete two-row result with NULs in its labels loses tracking and leaks a series under every iteration order |
| Scrape.NoScrapeGap | internal/publisher/publisher.go:197-250 | at every point of an apply, a series present before and after is present; what is read is the old value, one the rows offer, or 0 for a series just created and not yet set |
| Scrape.ReadsZeroIffNew | internal/publisher/publisher.go:237 | a series absent before can be read as 0 awaiting its first value iff the result has a number for it |
| Scrape.EverySeriesOffered | internal/publisher/publisher.go:113-256 | through every run with panics, resets and collisions, each exposed series has a value some applied result offered, or 0 if a panic fell between its creation and first value |
| Scrape.PlanShape | internal/publisher/publisher.go:210-250 | no write follows a Delete, every Set carries a number some row offers, and every creation is immediately followed by its Set |
| Scrape.ErrorsAccounted | internal/publisher/publisher.go:153-236 | over every run, a tenant and query's error counter is the sum of 1 per failed message or per message lacking a label or value column, and otherwise 1 per missing, NULL or unconvertible value cell |
| Scrape.RejectedLeavesGauges | internal/publisher/publisher.go:153-182 | the whole new state after a rejected result: unknown does nothing, failed or mis-columned counts one error, or one panic if the counting panics |
| EmptyAcquires.EmittedIsRises | internal/publisher/publisher.go:268-288 | emitted is the sum of positive differences of the samples; less the drops it is last minus first |
| EmptyAcquires.NeverOverstates | internal/publisher/publisher.go:268-288 | samples delivered in sampling order, some perhaps lost: through any acquires and recreations the counter never exceeds the true empty acquires since the first observation |
| EmptyAcquires.ExactWhenUndisturbed | internal/publisher/publisher.go:268-288 | in sampling order and with no count thrown away, every delivery brings the counter to the truth at its sampling |
| EmptyAcquires.AcquiresConserved | internal/publisher/publisher.go:268-288 | in any delivery order: true acquires between the first and last delivered readings = emitted + thrown away by recreations - what the delivered samples fell by |
| EmptyAcquires.ExactIffNoLossyGap | internal/publisher/publisher.go:281-287 | in sampling order, the counter is exact iff between no two consecutive deliveries both an acquire happened and a recreation threw away a nonzero count |
| EmptyAcquires.Shortfall | internal/publisher/publisher.go:268-288 | in every run, any recreations and any delivery order: truth - emitted is the sum over consecutive deliveries of min(acquires between, count thrown away between); so it is exact iff that sum is 0 and no delivery overstated iff no prefix sum is negative |
| EmptyAcquires.OverstatesIffOvertaken | internal/publisher/publisher.go:281-287 | corollary with no count thrown away: the surplus is what the delivered samples fell by; no delivery overstates iff none arrives after one that had counted more |
| EmptyAcquires.RecreationUnderstates | internal/publisher/publisher.go:281-287 | one acquire and one recreation between two samples are enough to understate |
| Cadence.Scheduler.DueQueries | internal/runner/runner.go:248-271 | the two loops return the due queries and record their run times as the admission function says |
| Cadence.AdmitIsFilter | internal/runner/runner.go:259-270 | with distinct names a fire dispatches, in order, exactly the queries due at its start and records exactly those |
| Cadence.ShortcutUnobservable | internal/runner/runner.go:249-258 | skipping the records when no query has an interval gives the dispatches of the general loop over whole runs |
| Cadence.IntervalHonouredIffFits | internal/runner/runner.go:262-263 | the admission test is "elapsed >= interval" for all times iff the interval in nanoseconds fits in an int64 |
| Cadence.SixtyFourBits | internal/runner/runner.go:262-263 | the int64 product stays in range and is off by a multiple of 2^64; the time difference moves only when it does not fit, to the nearer bound |
| Cadence.WrappedIntervalAlwaysDue | internal/runner/runner.go:262-263 | an interval of 9223372037 seconds wraps round and is always due |
| Cadence.NextDispatch | internal/runner/runner.go:259-270 | after a dispatch, a later fire with none between dispatches iff a full interval has passed |
| Cadence.DispatchSpacing | internal/runner/runner.go:135-157 | with tick gaps of at most G, consecutive dispatches are at least I and less than I+G apart |
| Cadence.WindowBound | internal/runner/runner.go:248-271 | fires within a span of length L dispatch the query at most floor(L/I)+1 times |
| Cadence.ExactCadence | internal/runner/runner.go:248-271 | with fires at t0+i*T a query of interval I runs at fire i iff i is a multiple of ceil(I/T) |
| Cadence.UnpacedAlwaysRuns | internal/runner/runner.go:248-258 | a query without an interval runs at every fire |
| Cycles.CycleStepOk | internal/runner/runner.go:177-238 | every step of a cycle keeps its message order, its outcome and the bound on late messages |
| Discipline.AlwaysOk | internal/runner/runner.go:111-238 | the invariant over schedulers, cycles, counters and channel holds in every reachable state |
| Discipline.ChannelKept | cmd/ducklake-metrics-daemon/main.go:196-212 | every action keeps accepted = applied ++ inbox in FIFO order, at most 1024 waiting, and per cycle exactly what it sent |
| Protocol.MessageDiscipline | internal/runner/runner.go:198-237 | what a cycle has sent is a prefix of its due queries' results then one pool message, and all of it iff it completed; the channel carries exactly that |
| Protocol.AtMostTwoLateMessages | internal/runner/runner.go:198-235 | after its cancellation a cycle gets at most two messages accepted, two only as last result then pool message |
| Protocol.FiresAccountedFor | internal/runner/runner.go:127-196 | at most the newest cycle is uncancelled, none once Run returned; without the root cancellation nothing cancels the newest cycle and Run has not returned; fires = completed + killed + running + uncounted panics; other exits imply cancellation |
| Protocol.FiredAfterRootIsStillborn | internal/runner/runner.go:143-201 | in every run a cycle fired after the root cancellation is cancelled ever after: with due queries it runs none, sends nothing and ends only as killed; without any it sends at most the pool message |
| Protocol.PanicCounted | internal/runner/runner.go:180-196 | any panic in a cycle followed by its exit adds 1 to the panics and 1 to the killed exactly if its context was cancelled, and sends nothing |
| Protocol.NothingEnqueuedAfterClose | cmd/ducklake-metrics-daemon/main.go:247-248 | once the inbox is closed it stays closed and nothing more is accepted |
| Protocol.LateSendCountsTwice | internal/runner/runner.go:180-196 | from every state with a closed inbox and a cycle at a send: the send can panic, and then bumps both the panic and the killed counter and enqueues nothing |
| Endings.LateSendIff | cmd/ducklake-metrics-daemon/main.go:246-248 | after the close, some continuation has a send that panics iff some cycle is at a running query, at a send, sampling, or past its last query |
| Endings.DrainedIff | cmd/ducklake-metrics-daemon/main.go:248-251 | at any time after the publisher's return, everything accepted was applied iff nothing was waiting then and nothing was accepted since; always so if it returned because the inbox was closed and empty |
| Endings.CancelledCompletesIff | internal/runner/runner.go:198-237 | a cancelled cycle has a continuation that counts it completed iff its last query has begun and the inbox is open with room for its remaining sends, or with the publisher still receiving |
| Protocol.ActionShrinks | internal/runner/runner.go:198-237 | every action except a fire strictly decreases the work left in the system |
| Protocol.BoundedWithoutFires | cmd/ducklake-metrics-daemon/main.go:246-255 | once ticks cease a run is no longer than the work left |
| Protocol.EveryCycleCanMove | internal/runner/runner.go:217-235 | after the root cancellation no running cycle is stuck, even with a full inbox and no publisher |
| Protocol.QuietMeansAtRest | cmd/ducklake-metrics-daemon/main.go:246-255 | after the root cancellation, a state with nothing but ticks left is at rest: every cycle exited, every scheduler returned, inbox closed, publisher gone |
| Endings.ShutdownFinishes | cmd/ducklake-metrics-daemon/main.go:246-255 | after the root cancellation every run without ticks extends to one at rest, no longer than the work that was left |
| Witnesses.CancelledCycleCompletes | internal/runner/runner.go:217-237 | a reachable run: a cancelled cycle sends two more messages, after a newer cycle's, and counts as completed |
| Witnesses.LateSampleOverstates | internal/runner/runner.go:227-235 | a reachable run whose inbox carries pool samples 8, 5, 9: the publisher emits 4 where one empty acquire happened since its first observation |
| SamplingOrder.SamplesInOrder | internal/runner/runner.go:227-235 | in every run in which no two cycles of a tenant hold a sample at once, the tenant's accepted samples are in the order they were taken |
| Witnesses.ShutdownCanDropAccepted | internal/publisher/publisher.go:113-125 | a reachable run that ends at rest with an accepted message never applied |
| Witnesses.LateSendCanPanic | internal/runner/runner.go:180-196 | a reachable run with the inbox closed and a cycle at its last send, whose panic is counted once as a panic and once as killed |
| Witnesses.FireAfterRoot | internal/runner/runner.go:163-169 | a reachable run in which the ticker wins against the cancelled context; the fired cycle is killed at its first check |
| Witnesses.QueryPanicUncounted | internal/runner/runner.go:180-196 | a reachable run in which a live cycle panics in its query: counted as a panic, not as killed or completed |
| Queries.Merge | internal/queries/queries.go:105-122 | the output is strictly sorted by name and holds, for each name the disable map does not map to true, exactly its last definition, and no name that it does |
| Queries.MergeHolds | internal/queries/queries.go:114-119 | the same of any merge, one name at a time, in terms of the raw disable map |
| Queries.MergeDetermined | internal/queries/queries.go:114-121 | any two outputs, hence any map iteration orders, agree; names are distinct |
| Queries.MergeComposes | internal/queries/queries.go:105-122 | merging in two rounds equals merging once with the lists appended |
| Sorting.SortedDetermined | internal/queries/util.go:11-13 | a strictly sorted list is determined by its members, so any correct sort gives the same one |
| Sorting.LessIsLexicographic | internal/queries/util.go:11-13 | the order of names: the first differing character decides, and a proper prefix comes first |
| Dsn.QuoteKV | internal/catalog/catalog.go:60-72 | the loop writes the quoted form of the value |
| Dsn.UnquoteQuoted | internal/catalog/catalog.go:56-72 | unquoting the quoted value followed by anything yields the value and the rest |
| Dsn.DsnRoundTrip | internal/catalog/catalog.go:41-54 | parsing the connection string by the grammar yields exactly the seven settings with the original values, and the port reads back as the same number |
| Catalog.Query | internal/catalog/catalog.go:173-205 | the row loop gives the specified answer for every sequence of rows and failures |
| Catalog.AllOrNothing | internal/catalog/catalog.go:181-204 | it succeeds iff nothing fails and the count is within the cap or the cap is off; then every row in order, otherwise none |
| Catalog.CapCutsOff | internal/catalog/catalog.go:187-190 | past the cap the error does not depend on later rows |
| Catalog.WhichError | internal/catalog/catalog.go:187-203 | which error a started query fails with: the first of row decode, row cap (before the row past it is decoded) and, after all rows, iteration |
| Catalog.RowReads | internal/catalog/catalog.go:195-198 | reading a row by name gives the last cell of that name, and nil for a missing column |
| Health.Server.HandleHealthy | internal/server/server.go:169-193 | 503 iff some tenant is stale; exactly the stale tenants are listed in order and have their own counter bumped once |
| Health.ThresholdHonouredIffFits | internal/server/server.go:71-78 | the verdict compares age with twice the interval for all times iff the doubling fits in an int64 |
| Health.SteadyFiresStayAlive | internal/server/server.go:64-80 | fires at most twice the interval apart never trip a probe |
| Health.Record.Snapshot | internal/runner/runner.go:51-68 | for clock readings after the epoch, the one stored timestamp yields the last fire of the whole recorded trace at every later probe time, and none if nothing fired |
| Health.Stagger | internal/runner/runner.go:279-286 | whatever the 64-bit hash, the first fire is delayed by an offset in [0, interval), and by none for a non-positive interval |
| Health.StaggerIsRemainder | internal/runner/runner.go:285 | the offset differs from the hash by a multiple of the interval |
| EndToEnd.AcceptedMessagesKnown | internal/runner/runner.go:198-235 | every accepted message names its sender's tenant and, for a result, a configured query the publisher resolves to itself |
| EndToEnd.MergedQueriesResolve | internal/queries/queries.go:105-122 | merged definitions have distinct names and the publisher looks up each to itself |
| EndToEnd.CycleCarriesByCadence | internal/runner/runner.go:135-157 | in every reachable state with regular fires, cycle i carries a query iff i is a multiple of ceil(interval / tick) |
| EndToEnd.Probe | internal/server/server.go:169-193 | probing any reachable state at any time: 503 iff some tenant has fired by then but not within twice the interval; exactly those tenants are listed in order and counted |
| EndToEnd.StaleAreSilent | internal/server/server.go:64-80 | in every reachable state the tenants reported stale are exactly those that have fired but not within twice the interval |
| EndToEnd.SteadySystemPasses | internal/server/server.go:64-80 | in a reachable state whose tenants' fires are at most twice the interval apart up to now, no tenant is reported |
| EndToEnd.StoppedTenantTrips | internal/server/server.go:64-80 | once a scheduler that has fired returns, then in every continuation exactly the probes later than twice the interval after its last fire report it |
| EndToEnd.TenantSeesOwnCyclesOnly | internal/publisher/publisher.go:113-125 | in every reachable state a tenant's published slice is determined by the applied messages of its own cycles |
| Provenance.ResultsAreAnswers | internal/runner/runner.go:198-222 | in every run whose queries are answered by the catalog, each accepted result is the catalog's answer to the one due query of its cycle with that name |
| Provenance.AcceptedAllOrNothing | internal/runner/runner.go:203-216 | in such a run each accepted result is marked failed and empty unless nothing failed and its rows were within the cap; otherwise it carries every row in order |
| Provenance.OverCapNeverChangesGauges | internal/catalog/catalog.go:187-190 | in such a run, applying the result of a query over the row cap changes no gauge and no tracking; it only counts one error, or one panic |
| Provenance.ExposedSeriesAreJustified | internal/runner/runner.go:198-222 | in such a run, whatever panics, each exposed series was offered by a row fetched for a due query of its own tenant's cycle, from a complete result within the cap |
| EndToEnd.ExposedSeriesAreRecomputed | internal/publisher/publisher.go:184-254 | in every reachable state, without panics and NULs, the exposed series are a function of the applied log and the names of the tenants whose cycles sent it, by stateless drop-and-write |

## Left out

- `toFloat` and `toLabelString`: library formatting and parsing; a cell carries both images. Gauges may hold NaN.
- Floating-point rounding of counter deltas: counters are integers.
- Invalid UTF-8: strings are sequences of Unicode characters, so the replacement of broken bytes is not modelled.
- The Postgres driver, Prometheus client, HTTP, YAML, environment, logging and signals; a query is any outcome, a
  gauge vector a map, and a series is keyed by query, value column and label tuple.
- Registration panics when two queries build the same metric name (internal/metrics/metrics.go:190); registration is
  taken to have succeeded.
- The FNV hash: any 64-bit value. The response bodies and the ready endpoint, query validation, connect-error classes,
  reconnect backoff and configuration checks: case lists without state.
- The duration, last-success and up gauges: plain writes no other part reads.
- Wall-clock bounds of shutdown (drain timeout, HTTP shutdown): the model says that shutdown ends, not when. It assumes
  that a running query returns.
- Endings.ShutdownFinishes: every run without ticks is bounded and can go on to rest; that the runtime does go on
  (scheduler fairness) is not modelled.
- Protocol.FiresAccountedFor: a panic outside the cycle goroutine is not modelled, so a scheduler never dies.
- Publishing.Publisher.Run: takes the messages the select received as a sequence, and the point at which it noticed the
  done context as a parameter; blocking on an empty inbox is in the transition system.
- Publishing.Publisher.SafeApply: a panic falls between metric operations, not inside one. Creating a gauge series of a
  query and setting it are two operations; creating a counter or pool gauge at 0 and its first write are one.
- Aliasing: a tenant's tracking map is read and written through one field, not through a second reference to it.
- Queries.Merge: the in-place library sort is represented by insertion sort on a sequence; by SortedDetermined no
  correct sort gives another result.
- Cadence.Scheduler.DueQueries: the fire's two clock readings (liveness and admission) are one instant.
- EndToEnd.StoppedTenantTrips: carries the int64 bound of ThresholdHonouredIffFits, which gives the exact condition.
- Cadence.ExactCadence: carries the int64 bound of IntervalHonouredIffFits, which gives the exact condition.
