/** The empty-acquire mirror against the pool it samples: a cumulative counter that a recreated pool
    resets, read at one time and delivered at another, becomes a counter that only grows. */
module EmptyAcquires {
  import opened Values
  import opened Steps

  function ObserveAll(b: Acquires, t: string, samples: seq<int>): Acquires {
    if samples == [] then b
    else Observe(ObserveAll(b, t, samples[..|samples| - 1]), t, samples[|samples| - 1])
  }

  function Rise(a: int, b: int): nat {
    if b > a then b - a else 0
  }

  /** The sum of the positive differences between consecutive samples. */
  function Rises(samples: seq<int>): nat {
    if |samples| < 2 then 0
    else
      var n := |samples| - 1;
      Rises(samples[..n]) + Rise(samples[n - 1], samples[n])
  }

  /** The sum of the sizes of the negative ones. */
  function Falls(samples: seq<int>): nat {
    if |samples| < 2 then 0
    else
      var n := |samples| - 1;
      Falls(samples[..n]) + Rise(samples[n], samples[n - 1])
  }

  /** From a tenant never seen, the counter grows by exactly the rises; less the falls that is the
      net change, and the baseline is the last sample. */
  lemma {:induction false} EmittedIsRises(b: Acquires, t: string, samples: seq<int>)
    requires t !in b.seen && samples != []
    ensures var after := ObserveAll(b, t, samples);
            && t in after.seen
            && Get(after.baselines, t) == Some(samples[|samples| - 1])
            && Count(after.total, t) == Count(b.total, t) + Rises(samples)
    ensures Rises(samples) - Falls(samples) == samples[|samples| - 1] - samples[0]
  {
    var n := |samples| - 1;
    if n > 0 {
      EmittedIsRises(b, t, samples[..n]);
    } else {
      assert samples[..0] == [];
    }
  }

  lemma RisesOfThree(a: int, b: int, c: int)
    ensures Rises([a, b, c]) == Rise(a, b) + Rise(b, c)
  {
    assert [a, b, c][..2] == [a, b];
    assert Rises([a, b]) == Rise(a, b);
  }

  // ----- the pool -----

  /** The pool counts an empty acquire, is recreated with its counter at 0, or is read by a cycle; a
      reading reaches the publisher later, and readings may overtake each other or be lost. */
  datatype PoolEvent = Acquire | Recreate | Sample | Deliver(serial: nat)

  /** What was read, its place in the order of sampling, and what had really happened by then: the
      empty acquires, and how much of their count recreations had thrown away. */
  datatype Reading = Reading(serial: nat, value: nat, acquires: nat, wasted: nat)

  datatype World = World(
    pool: nat,
    acquires: nat,
    wasted: nat,
    taken: seq<Reading>,
    delivered: seq<Reading>,
    mirror: Acquires)

  function Next(w: World, t: string, e: PoolEvent): World {
    match e
    case Acquire => w.(pool := w.pool + 1, acquires := w.acquires + 1)
    case Recreate => w.(pool := 0, wasted := w.wasted + w.pool)
    case Sample => w.(taken := w.taken + [Reading(|w.taken|, w.pool, w.acquires, w.wasted)])
    case Deliver(k) =>
      if k >= |w.taken| then w
      else w.(delivered := w.delivered + [w.taken[k]], mirror := Observe(w.mirror, t, w.taken[k].value))
  }

  function NextAll(w: World, t: string, es: seq<PoolEvent>): World {
    if es == [] then w else Next(NextAll(w, t, es[..|es| - 1]), t, es[|es| - 1])
  }

  predicate Fresh(w: World, t: string) {
    t !in w.mirror.seen && w.taken == [] && w.delivered == []
  }

  function Samples(readings: seq<Reading>): seq<int> {
    seq(|readings|, i requires 0 <= i < |readings| => readings[i].value)
  }

  /** What the exported counter has grown by. */
  function Emitted(start: World, w: World, t: string): int {
    Count(w.mirror.total, t) - Count(start.mirror.total, t)
  }

  /** The empty acquires between the first and the last delivered reading. */
  function Truth(delivered: seq<Reading>): int
    requires delivered != []
  {
    delivered[|delivered| - 1].acquires - delivered[0].acquires
  }

  /** How much of the count recreations threw away between them. */
  function Lost(delivered: seq<Reading>): int
    requires delivered != []
  {
    delivered[|delivered| - 1].wasted - delivered[0].wasted
  }

  /** Every reading tells the acquires but for what was thrown away. */
  ghost predicate Ledger(readings: seq<Reading>, offset: int) {
    forall i :: 0 <= i < |readings| ==> readings[i].value + readings[i].wasted == readings[i].acquires + offset
  }

  /** The true counts grow along the readings. */
  ghost predicate Grows(readings: seq<Reading>) {
    forall i, j :: 0 <= i <= j < |readings| ==>
      readings[i].acquires <= readings[j].acquires && readings[i].wasted <= readings[j].wasted
  }

  ghost predicate TakenOk(w: World, offset: int) {
    && w.pool + w.wasted == w.acquires + offset
    && Ledger(w.taken, offset)
    && Grows(w.taken)
    && forall i :: 0 <= i < |w.taken| ==>
         w.taken[i].serial == i && w.taken[i].acquires <= w.acquires && w.taken[i].wasted <= w.wasted
  }

  ghost predicate DeliveredOk(w: World) {
    forall i :: 0 <= i < |w.delivered| ==>
      w.delivered[i].serial < |w.taken| && w.delivered[i] == w.taken[w.delivered[i].serial]
  }

  lemma NextTaken(w: World, t: string, e: PoolEvent, offset: int)
    requires TakenOk(w, offset)
    ensures TakenOk(Next(w, t, e), offset)
  {
  }

  lemma NextMirror(w: World, t: string, e: PoolEvent, b: Acquires)
    requires w.mirror == ObserveAll(b, t, Samples(w.delivered))
    ensures Next(w, t, e).mirror == ObserveAll(b, t, Samples(Next(w, t, e).delivered))
  {
    if e.Deliver? && e.serial < |w.taken| {
      var samples := Samples(w.delivered + [w.taken[e.serial]]);
      assert samples[..|samples| - 1] == Samples(w.delivered);
    }
  }

  ghost predicate Consistent(w: World, t: string, offset: int, b: Acquires) {
    TakenOk(w, offset) && DeliveredOk(w) && w.mirror == ObserveAll(b, t, Samples(w.delivered))
  }

  lemma NextDelivered(w: World, t: string, e: PoolEvent)
    requires DeliveredOk(w) && forall i :: 0 <= i < |w.taken| ==> w.taken[i].serial == i
    ensures DeliveredOk(Next(w, t, e))
  {
  }

  lemma NextConsistent(w: World, t: string, e: PoolEvent, offset: int, b: Acquires)
    requires Consistent(w, t, offset, b)
    ensures Consistent(Next(w, t, e), t, offset, b)
  {
    NextTaken(w, t, e, offset);
    NextDelivered(w, t, e);
    NextMirror(w, t, e, b);
  }

  lemma {:induction false} AlwaysConsistent(start: World, t: string, es: seq<PoolEvent>)
    requires Fresh(start, t)
    ensures Consistent(NextAll(start, t, es), t, start.pool + start.wasted - start.acquires, start.mirror)
  {
    if es != [] {
      var n, offset := |es| - 1, start.pool + start.wasted - start.acquires;
      AlwaysConsistent(start, t, es[..n]);
      NextConsistent(NextAll(start, t, es[..n]), t, es[n], offset, start.mirror);
    }
  }

  lemma InOrderGrows(w: World)
    requires Grows(w.taken) && DeliveredOk(w) && InOrder(w.delivered)
    ensures Grows(w.delivered)
  {
    forall i, j | 0 <= i <= j < |w.delivered|
      ensures w.delivered[i].acquires <= w.delivered[j].acquires && w.delivered[i].wasted <= w.delivered[j].wasted
    {
      var a, b := w.delivered[i].serial, w.delivered[j].serial;
      assert a <= b;
      assert w.taken[a].acquires <= w.taken[b].acquires;
    }
  }

  lemma DeliveredLedger(start: World, t: string, es: seq<PoolEvent>)
    requires Fresh(start, t)
    ensures var w := NextAll(start, t, es);
            && Ledger(w.delivered, start.pool + start.wasted - start.acquires)
            && (w.delivered != [] ==> Emitted(start, w, t) == Rises(Samples(w.delivered)))
            && (forall i :: 0 <= i < |w.delivered| ==> w.delivered[i].acquires <= w.acquires)
            && (InOrder(w.delivered) ==> Grows(w.delivered))
  {
    AlwaysConsistent(start, t, es);
    var w := NextAll(start, t, es);
    if InOrder(w.delivered) {
      InOrderGrows(w);
    }
    if w.delivered != [] {
      EmittedIsRises(start.mirror, t, Samples(w.delivered));
    }
  }

  // ----- what is conserved -----

  /** Conservation, in whatever order the readings arrive: what really happened is what was emitted,
      plus what recreations threw away, less what the arriving samples fell by. */
  lemma AcquiresConserved(start: World, t: string, es: seq<PoolEvent>)
    requires Fresh(start, t) && NextAll(start, t, es).delivered != []
    ensures var w := NextAll(start, t, es);
            Truth(w.delivered) == Emitted(start, w, t) + Lost(w.delivered) - Falls(Samples(w.delivered))
  {
    var w := NextAll(start, t, es);
    DeliveredLedger(start, t, es);
    EmittedIsRises(start.mirror, t, Samples(w.delivered));
    assert Ledger(w.delivered, start.pool + start.wasted - start.acquires);
  }

  // ----- how far the counter falls short, or exceeds -----

  /** What the mirror misses between two readings: acquires whose count was thrown away. It is negative,
      an excess, if the later delivered reading was taken earlier. */
  function Missed(a: Reading, b: Reading): int {
    var acquires, wasted := b.acquires - a.acquires, b.wasted - a.wasted;
    if acquires < wasted then acquires else wasted
  }

  function MissedBetween(delivered: seq<Reading>): int {
    if |delivered| < 2 then 0
    else
      var n := |delivered| - 1;
      MissedBetween(delivered[..n]) + Missed(delivered[n - 1], delivered[n])
  }

  lemma {:induction false} ShortfallOf(readings: seq<Reading>, offset: int)
    requires readings != [] && Ledger(readings, offset)
    ensures Truth(readings) - Rises(Samples(readings)) == MissedBetween(readings)
  {
    var n := |readings| - 1;
    if n > 0 {
      var samples := Samples(readings);
      ShortfallOf(readings[..n], offset);
      assert samples[..n] == Samples(readings[..n]);
      assert Rises(samples) == Rises(samples[..n]) + Rise(samples[n - 1], samples[n]);
    }
  }

  /** At every delivery so far, the counter was within the truth up to that reading. */
  ghost predicate NeverOver(delivered: seq<Reading>) {
    forall n :: 1 <= n <= |delivered| ==> Rises(Samples(delivered[..n])) <= Truth(delivered[..n])
  }

  /** For every run, with recreations and readings overtaking each other: the counter falls short of the
      truth by what was missed between consecutive deliveries. So it is exact if and only if these sum to
      0, and has never overstated if and only if no prefix of them sums to less than 0. */
  lemma Shortfall(start: World, t: string, es: seq<PoolEvent>)
    requires Fresh(start, t) && NextAll(start, t, es).delivered != []
    ensures var w := NextAll(start, t, es);
            && Truth(w.delivered) - Emitted(start, w, t) == MissedBetween(w.delivered)
            && (Emitted(start, w, t) == Truth(w.delivered) <==> MissedBetween(w.delivered) == 0)
            && (NeverOver(w.delivered) <==>
                 forall n :: 1 <= n <= |w.delivered| ==> MissedBetween(w.delivered[..n]) >= 0)
  {
    var d, offset := NextAll(start, t, es).delivered, start.pool + start.wasted - start.acquires;
    DeliveredLedger(start, t, es);
    ShortfallOf(d, offset);
    forall n | 1 <= n <= |d| ensures Truth(d[..n]) - Rises(Samples(d[..n])) == MissedBetween(d[..n]) {
      ShortfallOf(d[..n], offset);
    }
  }

  // ----- readings delivered in the order they were taken -----

  predicate InOrder(delivered: seq<Reading>) {
    forall i, j :: 0 <= i < j < |delivered| ==> delivered[i].serial <= delivered[j].serial
  }

  /** Between the two readings an acquire happened and a recreation threw some count away. */
  predicate Lossy(a: Reading, b: Reading) {
    a.acquires < b.acquires && a.wasted < b.wasted
  }

  ghost predicate NoLossyGap(delivered: seq<Reading>) {
    forall i :: 0 <= i < |delivered| - 1 ==> !Lossy(delivered[i], delivered[i + 1])
  }

  lemma NoLossyGapLast(readings: seq<Reading>)
    requires |readings| > 1
    ensures var n := |readings| - 1;
            NoLossyGap(readings) <==> NoLossyGap(readings[..n]) && !Lossy(readings[n - 1], readings[n])
  {
    var n := |readings| - 1;
    assert Lossy(readings[n - 1], readings[n - 1 + 1]) == Lossy(readings[n - 1], readings[n]);
    if NoLossyGap(readings) {
      assert forall i :: 0 <= i < n - 1 ==> !Lossy(readings[i], readings[i + 1]);
    }
  }

  lemma {:induction false} GrowingMissesNothingIff(readings: seq<Reading>)
    requires Grows(readings)
    ensures MissedBetween(readings) >= 0
    ensures MissedBetween(readings) == 0 <==> NoLossyGap(readings)
  {
    if |readings| > 1 {
      GrowingMissesNothingIff(readings[..|readings| - 1]);
      NoLossyGapLast(readings);
    }
  }

  /** Delivered in sampling order, through any acquires and recreations and with any readings lost, the
      counter never exceeds the empty acquires since the first observation. */
  lemma NeverOverstates(start: World, t: string, es: seq<PoolEvent>)
    requires Fresh(start, t)
    requires var d := NextAll(start, t, es).delivered; d != [] && InOrder(d)
    ensures var w := NextAll(start, t, es);
            0 <= Emitted(start, w, t) <= Truth(w.delivered) <= w.acquires - w.delivered[0].acquires
  {
    DeliveredLedger(start, t, es);
    Shortfall(start, t, es);
    GrowingMissesNothingIff(NextAll(start, t, es).delivered);
  }

  /** ... and it is exact exactly when between no two consecutive deliveries both an acquire happened
      and a recreation threw away a count. */
  lemma ExactIffNoLossyGap(start: World, t: string, es: seq<PoolEvent>)
    requires Fresh(start, t)
    requires var d := NextAll(start, t, es).delivered; d != [] && InOrder(d)
    ensures var w := NextAll(start, t, es);
            Emitted(start, w, t) == Truth(w.delivered) <==> NoLossyGap(w.delivered)
  {
    DeliveredLedger(start, t, es);
    Shortfall(start, t, es);
    GrowingMissesNothingIff(NextAll(start, t, es).delivered);
  }

  // ----- no count thrown away -----

  /** No recreation threw any count away between two delivered readings. */
  ghost predicate Undisturbed(delivered: seq<Reading>) {
    forall i, j :: 0 <= i < |delivered| && 0 <= j < |delivered| ==> delivered[i].wasted == delivered[j].wasted
  }

  /** No reading arrives after one that had counted more. */
  ghost predicate NoneOvertaken(delivered: seq<Reading>) {
    forall i, j :: 0 <= i < j < |delivered| ==> delivered[i].acquires <= delivered[j].acquires
  }

  lemma {:induction false} NeverNegativeIff(readings: seq<Reading>)
    requires Undisturbed(readings)
    ensures MissedBetween(readings) <= 0
    ensures MissedBetween(readings) == 0 <==> NoneOvertaken(readings)
  {
    var n := |readings| - 1;
    if n > 0 {
      NeverNegativeIff(readings[..n]);
      if NoneOvertaken(readings) {
        assert NoneOvertaken(readings[..n]);
      }
      if MissedBetween(readings) == 0 {
        assert forall i :: 0 <= i < n ==> readings[..n][i].acquires <= readings[..n][n - 1].acquires;
      }
    }
  }

  /** From a pool that loses no count the counter exceeds the truth by exactly what the arriving samples
      fell by, and it has never overstated if and only if no reading was overtaken by a higher one. */
  lemma OverstatesIffOvertaken(start: World, t: string, es: seq<PoolEvent>)
    requires Fresh(start, t)
    requires var d := NextAll(start, t, es).delivered; d != [] && Undisturbed(d)
    ensures var w := NextAll(start, t, es);
            && Emitted(start, w, t) - Truth(w.delivered) == Falls(Samples(w.delivered))
            && (NeverOver(w.delivered) <==> NoneOvertaken(w.delivered))
  {
    var d := NextAll(start, t, es).delivered;
    AcquiresConserved(start, t, es);
    Shortfall(start, t, es);
    NeverNegativeIff(d);
    assert d[..|d|] == d;
    if NoneOvertaken(d) {
      forall n | 1 <= n <= |d| ensures MissedBetween(d[..n]) >= 0 {
        NeverNegativeIff(d[..n]);
      }
    }
  }

  /** Without a loss of count and in sampling order every delivery brings the counter to the truth. */
  lemma ExactWhenUndisturbed(start: World, t: string, es: seq<PoolEvent>)
    requires Fresh(start, t)
    requires var d := NextAll(start, t, es).delivered; d != [] && InOrder(d) && Undisturbed(d)
    ensures var w := NextAll(start, t, es); Emitted(start, w, t) == Truth(w.delivered)
  {
    ExactIffNoLossyGap(start, t, es);
  }

  // ----- both bounds are met -----

  lemma NextSnoc(w: World, t: string, es: seq<PoolEvent>, e: PoolEvent)
    ensures NextAll(w, t, es + [e]) == Next(NextAll(w, t, es), t, e)
  {
    assert (es + [e])[..|es|] == es;
  }

  const EMPTY_POOL: World := World(0, 0, 0, [], [], INITIAL.acquires)

  /** One recreation of a pool that had counted past the first reading is enough to understate. */
  lemma RecreationUnderstates(t: string) returns (es: seq<PoolEvent>)
    ensures var w := NextAll(EMPTY_POOL, t, es);
            && w.delivered == [Reading(0, 0, 0, 0), Reading(1, 0, 1, 1)]
            && InOrder(w.delivered)
            && Emitted(EMPTY_POOL, w, t) < Truth(w.delivered)
  {
    es := [] + [Sample] + [Deliver(0)] + [Acquire] + [Recreate] + [Sample] + [Deliver(1)];
    NextSnoc(EMPTY_POOL, t, [], Sample);
    NextSnoc(EMPTY_POOL, t, [] + [Sample], Deliver(0));
    NextSnoc(EMPTY_POOL, t, [] + [Sample] + [Deliver(0)], Acquire);
    NextSnoc(EMPTY_POOL, t, [] + [Sample] + [Deliver(0)] + [Acquire], Recreate);
    NextSnoc(EMPTY_POOL, t, [] + [Sample] + [Deliver(0)] + [Acquire] + [Recreate], Sample);
    NextSnoc(EMPTY_POOL, t, [] + [Sample] + [Deliver(0)] + [Acquire] + [Recreate] + [Sample], Deliver(1));
    var w := NextAll(EMPTY_POOL, t, es);
    assert w.delivered == [Reading(0, 0, 0, 0), Reading(1, 0, 1, 1)];
    ExactIffNoLossyGap(EMPTY_POOL, t, es);
    assert Lossy(w.delivered[0], w.delivered[0 + 1]);
    NeverOverstates(EMPTY_POOL, t, es);
  }
}
