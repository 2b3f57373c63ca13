/** Which queries a scheduler fire dispatches, and the cadence that results over whole runs. */
module Cadence {
  import opened Values

  const SECOND: int := 1_000_000_000
  const MAX64: int := 0x7fff_ffff_ffff_ffff

  /** An int64 product, which wraps around. */
  function Wrap64(x: int): int {
    (x + MAX64 + 1) % (2 * (MAX64 + 1)) - (MAX64 + 1)
  }

  /** time.Time.Sub, which saturates instead. */
  function Saturate(d: int): int {
    if d > MAX64 then MAX64 else if d < -MAX64 - 1 then -MAX64 - 1 else d
  }

  /** Both stay within an int64; wrapping is off by a multiple of 2^64, saturating moves only what does
      not fit, to the nearer bound. */
  lemma SixtyFourBits(x: int)
    ensures -0x8000_0000_0000_0000 <= Wrap64(x) <= 0x7fff_ffff_ffff_ffff
    ensures (x - Wrap64(x)) % 0x1_0000_0000_0000_0000 == 0
    ensures -0x8000_0000_0000_0000 <= Saturate(x) <= 0x7fff_ffff_ffff_ffff
    ensures x < Saturate(x) ==> Saturate(x) == -0x8000_0000_0000_0000
    ensures x > Saturate(x) ==> Saturate(x) == 0x7fff_ffff_ffff_ffff
  {
  }

  /** time.Duration(q.IntervalSeconds) * time.Second */
  function EffectiveInterval(q: Query): int {
    Wrap64(q.intervalSeconds * SECOND)
  }

  type LastRun = map<string, int>

  predicate IsDue(q: Query, lastRun: LastRun, now: int) {
    q.intervalSeconds <= 0 || q.name !in lastRun || Saturate(now - lastRun[q.name]) >= EffectiveInterval(q)
  }

  datatype Admission = Admission(due: seq<Query>, lastRun: LastRun)

  /** The general loop: each due query is recorded before the next one is looked at. */
  function Admit(qs: seq<Query>, lastRun: LastRun, now: int): Admission {
    if qs == [] then Admission([], lastRun)
    else
      var n := |qs| - 1;
      var before := Admit(qs[..n], lastRun, now);
      if IsDue(qs[n], before.lastRun, now)
      then Admission(before.due + [qs[n]], before.lastRun[qs[n].name := now])
      else before
  }

  predicate AnyInterval(qs: seq<Query>) {
    exists i :: 0 <= i < |qs| && qs[i].intervalSeconds > 0
  }

  /** Without any custom interval the queries are returned as they are and nothing is recorded. */
  function Due(qs: seq<Query>, lastRun: LastRun, now: int): Admission {
    if AnyInterval(qs) then Admit(qs, lastRun, now) else Admission(qs, lastRun)
  }

  class Scheduler {
    var lastRun: LastRun

    constructor ()
      ensures lastRun == map[]
    {
      lastRun := map[];
    }

    method DueQueries(qs: seq<Query>, now: int) returns (due: seq<Query>)
      modifies this
      ensures Admission(due, lastRun) == Due(qs, old(lastRun), now)
    {
      var anyInterval := false;
      for i := 0 to |qs|
        invariant anyInterval == exists j :: 0 <= j < i && qs[j].intervalSeconds > 0
      {
        if qs[i].intervalSeconds > 0 {
          anyInterval := true;
          break;
        }
      }
      if !anyInterval {
        return qs;
      }
      due := [];
      for i := 0 to |qs|
        invariant Admission(due, lastRun) == Admit(qs[..i], old(lastRun), now)
      {
        assert qs[..i + 1][..i] == qs[..i];
        var q := qs[i];
        if q.intervalSeconds > 0 {
          if q.name in lastRun && Saturate(now - lastRun[q.name]) < EffectiveInterval(q) {
            continue;
          }
        }
        lastRun := lastRun[q.name := now];
        due := due + [q];
      }
      assert qs[..|qs|] == qs;
    }
  }

  // ----- one fire -----

  ghost predicate DistinctNames(qs: seq<Query>) {
    forall i, j :: 0 <= i < j < |qs| ==> qs[i].name != qs[j].name
  }

  function Filter(qs: seq<Query>, lastRun: LastRun, now: int): seq<Query> {
    if qs == [] then []
    else
      var n := |qs| - 1;
      Filter(qs[..n], lastRun, now) + if IsDue(qs[n], lastRun, now) then [qs[n]] else []
  }

  /** With distinct names a fire dispatches, in order, exactly the queries due at its start, and
      records the time for exactly those. */
  lemma {:induction false} AdmitIsFilter(qs: seq<Query>, lastRun: LastRun, now: int)
    requires DistinctNames(qs)
    ensures Admit(qs, lastRun, now).due == Filter(qs, lastRun, now)
    ensures forall name :: (forall i :: 0 <= i < |qs| ==> qs[i].name != name) ==>
              Get(Admit(qs, lastRun, now).lastRun, name) == Get(lastRun, name)
    ensures forall i :: 0 <= i < |qs| ==>
              Get(Admit(qs, lastRun, now).lastRun, qs[i].name) ==
                if IsDue(qs[i], lastRun, now) then Some(now) else Get(lastRun, qs[i].name)
  {
    if qs != [] {
      var n := |qs| - 1;
      AdmitIsFilter(qs[..n], lastRun, now);
      var before := Admit(qs[..n], lastRun, now);
      assert Get(before.lastRun, qs[n].name) == Get(lastRun, qs[n].name);
      forall i | 0 <= i < n
        ensures Get(Admit(qs, lastRun, now).lastRun, qs[i].name) ==
                  if IsDue(qs[i], lastRun, now) then Some(now) else Get(lastRun, qs[i].name)
      {
        assert qs[..n][i] == qs[i];
      }
    }
  }

  lemma {:induction false} FilterMember(qs: seq<Query>, lastRun: LastRun, now: int, q: Query)
    ensures q in Filter(qs, lastRun, now) <==> q in qs && IsDue(q, lastRun, now)
  {
    if qs != [] {
      FilterMember(qs[..|qs| - 1], lastRun, now, q);
      assert qs == qs[..|qs| - 1] + [qs[|qs| - 1]];
    }
  }

  // ----- whole runs -----

  /** The recorded run times after the fires at these times. */
  function LastRunAfter(qs: seq<Query>, times: seq<int>): LastRun {
    if times == [] then map[]
    else Due(qs, LastRunAfter(qs, times[..|times| - 1]), times[|times| - 1]).lastRun
  }

  /** What fire i dispatches. */
  function DueAt(qs: seq<Query>, times: seq<int>, i: nat): seq<Query>
    requires i < |times|
  {
    Due(qs, LastRunAfter(qs, times[..i]), times[i]).due
  }

  predicate Dispatched(qs: seq<Query>, times: seq<int>, q: Query, i: nat)
    requires i < |times|
  {
    q in DueAt(qs, times, i)
  }

  function GeneralLastRun(qs: seq<Query>, times: seq<int>): LastRun {
    if times == [] then map[]
    else Admit(qs, GeneralLastRun(qs, times[..|times| - 1]), times[|times| - 1]).lastRun
  }

  lemma {:induction false} AllDueWithoutIntervals(qs: seq<Query>, lastRun: LastRun, now: int)
    requires !AnyInterval(qs)
    ensures Admit(qs, lastRun, now).due == qs
  {
    if qs != [] {
      AllDueWithoutIntervals(qs[..|qs| - 1], lastRun, now);
      assert qs[|qs| - 1].intervalSeconds <= 0;
    }
  }

  lemma {:induction false} ShortcutSameRecords(qs: seq<Query>, times: seq<int>)
    requires AnyInterval(qs)
    ensures LastRunAfter(qs, times) == GeneralLastRun(qs, times)
  {
    if times != [] {
      ShortcutSameRecords(qs, times[..|times| - 1]);
    }
  }

  /** Skipping the records when no query has an interval never changes what a run dispatches. */
  lemma ShortcutUnobservable(qs: seq<Query>, times: seq<int>, i: nat)
    requires i < |times|
    ensures DueAt(qs, times, i) == Admit(qs, GeneralLastRun(qs, times[..i]), times[i]).due
  {
    if AnyInterval(qs) {
      ShortcutSameRecords(qs, times[..i]);
    } else {
      AllDueWithoutIntervals(qs, GeneralLastRun(qs, times[..i]), times[i]);
    }
  }

  // ----- the interval as the code reads it -----

  predicate Fits(q: Query) {
    q.intervalSeconds * 1_000_000_000 <= 0x7fff_ffff_ffff_ffff
  }

  function Interval(q: Query): int {
    q.intervalSeconds * 1_000_000_000
  }

  lemma FittingInterval(q: Query)
    requires q.intervalSeconds > 0 && Fits(q)
    ensures EffectiveInterval(q) == Interval(q) > 0
  {
  }

  /** The admission test compares elapsed time with the configured seconds, whatever the times, exactly
      when the product fits in an int64. */
  lemma IntervalHonouredIffFits(q: Query)
    requires 0 < q.intervalSeconds <= MAX64
    ensures Fits(q) <==>
      forall last: int, now: int :: IsDue(q, map[q.name := last], now) <==> now - last >= Interval(q)
  {
    if Fits(q) {
      FittingInterval(q);
      forall last: int, now: int
        ensures IsDue(q, map[q.name := last], now) <==> now - last >= Interval(q) {
      }
    } else {
      assert EffectiveInterval(q) <= MAX64;
      assert IsDue(q, map[q.name := 0], MAX64);
    }
  }

  /** A wrapped product can turn a three-century interval into none at all. */
  lemma WrappedIntervalAlwaysDue(lastRun: LastRun, now: int)
    ensures var q := Query("slow", "h", [], ["v"], "s", 9_223_372_037);
            q.name in lastRun && now >= lastRun[q.name] ==> IsDue(q, lastRun, now)
  {
  }

  // ----- cadence of one query -----

  /** A configuration with distinct names and a query whose interval is positive and fits. */
  ghost predicate Paced(qs: seq<Query>, q: Query) {
    DistinctNames(qs) && q in qs && q.intervalSeconds > 0 && Fits(q)
  }

  lemma FireOfQuery(qs: seq<Query>, q: Query, times: seq<int>, i: nat)
    requires Paced(qs, q) && i < |times|
    ensures var last := Get(LastRunAfter(qs, times[..i]), q.name);
            && Dispatched(qs, times, q, i) == (last.None? || times[i] - last.value >= Interval(q))
            && Get(LastRunAfter(qs, times[..i + 1]), q.name)
                 == if Dispatched(qs, times, q, i) then Some(times[i]) else last
  {
    var lastRun := LastRunAfter(qs, times[..i]);
    var k :| 0 <= k < |qs| && qs[k] == q;
    assert AnyInterval(qs);
    AdmitIsFilter(qs, lastRun, times[i]);
    FilterMember(qs, lastRun, times[i], q);
    FittingInterval(q);
    assert times[..i + 1][..i] == times[..i];
  }

  /** No fire in [from, upto) dispatches the query. */
  predicate Quiet(qs: seq<Query>, times: seq<int>, q: Query, from: nat, upto: nat)
    requires upto <= |times|
  {
    forall m :: from <= m < upto ==> !Dispatched(qs, times, q, m)
  }

  lemma {:induction false} RecordStays(qs: seq<Query>, q: Query, times: seq<int>, i: nat, j: nat)
    requires Paced(qs, q) && i < j <= |times|
    requires Dispatched(qs, times, q, i) && Quiet(qs, times, q, i + 1, j)
    ensures Get(LastRunAfter(qs, times[..j]), q.name) == Some(times[i])
  {
    FireOfQuery(qs, q, times, j - 1);
    if i + 1 < j {
      RecordStays(qs, q, times, i, j - 1);
    }
  }

  /** After a dispatch, the next one is the first fire at least one interval later: no sooner, and no
      later than the ticks allow. */
  lemma NextDispatch(qs: seq<Query>, q: Query, times: seq<int>, i: nat, j: nat)
    requires Paced(qs, q) && i < j < |times|
    requires Dispatched(qs, times, q, i) && Quiet(qs, times, q, i + 1, j)
    ensures Dispatched(qs, times, q, j) <==> times[j] - times[i] >= Interval(q)
  {
    RecordStays(qs, q, times, i, j);
    FireOfQuery(qs, q, times, j);
  }

  ghost predicate TicksWithin(times: seq<int>, gap: int) {
    forall i :: 0 <= i < |times| - 1 ==> times[i] <= times[i + 1] <= times[i] + gap
  }

  /** Consecutive dispatches are at least the interval and less than the interval plus one tick apart. */
  lemma DispatchSpacing(qs: seq<Query>, q: Query, times: seq<int>, gap: int, i: nat, j: nat)
    requires Paced(qs, q) && TicksWithin(times, gap) && i < j < |times|
    requires Dispatched(qs, times, q, i) && Dispatched(qs, times, q, j) && Quiet(qs, times, q, i + 1, j)
    ensures Interval(q) <= times[j] - times[i] < Interval(q) + gap
  {
    NextDispatch(qs, q, times, i, j);
    assert times[j - 1] <= times[j] <= times[j - 1] + gap;
    if i < j - 1 {
      NextDispatch(qs, q, times, i, j - 1);
    } else {
      FittingInterval(q);
    }
  }

  /** Which fires dispatch the query. */
  function Marks(qs: seq<Query>, times: seq<int>, q: Query): seq<bool> {
    seq(|times|, i requires 0 <= i < |times| => Dispatched(qs, times, q, i))
  }

  /** The marked positions in [from, upto). */
  function Marked(marks: seq<bool>, from: nat, upto: nat): nat
    requires from <= upto <= |marks|
    decreases upto
  {
    if from == upto then 0
    else Marked(marks, from, upto - 1) + if marks[upto - 1] then 1 else 0
  }

  /** Consecutive marks are at least a unit of time apart. */
  ghost predicate Spaced(marks: seq<bool>, times: seq<int>, unit: int) {
    && |marks| == |times|
    && forall i, j :: 0 <= i < j < |marks| && marks[i] && marks[j] && (forall m :: i < m < j ==> !marks[m]) ==>
         times[j] - times[i] >= unit
  }

  lemma MarksSpaced(qs: seq<Query>, q: Query, times: seq<int>)
    requires Paced(qs, q)
    ensures Spaced(Marks(qs, times, q), times, Interval(q))
  {
    var marks := Marks(qs, times, q);
    forall i, j | 0 <= i < j < |marks| && marks[i] && marks[j] && (forall m :: i < m < j ==> !marks[m])
      ensures times[j] - times[i] >= Interval(q)
    {
      assert forall m :: i < m < j ==> marks[m] == Dispatched(qs, times, q, m);
      NextDispatch(qs, q, times, i, j);
    }
  }

  lemma OneMore(n: int, unit: int)
    ensures (n - 1) * unit + unit == n * unit
  {
  }

  /** n units, added up. */
  function Total(n: nat, unit: int): int {
    if n == 0 then 0 else Total(n - 1, unit) + unit
  }

  lemma {:induction false} TotalIsProduct(n: nat, unit: int)
    ensures Total(n, unit) == n * unit
  {
    if n > 0 {
      TotalIsProduct(n - 1, unit);
      OneMore(n, unit);
    }
  }

  /** k marks span at least k - 1 units. */
  lemma {:induction false} MarksSpan(marks: seq<bool>, times: seq<int>, unit: int, from: nat, upto: nat)
    returns (first: nat, last: nat)
    requires Spaced(marks, times, unit) && from < upto <= |marks|
    requires Marked(marks, from, upto) > 0
    ensures from <= first <= last < upto
    ensures marks[last] && forall m :: last < m < upto ==> !marks[m]
    ensures times[last] - times[first] >= Total(Marked(marks, from, upto) - 1, unit)
    decreases upto
  {
    var before := Marked(marks, from, upto - 1);
    if !marks[upto - 1] {
      first, last := MarksSpan(marks, times, unit, from, upto - 1);
    } else if before == 0 {
      first, last := upto - 1, upto - 1;
    } else {
      first, last := MarksSpan(marks, times, unit, from, upto - 1);
      last := upto - 1;
    }
  }

  lemma {:induction false} TimesMonotone(times: seq<int>, gap: int, i: nat, j: nat)
    requires TicksWithin(times, gap) && i <= j < |times|
    ensures times[i] <= times[j]
  {
    if i < j {
      TimesMonotone(times, gap, i, j - 1);
      assert times[j - 1] <= times[j - 1 + 1];
    }
  }

  lemma AtLeastOnce(k: int, unit: int)
    requires k >= 1 && unit >= 0
    ensures k * unit >= unit
  {
  }

  lemma Distribute(a: int, b: int, unit: int)
    ensures (a - b) * unit == a * unit - b * unit
  {
  }

  lemma QuotientBound(k: int, unit: int, length: int)
    requires unit > 0 && k * unit <= length
    ensures k <= length / unit
  {
    var quotient := length / unit;
    Distribute(k, quotient, unit);
    if k > quotient {
      AtLeastOnce(k - quotient, unit);
    }
  }

  lemma MarkedBound(marks: seq<bool>, times: seq<int>, unit: int, gap: int, from: nat, upto: nat, length: nat)
    requires Spaced(marks, times, unit) && unit > 0 && TicksWithin(times, gap) && from < upto <= |marks|
    requires times[upto - 1] - times[from] <= length
    ensures Marked(marks, from, upto) <= length / unit + 1
  {
    var n := Marked(marks, from, upto);
    if n > 0 {
      var first, last := MarksSpan(marks, times, unit, from, upto);
      TimesMonotone(times, gap, from, first);
      TimesMonotone(times, gap, last, upto - 1);
      TotalIsProduct(n - 1, unit);
      QuotientBound(n - 1, unit, length);
    } else {
      QuotientBound(0, unit, length);
    }
  }

  /** However the ticks fall, the fires within a span of the given length dispatch the query at most
      once per interval, plus once. */
  lemma WindowBound(qs: seq<Query>, q: Query, times: seq<int>, gap: int, from: nat, upto: nat, length: nat)
    requires Paced(qs, q) && TicksWithin(times, gap) && from < upto <= |times|
    requires times[upto - 1] - times[from] <= length
    ensures Marked(Marks(qs, times, q), from, upto) <= length / Interval(q) + 1
  {
    MarksSpaced(qs, q, times);
    MarkedBound(Marks(qs, times, q), times, Interval(q), gap, from, upto, length);
  }

  // ----- regular ticks -----

  predicate Regular(times: seq<int>, start: int, tick: int) {
    forall i :: 0 <= i < |times| ==> times[i] == start + i * tick
  }

  /** The number of ticks that cover one interval. */
  function Stride(q: Query, tick: int): int
    requires tick > 0
  {
    (Interval(q) + tick - 1) / tick
  }

  lemma StrideCovers(q: Query, tick: int, m: int)
    requires tick > 0 && q.intervalSeconds > 0
    ensures Stride(q, tick) >= 1
    ensures m * tick >= Interval(q) <==> m >= Stride(q, tick)
  {
    var stride := Stride(q, tick);
    var total := Interval(q) + tick - 1;
    assert total == stride * tick + total % tick;
    if m >= stride {
      Monotone(stride, m, tick);
    } else {
      Monotone(m, stride - 1, tick);
      OneMore(stride, tick);
    }
    if stride < 1 {
      Monotone(stride, 0, tick);
    }
  }

  lemma Monotone(a: int, b: int, unit: int)
    requires a <= b && unit >= 0
    ensures a * unit <= b * unit
  {
    Distribute(b, a, unit);
    assert (b - a) * unit >= 0;
  }

  /** A fire's place within its stride. */
  lemma StrideStep(i: int, stride: int)
    requires stride >= 1 && i >= 1
    ensures var k := (i - 1) / stride * stride;
            && 0 <= k < i
            && (i - k >= stride <==> i % stride == 0)
            && i / stride * stride == if i % stride == 0 then i else k
  {
    var k := (i - 1) / stride;
    var r := (i - 1) % stride;
    assert i - 1 == k * stride + r && 0 <= r < stride;
    if r == stride - 1 {
      assert i == (k + 1) * stride;
      Multiple(k + 1, stride, 0, i);
    } else {
      Multiple(k, stride, r + 1, i);
    }
  }

  lemma Multiple(k: int, d: int, r: int, i: int)
    requires d > 0 && 0 <= r < d && i == k * d + r
    ensures i / d == k && i % d == r
  {
    var quotient := i / d;
    assert i == quotient * d + i % d;
    Distribute(quotient, k, d);
    Distribute(k, quotient, d);
    if quotient > k {
      AtLeastOnce(quotient - k, d);
    } else if quotient < k {
      AtLeastOnce(k - quotient, d);
    }
  }

  lemma {:induction false} RegularRecord(qs: seq<Query>, q: Query, times: seq<int>, start: int, tick: int, i: nat)
    requires Paced(qs, q) && tick > 0 && Regular(times, start, tick) && i < |times|
    ensures var stride := Stride(q, tick);
            && stride >= 1
            && Dispatched(qs, times, q, i) == (i % stride == 0)
            && Get(LastRunAfter(qs, times[..i + 1]), q.name) == Some(start + i / stride * stride * tick)
  {
    var stride := Stride(q, tick);
    StrideCovers(q, tick, 0);
    if i == 0 {
      FireOfQuery(qs, q, times, 0);
      assert times[..0] == [];
    } else {
      var k := (i - 1) / stride * stride;
      assert Get(LastRunAfter(qs, times[..i]), q.name) == Some(start + k * tick) by {
        RegularRecord(qs, q, times, start, tick, i - 1);
      }
      FireOfQuery(qs, q, times, i);
      StrideStep(i, stride);
      assert times[i] - (start + k * tick) == (i - k) * tick by { Distribute(i, k, tick); }
      StrideCovers(q, tick, i - k);
    }
  }

  /** With fires at start + i * tick, a query with a positive interval runs at exactly the fires whose
      number is a multiple of ceil(interval / tick). */
  lemma ExactCadence(qs: seq<Query>, q: Query, times: seq<int>, start: int, tick: int, i: nat)
    requires Paced(qs, q) && tick > 0 && Regular(times, start, tick) && i < |times|
    ensures Stride(q, tick) >= 1
    ensures Dispatched(qs, times, q, i) <==> i % Stride(q, tick) == 0
  {
    RegularRecord(qs, q, times, start, tick, i);
  }

  /** A query without an interval runs at every fire. */
  lemma UnpacedAlwaysRuns(qs: seq<Query>, q: Query, times: seq<int>, i: nat)
    requires DistinctNames(qs) && q in qs && q.intervalSeconds <= 0 && i < |times|
    ensures Dispatched(qs, times, q, i)
  {
    var lastRun := LastRunAfter(qs, times[..i]);
    AdmitIsFilter(qs, lastRun, times[i]);
    FilterMember(qs, lastRun, times[i], q);
  }
}
