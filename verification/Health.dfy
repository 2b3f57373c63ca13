/** Scheduler liveness, joined to the trace of fires it is meant to watch. */
module Health {
  import opened Values
  import opened Cadence
  import opened Sorting

  datatype Reason = Starting | Ok | StaleSchedule

  /** lastFire is None until the scheduler has fired. */
  datatype Liveness = Liveness(interval: int, lastFire: Option<int>)

  datatype Verdict = Verdict(alive: bool, reason: Reason)

  const STALE_MULTIPLIER: int := 2

  /** The decision on one tenant's snapshot. */
  function LivenessStatus(s: Liveness, now: int): (v: Verdict)
    ensures v.alive <==> v.reason != StaleSchedule
    ensures v.reason == Starting <==> s.lastFire == None
  {
    match s.lastFire
    case None => Verdict(true, Starting)
    case Some(last) =>
      if Saturate(now - last) > Wrap64(STALE_MULTIPLIER * s.interval) then Verdict(false, StaleSchedule)
      else Verdict(true, Ok)
  }

  /** The scheduler's record: one timestamp, 0 meaning never. The fires it has seen are kept as history. */
  class Record {
    const interval: int
    var lastFire: int
    ghost var fires: seq<int>

    ghost predicate Valid()
      reads this
    {
      lastFire == if fires == [] then 0 else fires[|fires| - 1]
    }

    constructor (interval: int)
      ensures Valid() && this.interval == interval && fires == []
    {
      this.interval := interval;
      lastFire := 0;
      fires := [];
    }

    method MarkFire(now: int)
      requires Valid()
      modifies this
      ensures Valid() && fires == old(fires) + [now]
    {
      lastFire := now;
      fires := fires + [now];
    }

    /** With a clock past the epoch, one stored number stands for the whole trace of fires: whenever the
        probe comes, if no recorded fire is in its future, it reads the last fire of that trace. */
    method Snapshot() returns (s: Liveness)
      requires Valid()
      ensures s.interval == interval
      ensures (forall i :: 0 <= i < |fires| ==> fires[i] > 0) ==>
                forall now :: (forall i :: 0 <= i < |fires| ==> fires[i] <= now) ==> s.lastFire == LastFire(fires, now)
      ensures fires != [] && fires[|fires| - 1] <= 0 ==> s.lastFire == None
    {
      s := Liveness(interval, if lastFire > 0 then Some(lastFire) else None);
    }
  }

  function Id(s: string): string {
    s
  }

  /** The tenants whose snapshot is not alive. */
  function Stale(snapshots: map<string, Liveness>, now: int): set<string> {
    set t | t in snapshots && !LivenessStatus(snapshots[t], now).alive
  }

  method SortedKeys(snapshots: map<string, Liveness>) returns (out: seq<string>)
    ensures StrictlySorted(out, Id) && forall t :: t in out <==> t in snapshots
  {
    var remaining := snapshots.Keys;
    out := [];
    while remaining != {}
      invariant remaining <= snapshots.Keys
      invariant forall t :: t in out <==> t in snapshots && t !in remaining
      invariant DistinctKeys(out, Id)
    {
      var t :| t in remaining;
      remaining := remaining - {t};
      ghost var before := out;
      assert forall i :: 0 <= i < |out| ==> out[i] in out;
      out := out + [t];
      assert forall u :: u in out <==> u in before || u == t;
    }
    SortSorts(out, Id);
    out := Sort(out, Id);
  }

  class Server {
    var livenessFailures: map<(string, Reason), nat>

    constructor ()
      ensures livenessFailures == map[]
    {
      livenessFailures := map[];
    }

    /** 503 exactly when some tenant is stale; each stale tenant is listed, in order, and has its own
        failure counter bumped by one, and no other counter moves. */
    method HandleHealthy(snapshots: map<string, Liveness>, now: int) returns (status: int, failures: seq<string>)
      modifies this
      ensures status == if Stale(snapshots, now) != {} then 503 else 200
      ensures StrictlySorted(failures, Id) && forall t :: t in failures <==> t in Stale(snapshots, now)
      ensures forall k :: Count(livenessFailures, k) == Count(old(livenessFailures), k) +
                if k.0 in Stale(snapshots, now) && k.1 == StaleSchedule then 1 else 0
    {
      var tenants := SortedKeys(snapshots);
      failures := CollectFailures(tenants, snapshots, now);
      StaleAmongAll(tenants, snapshots, now);
      AllCounts(old(livenessFailures), failures, Stale(snapshots, now));
      status := if |failures| > 0 then 503 else 200;
    }

    /** The loop over the sorted tenants. */
    method CollectFailures(tenants: seq<string>, snapshots: map<string, Liveness>, now: int)
      returns (failures: seq<string>)
      requires forall t :: t in tenants ==> t in snapshots
      modifies this
      ensures failures == StaleAmong(tenants, snapshots, now)
      ensures livenessFailures == BumpAll(old(livenessFailures), failures)
    {
      failures := [];
      for i := 0 to |tenants|
        invariant failures == StaleAmong(tenants[..i], snapshots, now)
        invariant livenessFailures == BumpAll(old(livenessFailures), failures)
      {
        var t := tenants[i];
        var verdict := LivenessStatus(snapshots[t], now);
        StaleAmongNext(tenants, snapshots, now, i);
        if !verdict.alive {
          BumpAllNext(old(livenessFailures), failures, t);
          livenessFailures := livenessFailures[(t, verdict.reason) := Count(livenessFailures, (t, verdict.reason)) + 1];
          failures := failures + [t];
        }
      }
      assert tenants[..|tenants|] == tenants;
    }
  }

  lemma StaleAmongNext(tenants: seq<string>, snapshots: map<string, Liveness>, now: int, i: nat)
    requires (forall t :: t in tenants ==> t in snapshots) && i < |tenants|
    ensures StaleAmong(tenants[..i + 1], snapshots, now) ==
              if LivenessStatus(snapshots[tenants[i]], now).alive then StaleAmong(tenants[..i], snapshots, now)
              else StaleAmong(tenants[..i], snapshots, now) + [tenants[i]]
  {
    assert tenants[..i + 1][..i] == tenants[..i];
    assert StaleAmong(tenants[..i], snapshots, now) + [] == StaleAmong(tenants[..i], snapshots, now);
  }

  lemma BumpAllNext(counters: map<(string, Reason), nat>, tenants: seq<string>, t: string)
    ensures var before, key := BumpAll(counters, tenants), (t, StaleSchedule);
            BumpAll(counters, tenants + [t]) == before[key := Count(before, key) + 1]
  {
    assert (tenants + [t])[..|tenants|] == tenants;
  }

  function BumpAll(counters: map<(string, Reason), nat>, tenants: seq<string>): map<(string, Reason), nat> {
    if tenants == [] then counters
    else
      var before := BumpAll(counters, tenants[..|tenants| - 1]);
      var key := (tenants[|tenants| - 1], StaleSchedule);
      before[key := Count(before, key) + 1]
  }

  lemma {:induction false} BumpAllCounts(
    counters: map<(string, Reason), nat>, tenants: seq<string>, k: (string, Reason))
    requires StrictlySorted(tenants, Id)
    ensures Count(BumpAll(counters, tenants), k) == Count(counters, k) +
              if k.0 in tenants && k.1 == StaleSchedule then 1 else 0
  {
    if tenants != [] {
      var n := |tenants| - 1;
      BumpAllCounts(counters, tenants[..n], k);
      DropLast(tenants, k.0, Id);
    }
  }

  lemma AllCounts(counters: map<(string, Reason), nat>, tenants: seq<string>, stale: set<string>)
    requires StrictlySorted(tenants, Id) && forall t :: t in tenants <==> t in stale
    ensures forall k :: Count(BumpAll(counters, tenants), k) == Count(counters, k) +
              if k.0 in stale && k.1 == StaleSchedule then 1 else 0
  {
    forall k ensures Count(BumpAll(counters, tenants), k) == Count(counters, k) +
      if k.0 in stale && k.1 == StaleSchedule then 1 else 0
    {
      BumpAllCounts(counters, tenants, k);
    }
  }

  /** The stale ones of a list of tenants. */
  function StaleAmong(tenants: seq<string>, snapshots: map<string, Liveness>, now: int): seq<string>
    requires forall t :: t in tenants ==> t in snapshots
  {
    if tenants == [] then []
    else
      var n := |tenants| - 1;
      StaleAmong(tenants[..n], snapshots, now)
      + if LivenessStatus(snapshots[tenants[n]], now).alive then [] else [tenants[n]]
  }

  lemma PrefixBelow(tenants: seq<string>, n: nat, t: string)
    requires StrictlySorted(tenants, Id) && n < |tenants| && t in tenants[..n]
    ensures Less(t, tenants[n])
  {
  }

  lemma {:induction false} StaleAmongSorted(tenants: seq<string>, snapshots: map<string, Liveness>, now: int)
    requires forall t :: t in tenants ==> t in snapshots
    requires StrictlySorted(tenants, Id)
    ensures var stale := StaleAmong(tenants, snapshots, now);
            && StrictlySorted(stale, Id)
            && (forall t :: t in stale <==> t in tenants && !LivenessStatus(snapshots[t], now).alive)
  {
    if tenants != [] {
      var n := |tenants| - 1;
      StaleAmongSorted(tenants[..n], snapshots, now);
      assert tenants == tenants[..n] + [tenants[n]];
      var before := StaleAmong(tenants[..n], snapshots, now);
      forall i | 0 <= i < |before| ensures Less(before[i], tenants[n]) {
        assert before[i] in before;
        PrefixBelow(tenants, n, before[i]);
      }
    }
  }

  lemma StaleAmongAll(tenants: seq<string>, snapshots: map<string, Liveness>, now: int)
    requires forall t :: t in tenants <==> t in snapshots
    requires StrictlySorted(tenants, Id)
    ensures var stale := StaleAmong(tenants, snapshots, now);
            && StrictlySorted(stale, Id)
            && (forall t :: t in stale <==> t in Stale(snapshots, now))
            && (|stale| > 0 <==> Stale(snapshots, now) != {})
  {
    StaleAmongSorted(tenants, snapshots, now);
    var stale := StaleAmong(tenants, snapshots, now);
    if |stale| > 0 {
      assert stale[0] in Stale(snapshots, now);
    }
  }

  // ----- the threshold -----

  /** The comparison is with twice the interval exactly when doubling it does not overflow. */
  lemma ThresholdHonouredIffFits(interval: int)
    requires 0 < interval <= MAX64
    ensures 2 * interval <= MAX64 <==>
              forall last: int, now: int ::
                LivenessStatus(Liveness(interval, Some(last)), now).alive <==> now - last <= 2 * interval
  {
    if 2 * interval > MAX64 {
      assert Wrap64(STALE_MULTIPLIER * interval) < 0;
      assert !(LivenessStatus(Liveness(interval, Some(0)), MAX64).alive <==> MAX64 - 0 <= 2 * interval);
    } else {
      forall last: int, now: int
        ensures LivenessStatus(Liveness(interval, Some(last)), now).alive <==> now - last <= 2 * interval
      {
      }
    }
  }

  // ----- fire traces -----

  /** The last fire not after now. */
  function LastFire(times: seq<int>, now: int): Option<int> {
    if times == [] then None
    else if times[|times| - 1] <= now then Some(times[|times| - 1])
    else LastFire(times[..|times| - 1], now)
  }

  predicate Alive(times: seq<int>, interval: int, now: int) {
    LivenessStatus(Liveness(interval, LastFire(times, now)), now).alive
  }

  ghost predicate Ascending(times: seq<int>) {
    forall i, j :: 0 <= i < j < |times| ==> times[i] <= times[j]
  }

  /** The fires up to now are the first i, and the last of them is the one on record. */
  lemma {:induction false} FiresSoFar(times: seq<int>, now: int) returns (i: nat)
    requires Ascending(times)
    ensures i <= |times|
    ensures forall j :: 0 <= j < |times| ==> (times[j] <= now <==> j < i)
    ensures LastFire(times, now) == if i == 0 then None else Some(times[i - 1])
  {
    if times == [] {
      i := 0;
    } else if times[|times| - 1] <= now {
      i := |times|;
    } else {
      i := FiresSoFar(times[..|times| - 1], now);
    }
  }

  /** Fires at most twice the interval apart never trip a probe, from before the first fire until twice
      the interval after the last. */
  lemma SteadyFiresStayAlive(times: seq<int>, interval: int, now: int)
    requires 0 < interval && 2 * interval <= MAX64
    requires TicksWithin(times, 2 * interval) && Ascending(times)
    requires times == [] || now <= times[|times| - 1] + 2 * interval
    ensures Alive(times, interval, now)
  {
    ThresholdHonouredIffFits(interval);
    var i := FiresSoFar(times, now);
    if 0 < i < |times| {
      assert times[i - 1] <= times[i - 1 + 1] <= times[i - 1] + 2 * interval;
    }
  }

  /** The initial delay for a tenant, from any 64-bit hash of its name. */
  function Stagger(hash: nat, interval: int): (offset: int)
    requires hash < 0x1_0000_0000_0000_0000 && interval <= MAX64
    ensures interval <= 0 ==> offset == 0
    ensures interval > 0 ==> 0 <= offset < interval
  {
    if interval <= 0 then 0 else hash % interval
  }

  /** The offset differs from the hash by whole intervals. */
  lemma StaggerIsRemainder(hash: nat, interval: int) returns (k: nat)
    requires hash < 0x1_0000_0000_0000_0000 && 0 < interval <= MAX64
    ensures hash == k * interval + Stagger(hash, interval)
  {
    k := hash / interval;
  }
}
