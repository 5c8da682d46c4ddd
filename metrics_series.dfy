/**
 * `EmitMetricsSeries`: a fixed-length, oldest-first window of time buckets,
 * each holding per-category emit counts for the chart. It is backfilled
 * from history on a cold start and then advanced one bucket per flushed
 * batch.
 */
module MetricsSeries {
  import opened Js

  /** Counts of the four known categories in one bucket. */
  datatype Counts = Counts(wrongDirection: nat, plateFinal: nat, ocrRaw: nat, speeding: nat)

  const NoCounts := Counts(0, 0, 0, 0)

  datatype Point = Point(tsMs: int, counts: Counts)

  /** The constructor's defaults. */
  const DefaultMaxPoints := 24
  const DefaultBucketMs := 3000

  // ------------------------------------------------------- fresh series

  /** `k * b`, built by repeated addition so that neighbouring offsets differ by one step. */
  function Offset(k: nat, b: nat): int
  {
    if k == 0 then 0 else Offset(k - 1, b) + b
  }

  lemma {:induction false} OffsetIsProduct(k: nat, b: nat)
    ensures Offset(k, b) == k * b
  {
    if k > 0 {
      OffsetIsProduct(k - 1, b);
    }
  }

  /**
   * `_emptyPoints(now)`: `maxPoints` zero buckets, bucket `idx` at
   * `now - (maxPoints - idx) * bucketMs`, so the last one is `bucketMs` before `now`.
   */
  function EmptyPoints(maxPoints: nat, bucketMs: nat, now: int): (r: seq<Point>)
    ensures |r| == maxPoints
    ensures forall i :: 0 <= i < |r| ==> r[i].counts == NoCounts
    ensures forall i :: 0 <= i < |r| - 1 ==> r[i + 1].tsMs == r[i].tsMs + bucketMs
    ensures maxPoints > 0 ==> r[maxPoints - 1].tsMs == now - bucketMs
  {
    var r := seq(maxPoints, idx requires 0 <= idx < maxPoints => Point(now - Offset(maxPoints - idx, bucketMs), NoCounts));
    assert maxPoints > 0 ==> r[maxPoints - 1].tsMs == now - bucketMs by {
      if maxPoints > 0 {
        assert Offset(1, bucketMs) == bucketMs;
      }
    }
    r
  }

  /** Bucket `idx` of the fresh series sits `(maxPoints - idx) * bucketMs` before `now`. */
  lemma EmptyPointsAt(maxPoints: nat, bucketMs: nat, now: int, idx: nat)
    requires idx < maxPoints
    ensures EmptyPoints(maxPoints, bucketMs, now)[idx].tsMs == now - (maxPoints - idx) * bucketMs
  {
    OffsetIsProduct(maxPoints - idx, bucketMs);
  }

  /** With the constructor's defaults a fresh series covers the 72 seconds before `now`, in 3-second buckets. */
  lemma DefaultWindow(now: int)
    ensures var r := EmptyPoints(DefaultMaxPoints, DefaultBucketMs, now);
      |r| == 24 && r[0].tsMs == now - 72000 && r[23].tsMs == now - 3000
  {
    EmptyPointsAt(DefaultMaxPoints, DefaultBucketMs, now, 0);
  }

  // ----------------------------------------------------------- backfill

  /** `Number(log?.ts_ms || 0)`; `None` is NaN. */
  function LogTs(log: Record): Option<real>
  {
    var t := Get(log, "ts_ms");
    if Present(t) then ToNumber(t.value) else Some(0.0)
  }

  /** The log is inside the window and has a usable (non-zero, non-NaN) timestamp. */
  predicate Counted(log: Record, now: int, maxPoints: nat, bucketMs: nat)
  {
    var t := LogTs(log);
    t.Some? && t.value != 0.0 && t.value >= (now - maxPoints * bucketMs) as real
  }

  /**
   * `Math.floor(ts / bucketMs) * bucketMs`. With `bucketMs` 0 every key is
   * NaN (`None`), so all counted logs share one bucket.
   */
  function BucketOf(t: real, bucketMs: nat): Option<int>
  {
    if bucketMs == 0 then None else Some((t / bucketMs as real).Floor * bucketMs)
  }

  function Lookup(m: map<Option<int>, Counts>, key: Option<int>): Counts
  {
    if key in m then m[key] else NoCounts
  }

  predicate HasType(log: Record, t: string)
  {
    Get(log, "type") == Some(Str(t))
  }

  /** The four `if (log?.type === ...)` increments. */
  function Bump(c: Counts, log: Record): (r: Counts)
    ensures (!HasType(log, "WRONG_DIRECTION") && !HasType(log, "PLATE_FINAL") &&
             !HasType(log, "OCR_RAW") && !HasType(log, "SPEEDING")) ==> r == c
    ensures HasType(log, "WRONG_DIRECTION") ==> r == c.(wrongDirection := c.wrongDirection + 1)
    ensures HasType(log, "PLATE_FINAL") ==> r == c.(plateFinal := c.plateFinal + 1)
    ensures HasType(log, "OCR_RAW") ==> r == c.(ocrRaw := c.ocrRaw + 1)
    ensures HasType(log, "SPEEDING") ==> r == c.(speeding := c.speeding + 1)
  {
    Counts(
      c.wrongDirection + (if HasType(log, "WRONG_DIRECTION") then 1 else 0),
      c.plateFinal + (if HasType(log, "PLATE_FINAL") then 1 else 0),
      c.ocrRaw + (if HasType(log, "OCR_RAW") then 1 else 0),
      c.speeding + (if HasType(log, "SPEEDING") then 1 else 0))
  }

  /** The bucket map after the `forEach` over `logs`. */
  function Buckets(logs: seq<Record>, now: int, maxPoints: nat, bucketMs: nat): map<Option<int>, Counts>
  {
    if logs == [] then map[]
    else
      var m := Buckets(logs[..|logs| - 1], now, maxPoints, bucketMs);
      var log := logs[|logs| - 1];
      if !Counted(log, now, maxPoints, bucketMs) then m
      else
        var key := BucketOf(LogTs(log).value, bucketMs);
        m[key := Bump(Lookup(m, key), log)]
  }

  /** How many counted logs of category `t` fall in bucket `key`. */
  function CountIn(logs: seq<Record>, key: Option<int>, t: string, now: int, maxPoints: nat, bucketMs: nat): nat
  {
    if logs == [] then 0
    else
      var log := logs[|logs| - 1];
      CountIn(logs[..|logs| - 1], key, t, now, maxPoints, bucketMs) +
      if Counted(log, now, maxPoints, bucketMs) && BucketOf(LogTs(log).value, bucketMs) == key && HasType(log, t)
      then 1 else 0
  }

  /** The counts of bucket `key`, category by category. */
  function Tally(logs: seq<Record>, key: Option<int>, now: int, maxPoints: nat, bucketMs: nat): Counts
  {
    Counts(
      CountIn(logs, key, "WRONG_DIRECTION", now, maxPoints, bucketMs),
      CountIn(logs, key, "PLATE_FINAL", now, maxPoints, bucketMs),
      CountIn(logs, key, "OCR_RAW", now, maxPoints, bucketMs),
      CountIn(logs, key, "SPEEDING", now, maxPoints, bucketMs))
  }

  /** The bucket map holds, for every bucket, exactly the per-category counts of the logs in it. */
  lemma {:induction false} BucketsTally(logs: seq<Record>, key: Option<int>, now: int, maxPoints: nat, bucketMs: nat)
    ensures Lookup(Buckets(logs, now, maxPoints, bucketMs), key) == Tally(logs, key, now, maxPoints, bucketMs)
  {
    if logs != [] {
      BucketsTally(logs[..|logs| - 1], key, now, maxPoints, bucketMs);
    }
  }

  /** `initializeFromLogs(logs, now)`: `maxPoints` buckets ending at `now`, filled from the bucket map. */
  function Backfill(logs: seq<Record>, now: int, maxPoints: nat, bucketMs: nat): (r: seq<Point>)
    ensures |r| == maxPoints
    ensures forall idx :: 0 <= idx < maxPoints ==> r[idx].tsMs == now - (maxPoints - 1 - idx) * bucketMs
    ensures maxPoints > 0 ==> r[maxPoints - 1].tsMs == now
  {
    var m := Buckets(logs, now, maxPoints, bucketMs);
    seq(maxPoints, idx requires 0 <= idx < maxPoints =>
      var ts := now - (maxPoints - 1 - idx) * bucketMs;
      Point(ts, Lookup(m, BucketOf(ts as real, bucketMs))))
  }

  /** Each backfilled bucket holds the per-category counts of the logs whose bucket key is its own. */
  lemma BackfillCounts(logs: seq<Record>, now: int, maxPoints: nat, bucketMs: nat, idx: nat)
    requires idx < maxPoints
    ensures var r := Backfill(logs, now, maxPoints, bucketMs);
      r[idx].counts == Tally(logs, BucketOf(r[idx].tsMs as real, bucketMs), now, maxPoints, bucketMs)
  {
    var r := Backfill(logs, now, maxPoints, bucketMs);
    BucketsTally(logs, BucketOf(r[idx].tsMs as real, bucketMs), now, maxPoints, bucketMs);
  }

  /**
   * A history in which no log has a usable in-window timestamp (in
   * particular an empty one) backfills to `maxPoints` all-zero buckets.
   */
  lemma {:induction false} BackfillNothingCounted(logs: seq<Record>, now: int, maxPoints: nat, bucketMs: nat)
    requires forall i :: 0 <= i < |logs| ==> !Counted(logs[i], now, maxPoints, bucketMs)
    ensures forall idx :: 0 <= idx < maxPoints ==> Backfill(logs, now, maxPoints, bucketMs)[idx].counts == NoCounts
  {
    BucketsEmpty(logs, now, maxPoints, bucketMs);
    var r := Backfill(logs, now, maxPoints, bucketMs);
    forall idx | 0 <= idx < maxPoints ensures r[idx].counts == NoCounts {
      assert r[idx].counts == Lookup(map[], BucketOf(r[idx].tsMs as real, bucketMs));
    }
  }

  lemma {:induction false} BucketsEmpty(logs: seq<Record>, now: int, maxPoints: nat, bucketMs: nat)
    requires forall i :: 0 <= i < |logs| ==> !Counted(logs[i], now, maxPoints, bucketMs)
    ensures Buckets(logs, now, maxPoints, bucketMs) == map[]
  {
    if logs != [] {
      var init := logs[..|logs| - 1];
      assert forall i :: 0 <= i < |init| ==> init[i] == logs[i];
      BucketsEmpty(init, now, maxPoints, bucketMs);
      assert !Counted(logs[|logs| - 1], now, maxPoints, bucketMs);
    }
  }

  /** A log with a falsy timestamp, or older than the window, changes nothing. */
  lemma BackfillIgnoresUncounted(logs: seq<Record>, log: Record, now: int, maxPoints: nat, bucketMs: nat)
    requires !Counted(log, now, maxPoints, bucketMs)
    ensures Backfill(logs + [log], now, maxPoints, bucketMs) == Backfill(logs, now, maxPoints, bucketMs)
  {
    assert (logs + [log])[..|logs|] == logs;
    assert Buckets(logs + [log], now, maxPoints, bucketMs) == Buckets(logs, now, maxPoints, bucketMs);
  }

  /**
   * A counted log adds exactly one to the counter of its own category in its
   * own bucket (none if the category is unknown) and leaves every other
   * bucket alone.
   */
  lemma CountedLogBumpsOne(logs: seq<Record>, log: Record, key: Option<int>, now: int, maxPoints: nat, bucketMs: nat)
    requires Counted(log, now, maxPoints, bucketMs)
    ensures var own := BucketOf(LogTs(log).value, bucketMs);
      Tally(logs + [log], key, now, maxPoints, bucketMs) ==
        if key == own then Bump(Tally(logs, key, now, maxPoints, bucketMs), log)
        else Tally(logs, key, now, maxPoints, bucketMs)
  {
    assert (logs + [log])[..|logs|] == logs;
  }

  // ------------------------------------------------------------- ingest

  /** The sample handed to `ingest`; absent fields are `None`. */
  datatype Sample = Sample(
    tsMs: Option<int>,
    wrongDirection: Option<nat>,
    plateFinal: Option<nat>,
    ocrRaw: Option<nat>,
    speeding: Option<nat>)

  function OrZero(o: Option<nat>): nat
  {
    if o.Some? then o.value else 0
  }

  /** The point built from a (possibly missing) sample: time defaults to `now`, counts to 0. */
  function PointOf(sample: Option<Sample>, now: int): (p: Point)
    ensures sample.None? ==> p == Point(now, NoCounts)
    ensures sample.Some? && sample.value.tsMs.Some? ==> p.tsMs == sample.value.tsMs.value
    ensures sample.Some? && sample.value.tsMs.None? ==> p.tsMs == now
    ensures sample.Some? ==> var s := sample.value;
      (s.wrongDirection.Some? ==> p.counts.wrongDirection == s.wrongDirection.value) &&
      (s.plateFinal.Some? ==> p.counts.plateFinal == s.plateFinal.value) &&
      (s.ocrRaw.Some? ==> p.counts.ocrRaw == s.ocrRaw.value) &&
      (s.speeding.Some? ==> p.counts.speeding == s.speeding.value)
    ensures sample.Some? ==> var s := sample.value;
      (s.wrongDirection.None? ==> p.counts.wrongDirection == 0) &&
      (s.plateFinal.None? ==> p.counts.plateFinal == 0) &&
      (s.ocrRaw.None? ==> p.counts.ocrRaw == 0) &&
      (s.speeding.None? ==> p.counts.speeding == 0)
  {
    match sample
    case None => Point(now, NoCounts)
    case Some(s) =>
      Point(if s.tsMs.Some? then s.tsMs.value else now,
            Counts(OrZero(s.wrongDirection), OrZero(s.plateFinal), OrZero(s.ocrRaw), OrZero(s.speeding)))
  }

  /** `[...points.slice(1), point]`: drop the oldest bucket, append the newest. */
  function Shift(points: seq<Point>, p: Point): (r: seq<Point>)
    ensures |points| > 0 ==> |r| == |points|
    ensures |points| == 0 ==> r == [p]
    ensures r[|r| - 1] == p
    ensures forall i :: 0 <= i < |r| - 1 ==> r[i] == points[i + 1]
  {
    (if |points| == 0 then [] else points[1..]) + [p]
  }

  function ShiftAll(points: seq<Point>, ps: seq<Point>): seq<Point>
    decreases |ps|
  {
    if ps == [] then points else ShiftAll(Shift(points, ps[0]), ps[1..])
  }

  /**
   * Ingesting `N` points into a series of length `L >= N` (and `L > 0`)
   * drops exactly the `N` oldest buckets and keeps the length `L`.
   */
  lemma {:induction false} ShiftAllDropsOldest(points: seq<Point>, ps: seq<Point>)
    requires 0 < |points| && |ps| <= |points|
    ensures ShiftAll(points, ps) == points[|ps|..] + ps
    decreases |ps|
  {
    if ps != [] {
      var next := Shift(points, ps[0]);
      assert next == points[1..] + [ps[0]];
      if |next| > 0 {
        ShiftAllDropsOldest(next, ps[1..]);
        assert next[|ps[1..]|..] == points[|ps|..] + [ps[0]];
        assert ps == [ps[0]] + ps[1..];
      }
    }
  }

  // -------------------------------------------------------------- class

  class EmitMetricsSeries {
    const maxPoints: nat
    const bucketMs: nat
    var points: seq<Point>

    /** `new EmitMetricsSeries({maxPoints, bucketMs})` at time `now`. */
    constructor (maxPoints: nat, bucketMs: nat, now: int)
      ensures this.maxPoints == maxPoints && this.bucketMs == bucketMs
      ensures points == EmptyPoints(maxPoints, bucketMs, now)
    {
      this.maxPoints := maxPoints;
      this.bucketMs := bucketMs;
      points := EmptyPoints(maxPoints, bucketMs, now);
    }

    /** `initializeFromLogs(logs, now)`: rebuild the series from history alone. */
    method InitializeFromLogs(logs: seq<Record>, now: int) returns (r: seq<Point>)
      modifies this
      ensures points == Backfill(logs, now, maxPoints, bucketMs)
      ensures r == points
    {
      var bucketMap: map<Option<int>, Counts> := map[];
      var windowStart := now - maxPoints * bucketMs;
      var i := 0;
      while i < |logs|
        invariant 0 <= i <= |logs|
        invariant bucketMap == Buckets(logs[..i], now, maxPoints, bucketMs)
      {
        assert logs[..i + 1][..i] == logs[..i];
        var log := logs[i];
        var tsMs := LogTs(log);
        if tsMs.Some? && tsMs.value != 0.0 && !(tsMs.value < windowStart as real) {
          var bucketTs := BucketOf(tsMs.value, bucketMs);
          var current := if bucketTs in bucketMap then bucketMap[bucketTs] else NoCounts;
          current := Bump(current, log);
          bucketMap := bucketMap[bucketTs := current];
        }
        i := i + 1;
      }
      assert logs[..i] == logs;
      points := seq(maxPoints, idx requires 0 <= idx < maxPoints =>
        var ts := now - (maxPoints - 1 - idx) * bucketMs;
        Point(ts, Lookup(bucketMap, BucketOf(ts as real, bucketMs))));
      r := GetPoints();
    }

    /** `ingest(sample)`: the new point becomes the newest bucket, the oldest is dropped. */
    method Ingest(sample: Option<Sample>, now: int) returns (r: seq<Point>)
      modifies this
      ensures points == Shift(old(points), PointOf(sample, now))
      ensures r == points
    {
      var point := PointOf(sample, now);
      points := (if |points| == 0 then [] else points[1..]) + [point];
      r := GetPoints();
    }

    /** `getPoints()`: a copy equal to the series; sequences of values cannot alias it. */
    function GetPoints(): (r: seq<Point>)
      reads this
      ensures |r| == |points| && forall i :: 0 <= i < |r| ==> r[i] == points[i]
    {
      points
    }
  }
}
