/** Health-sample aggregation and the bounded score (internal/quality/metrics.go,
    internal/quality/scoring.go). Floats are reals; `math.Log1p` is any strictly
    increasing function that is 0 at 0. */
module Scoring {
  import opened Sorting

  datatype Metrics = Metrics(
    sampleCount: int, successCount: nat, geoOK: bool, internetReachable: bool,
    requestLatencyMS: real, minLatencyMS: real, maxLatencyMS: real,
    failurePct: real, jitterMS: real, blackhole: bool,
    downloadMbps: real, bandwidthMeasured: bool, bandwidthFresh: bool)

  /** Go's zero `Metrics{}`. */
  const NO_METRICS :=
    Metrics(0, 0, false, false, 0.0, 0.0, 0.0, 0.0, 0.0, false, 0.0, false, false)

  predicate RealLess(a: real, b: real) { a < b }

  lemma RealLessWeakOrder()
    ensures WeakOrder(RealLess)
  {}

  /** Nanoseconds to milliseconds. */
  function Millis(samples: seq<int>): (v: seq<real>)
    ensures |v| == |samples|
  {
    seq(|samples|, i requires 0 <= i < |samples| => samples[i] as real / 1000000.0)
  }

  function Min(v: seq<real>): real
    requires v != []
  {
    if |v| == 1 then v[0] else var m := Min(v[..|v|-1]); if v[|v|-1] < m then v[|v|-1] else m
  }

  function Max(v: seq<real>): real
    requires v != []
  {
    if |v| == 1 then v[0] else var m := Max(v[..|v|-1]); if v[|v|-1] > m then v[|v|-1] else m
  }

  function Abs(x: real): real { if x < 0.0 then -x else x }

  /** Sum of the absolute differences of neighbours. */
  function Deltas(v: seq<real>): real {
    if |v| <= 1 then 0.0 else Deltas(v[..|v|-1]) + Abs(v[|v|-1] - v[|v|-2])
  }

  function Median(v: seq<real>): real
    requires v != []
  {
    StableSort(RealLess, v)[|v| / 2]
  }

  function Jitter(v: seq<real>): real {
    if |v| <= 1 then 0.0 else Deltas(v) / (|v| - 1) as real
  }

  /** What one probe round measured. */
  function Aggregated(samples: seq<int>, failures: int, requested: int, geoOK: bool): Metrics {
    var m := NO_METRICS.(sampleCount := requested, successCount := |samples|, geoOK := geoOK);
    if requested <= 0 then m
    else
      var m := m.(failurePct := failures as real / requested as real * 100.0,
                  internetReachable := geoOK || samples != [],
                  blackhole := !(geoOK || samples != []));
      if samples == [] then m
      else
        var v := Millis(samples);
        m.(minLatencyMS := Min(v), maxLatencyMS := Max(v), requestLatencyMS := Median(v), jitterMS := Jitter(v))
  }

  method Aggregate(samples: seq<int>, failures: int, requested: int, geoOK: bool) returns (m: Metrics)
    ensures m == Aggregated(samples, failures, requested, geoOK)
  {
    m := NO_METRICS.(sampleCount := requested, successCount := |samples|, geoOK := geoOK);
    if requested <= 0 { return; }
    m := m.(failurePct := failures as real / requested as real * 100.0);
    m := m.(internetReachable := geoOK || |samples| > 0);
    m := m.(blackhole := !m.internetReachable);
    if |samples| == 0 { return; }

    var values: seq<real> := [];
    for i := 0 to |samples|
      invariant values == Millis(samples)[..i]
    {
      values := values + [samples[i] as real / 1000000.0];
    }
    assert values == Millis(samples);
    var low, high := values[0], values[0];
    for i := 0 to |values|
      invariant i == 0 ==> low == high == values[0]
      invariant i > 0 ==> low == Min(values[..i]) && high == Max(values[..i])
    {
      assert i > 0 ==> values[..i+1][..i] == values[..i];
      if values[i] < low { low := values[i]; }
      if values[i] > high { high := values[i]; }
    }
    assert values[..|values|] == values;
    var sorted := StableSort(RealLess, values);
    var jitter := 0.0;
    if |values| > 1 {
      for i := 1 to |values|
        invariant jitter == Deltas(values[..i])
      {
        var delta := values[i] - values[i-1];
        if delta < 0.0 { delta := -delta; }
        assert values[..i+1][..i] == values[..i];
        jitter := jitter + delta;
      }
      assert values[..|values|] == values;
      jitter := jitter / (|values| - 1) as real;
    }
    m := m.(minLatencyMS := low, maxLatencyMS := high, requestLatencyMS := sorted[|sorted| / 2], jitterMS := jitter);
  }

  lemma {:induction false} MinMaxBound(v: seq<real>)
    requires v != []
    ensures Min(v) in v && Max(v) in v
    ensures forall i :: 0 <= i < |v| ==> Min(v) <= v[i] <= Max(v)
  {
    if |v| > 1 {
      var p := v[..|v|-1];
      MinMaxBound(p);
      forall i | 0 <= i < |v| ensures Min(v) <= v[i] <= Max(v) {
        if i < |p| { assert p[i] == v[i]; }
      }
    }
  }

  /** `n` times `x`. */
  function Times(x: real, n: nat): real { if n == 0 then 0.0 else Times(x, n - 1) + x }

  lemma OneMoreTime(x: real, n: real)
    ensures x * (n + 1.0) == x * n + x
  {}

  lemma {:induction false} TimesIs(x: real, n: nat)
    ensures Times(x, n) == x * n as real
  {
    if n > 0 {
      TimesIs(x, n - 1);
      OneMoreTime(x, (n - 1) as real);
      assert n as real == (n - 1) as real + 1.0;
    }
  }

  lemma {:induction false} DeltasSum(v: seq<real>, range: real)
    requires v != [] && range >= 0.0
    requires forall i, j :: 0 <= i < |v| && 0 <= j < |v| ==> v[i] - v[j] <= range
    ensures 0.0 <= Deltas(v) <= Times(range, |v| - 1)
  {
    if |v| > 1 {
      DeltasSum(v[..|v|-1], range);
      assert 0.0 <= Abs(v[|v|-1] - v[|v|-2]) <= range;
    }
  }

  lemma DeltasBound(v: seq<real>, range: real)
    requires v != [] && range >= 0.0
    requires forall i, j :: 0 <= i < |v| && 0 <= j < |v| ==> v[i] - v[j] <= range
    ensures 0.0 <= Deltas(v) <= range * (|v| - 1) as real
  {
    DeltasSum(v, range);
    TimesIs(range, |v| - 1);
  }

  lemma QuotientBounds(x: real, n: real, low: real, high: real)
    requires n > 0.0 && low * n <= x <= high * n
    ensures low <= x / n <= high
  {
    assert x / n * n == x;
  }

  lemma SortedUp(s: seq<real>)
    requires Sorted(RealLess, s)
    ensures forall i, j :: 0 <= i <= j < |s| ==> s[i] <= s[j]
  {
    forall i, j | 0 <= i <= j < |s| ensures s[i] <= s[j] {
      if i < j { assert !RealLess(s[j], s[i]); }
    }
  }

  /** The reported latency is a sample, and at least half of the samples lie on either
      side of it. */
  lemma MedianSplits(v: seq<real>)
    requires v != []
    ensures Median(v) in v
    ensures var s := StableSort(RealLess, v);
            && multiset(s) == multiset(v)
            && (forall i :: 0 <= i <= |v| / 2 ==> s[i] <= Median(v))
            && (forall i :: |v| / 2 <= i < |v| ==> Median(v) <= s[i])
  {
    var s, middle := StableSort(RealLess, v), |v| / 2;
    RealLessWeakOrder();
    StableSortSorts(RealLess, v);
    SortedUp(s);
    assert s[middle] in multiset(s);
  }

  /** The way from sample to sample, counted from the front. */
  function Travel(v: seq<real>): real {
    if |v| <= 1 then 0.0 else (if v[0] <= v[1] then v[1] - v[0] else v[0] - v[1]) + Travel(v[1..])
  }

  lemma {:induction false} TravelSnoc(v: seq<real>, x: real)
    requires v != []
    ensures Travel(v + [x]) == Travel(v) + Abs(x - v[|v|-1])
  {
    if |v| == 1 {
      assert (v + [x])[1..] == [x];
    } else {
      TravelSnoc(v[1..], x);
      assert (v + [x])[1..] == v[1..] + [x];
    }
  }

  lemma {:induction false} DeltasAreTravel(v: seq<real>)
    requires v != []
    ensures Deltas(v) == Travel(v)
  {
    if |v| > 1 {
      var p := v[..|v|-1];
      DeltasAreTravel(p);
      TravelSnoc(p, v[|v|-1]);
      assert p + [v[|v|-1]] == v;
    }
  }

  lemma Multiplied(x: real, n: real)
    requires n != 0.0
    ensures x / n * n == x
  {}

  /** Jitter is the mean distance from one sample to the next. */
  lemma JitterIsMeanDistance(v: seq<real>)
    requires v != []
    ensures if |v| > 1 then Jitter(v) * (|v| - 1) as real == Travel(v) else Jitter(v) == 0.0
  {
    DeltasAreTravel(v);
    if |v| > 1 { Multiplied(Deltas(v), (|v| - 1) as real); }
  }

  lemma JitterBound(v: seq<real>, low: real, high: real)
    requires v != [] && forall i :: 0 <= i < |v| ==> low <= v[i] <= high
    ensures 0.0 <= Jitter(v) <= high - low
  {
    assert low <= v[0] <= high;
    forall i, j | 0 <= i < |v| && 0 <= j < |v| ensures v[i] - v[j] <= high - low {}
    DeltasBound(v, high - low);
    if |v| > 1 { QuotientBounds(Deltas(v), (|v| - 1) as real, 0.0, high - low); }
  }

  /** Jitter is 0 for a single sample and never above the sample range. */
  lemma JitterWithinRange(v: seq<real>)
    requires v != []
    ensures 0.0 <= Jitter(v) <= Max(v) - Min(v)
  {
    MinMaxBound(v);
    JitterBound(v, Min(v), Max(v));
  }

  /** What one probe round says besides latency: a route is reachable exactly when a round
      was requested and geolocation or some sample succeeded, a blackhole when a round was
      requested and neither did; the loss is the failures in percent of the requests. */
  lemma AggregatedMeans(samples: seq<int>, failures: int, requested: int, geoOK: bool)
    ensures var m := Aggregated(samples, failures, requested, geoOK);
            && m.sampleCount == requested && m.successCount == |samples| && m.geoOK == geoOK
            && (m.internetReachable <==> requested > 0 && (geoOK || samples != []))
            && (m.blackhole <==> requested > 0 && !geoOK && samples == [])
            && (requested > 0 ==> m.failurePct * requested as real == 100.0 * failures as real)
            && (requested <= 0 ==> m.failurePct == 0.0)
            && !m.bandwidthMeasured && !m.bandwidthFresh
  {
    if requested > 0 {
      assert failures as real / requested as real * requested as real == failures as real;
    }
  }

  /** The extremes of a round are those of its samples, in milliseconds. */
  lemma ExtremesAttained(samples: seq<int>, failures: int, requested: int, geoOK: bool)
    requires requested > 0 && samples != []
    ensures var m := Aggregated(samples, failures, requested, geoOK);
            && (exists i :: 0 <= i < |samples| && samples[i] as real == m.minLatencyMS * 1000000.0)
            && (exists i :: 0 <= i < |samples| && samples[i] as real == m.maxLatencyMS * 1000000.0)
            && (exists i :: 0 <= i < |samples| && samples[i] as real == m.requestLatencyMS * 1000000.0)
            && forall i :: 0 <= i < |samples| ==> m.minLatencyMS * 1000000.0 <= samples[i] as real <= m.maxLatencyMS * 1000000.0
  {
    var v := Millis(samples);
    MinMaxBound(v);
    MedianSplits(v);
    assert forall i :: 0 <= i < |v| ==> samples[i] as real == v[i] * 1000000.0;
  }

  /** The extremes bound the reported latency, and their distance bounds the jitter. */
  lemma AggregateOrder(samples: seq<int>, failures: int, requested: int, geoOK: bool)
    requires requested > 0 && samples != []
    ensures var m := Aggregated(samples, failures, requested, geoOK);
            && m.minLatencyMS <= m.requestLatencyMS <= m.maxLatencyMS
            && 0.0 <= m.jitterMS <= m.maxLatencyMS - m.minLatencyMS
            && (|samples| == 1 ==> m.jitterMS == 0.0)
  {
    MedianSplits(Millis(samples));
    MinMaxBound(Millis(samples));
    JitterWithinRange(Millis(samples));
  }

  ghost predicate IsLog1p(log1p: real -> real) {
    && log1p(0.0) == 0.0
    && forall x, y :: 0.0 <= x < y ==> log1p(x) < log1p(y)
  }

  /** All that is used of `math.Log1p`. */
  type Log1p = f: real -> real | IsLog1p(f) ghost witness x => x

  function Clamp(value: real, low: real, high: real): real {
    if value < low then low else if value > high then high else value
  }

  function Ewma(previous: real, current: real, hasPrevious: bool, alpha: real): real {
    if !hasPrevious then current else alpha * current + (1.0 - alpha) * previous
  }

  const ALPHA := 0.35

  function BandwidthTerm(m: Metrics, log1p: Log1p): real
  {
    if m.bandwidthFresh then 1.0 - Clamp(log1p(m.downloadMbps) / log1p(100.0), 0.0, 1.0) else 0.5
  }

  function Raw(m: Metrics, log1p: Log1p): real
  {
    if m.successCount == 0 then 95.0
    else
      100.0 * (0.35 * Clamp((m.requestLatencyMS - 100.0) / 900.0, 0.0, 1.0)
               + 0.40 * Clamp(m.failurePct / 100.0, 0.0, 1.0)
               + 0.15 * Clamp(m.jitterMS / 300.0, 0.0, 1.0)
               + 0.10 * BandwidthTerm(m, log1p))
  }

  /** (raw, ewma). */
  function Score(m: Metrics, previous: real, hasPrevious: bool, alpha: real, log1p: Log1p): (real, real)
  {
    if !m.internetReachable then (previous, previous)
    else (Raw(m, log1p), Ewma(previous, Raw(m, log1p), hasPrevious, alpha))
  }

  /** `a` is at least as good as `b` in everything that is scored. */
  predicate AsGood(a: Metrics, b: Metrics) {
    && a.requestLatencyMS <= b.requestLatencyMS && a.failurePct <= b.failurePct && a.jitterMS <= b.jitterMS
    && a.bandwidthFresh == b.bandwidthFresh && (a.bandwidthFresh ==> a.downloadMbps >= b.downloadMbps >= 0.0)
  }

  /** `a` is better in something, where the scale still tells them apart. */
  predicate Better(a: Metrics, b: Metrics) {
    || (a.requestLatencyMS < b.requestLatencyMS && a.requestLatencyMS < 1000.0 && b.requestLatencyMS > 100.0)
    || (a.failurePct < b.failurePct && a.failurePct < 100.0 && b.failurePct > 0.0)
    || (a.jitterMS < b.jitterMS && a.jitterMS < 300.0 && b.jitterMS > 0.0)
    || (a.bandwidthFresh && b.downloadMbps < a.downloadMbps && b.downloadMbps < 100.0)
  }

  lemma ClampOrder(x: real, y: real)
    requires x <= y
    ensures 0.0 <= Clamp(x, 0.0, 1.0) <= Clamp(y, 0.0, 1.0) <= 1.0
    ensures x < y && x < 1.0 && y > 0.0 ==> Clamp(x, 0.0, 1.0) < Clamp(y, 0.0, 1.0)
  {}

  lemma SpeedOrder(slow: real, fast: real, log1p: Log1p)
    requires 0.0 <= slow <= fast
    ensures log1p(100.0) > 0.0 && 0.0 <= log1p(slow) / log1p(100.0) <= log1p(fast) / log1p(100.0)
    ensures slow < fast ==> log1p(slow) / log1p(100.0) < log1p(fast) / log1p(100.0)
    ensures slow < 100.0 ==> log1p(slow) / log1p(100.0) < 1.0
    ensures fast > 0.0 ==> log1p(fast) / log1p(100.0) > 0.0
  {
    var top := log1p(100.0);
    assert log1p(0.0) == 0.0 && top > 0.0;
    assert log1p(slow) <= log1p(fast) && (slow < fast ==> log1p(slow) < log1p(fast));
    DividedOrder(log1p(slow), log1p(fast), top);
    DividedOrder(0.0, log1p(slow), top);
    DividedOrder(0.0, log1p(fast), top);
    if slow < 100.0 { DividedOrder(log1p(slow), top, top); }
  }

  lemma DividedOrder(x: real, y: real, n: real)
    requires n > 0.0 && x <= y
    ensures x / n <= y / n && (x < y ==> x / n < y / n) && n / n == 1.0 && 0.0 / n == 0.0
  {
    assert x / n * n == x && y / n * n == y;
  }

  lemma TermOrder(a: Metrics, b: Metrics, log1p: Log1p)
    requires AsGood(a, b)
    ensures BandwidthTerm(a, log1p) <= BandwidthTerm(b, log1p)
    ensures a.bandwidthFresh && b.downloadMbps < a.downloadMbps && b.downloadMbps < 100.0 ==> BandwidthTerm(a, log1p) < BandwidthTerm(b, log1p)
  {
    if a.bandwidthFresh {
      SpeedOrder(b.downloadMbps, a.downloadMbps, log1p);
      ClampOrder(log1p(b.downloadMbps) / log1p(100.0), log1p(a.downloadMbps) / log1p(100.0));
    }
  }

  /** A route that is at least as good in everything never scores worse, and one that is
      better in something scores strictly better. */
  lemma BetterScoresLower(a: Metrics, b: Metrics, log1p: Log1p)
    requires a.successCount > 0 && b.successCount > 0 && AsGood(a, b)
    ensures Raw(a, log1p) <= Raw(b, log1p)
    ensures Better(a, b) ==> Raw(a, log1p) < Raw(b, log1p)
  {
    ClampOrder((a.requestLatencyMS - 100.0) / 900.0, (b.requestLatencyMS - 100.0) / 900.0);
    ClampOrder(a.failurePct / 100.0, b.failurePct / 100.0);
    ClampOrder(a.jitterMS / 300.0, b.jitterMS / 300.0);
    TermOrder(a, b, log1p);
  }

  /** What each measurement costs: 35 points for the latency between 100 and 1000 ms, 40 for
      the loss, 15 for the jitter up to 300 ms, 5 for having no fresh download, 10 for an
      empty one; inside its scale every unit costs the same. */
  lemma PriceList(m: Metrics, latency: real, loss: real, jitter: real, log1p: Log1p)
    requires m.successCount > 0 && 100.0 <= latency <= 1000.0 && 0.0 <= loss <= 100.0 && 0.0 <= jitter <= 300.0
    ensures var m := m.(requestLatencyMS := latency, failurePct := loss, jitterMS := jitter);
            var points := (latency - 100.0) * 35.0 / 900.0 + loss * 0.4 + jitter * 0.05;
            && Raw(m.(bandwidthFresh := false), log1p) == points + 5.0
            && Raw(m.(bandwidthFresh := true, downloadMbps := 0.0), log1p) == points + 10.0
            && Raw(m.(bandwidthFresh := true, downloadMbps := 100.0), log1p) == points
  {
    SpeedOrder(0.0, 100.0, log1p);
    DividedOrder(0.0, log1p(100.0), log1p(100.0));
    assert log1p(0.0) == 0.0;
  }

  /** One scoring: an unreachable route keeps its score, one without a sample scores 95; the
      first score is the raw one, every later one moves 35 percent of the way to it. */
  lemma ScoreMoves(m: Metrics, previous: real, hasPrevious: bool, log1p: Log1p)
    ensures var (raw, smoothed) := Score(m, previous, hasPrevious, ALPHA, log1p);
            && (!m.internetReachable ==> raw == smoothed == previous)
            && (m.internetReachable && m.successCount == 0 ==> raw == 95.0)
            && (m.internetReachable && !hasPrevious ==> smoothed == raw)
            && (m.internetReachable && hasPrevious ==> smoothed - previous == 0.35 * (raw - previous))
  {}

  /** Bounded whatever was measured, as long as the previous value was. */
  lemma ScoreBounded(m: Metrics, previous: real, hasPrevious: bool, log1p: Log1p)
    requires 0.0 <= previous <= 100.0
    ensures var (raw, ewma) := Score(m, previous, hasPrevious, ALPHA, log1p);
            0.0 <= raw <= 100.0 && 0.0 <= ewma <= 100.0
  {}

  /** Same measurement, different bandwidth fields. */
  function WithBandwidth(m: Metrics, mbps: real, recent: bool): Metrics {
    m.(downloadMbps := mbps, bandwidthMeasured := true, bandwidthFresh := recent)
  }

  /** With at most 15 samples (the configuration allows 10) a route with any success
      scores strictly better than one with only geolocation evidence, whatever its
      latencies and bandwidth: one success forces zero jitter, two cap the loss. */
  lemma SuccessBeatsGeoOnly(samples: seq<int>, requested: int, geoOK: bool, mbps: real, recent: bool, log1p: Log1p)
    requires 1 <= |samples| <= requested <= 15
    ensures var m := Aggregated(samples, requested - |samples|, requested, geoOK);
            Raw(WithBandwidth(m, mbps, recent), log1p) < 95.0 == Raw(Aggregated([], requested, requested, true), log1p)
    ensures var m := Aggregated(samples, requested - |samples|, requested, geoOK);
            Raw(m, log1p) < 95.0
  {
    var n := requested as real;
    var failed := (requested - |samples|) as real;
    assert failed / n * 100.0 / 100.0 == failed / n;
    if |samples| >= 2 {
      QuotientBounds(failed, n, 0.0, 13.0 / 15.0);
    } else {
      QuotientBounds(failed, n, 0.0, 14.0 / 15.0);
    }
  }

  /** The bound is exact: from 16 samples on, two slow successes with a measured but
      empty download score at least the geo-only 95. */
  lemma SixteenSamplesAreTooMany(requested: int, geoOK: bool, log1p: Log1p)
    requires requested >= 16
    ensures var m := Aggregated([1000000000, 1300000000], requested - 2, requested, geoOK);
            Raw(WithBandwidth(m, 0.0, true), log1p) >= 95.0
  {
    TwoSlowSamples();
    var n := requested as real;
    var failed := (requested - 2) as real;
    QuotientBounds(failed, n, 0.875, 1.0);
    assert failed / n * 100.0 / 100.0 == failed / n;
    assert log1p(0.0) / log1p(100.0) == 0.0;
  }

  lemma TwoSlowSamples()
    ensures var v := Millis([1000000000, 1300000000]); Median(v) >= 1000.0 && Jitter(v) == 300.0
  {
    var v := Millis([1000000000, 1300000000]);
    assert v == [1000.0, 1300.0];
    assert v[..1] == [1000.0];
    assert Deltas(v) == 300.0;
    MedianSplits(v);
  }

  /** The smoothed score of a route that was reachable with these raw scores. */
  function Smoothed(raws: seq<real>, alpha: real): real
    requires raws != []
  {
    if |raws| == 1 then raws[0]
    else Ewma(Smoothed(raws[..|raws|-1], alpha), raws[|raws|-1], true, alpha)
  }

  /** A route whose raw scores are never worse keeps a smoothed score that is never
      worse, so publication order follows the measurements. */
  lemma {:induction false} SmoothingMonotone(a: seq<real>, b: seq<real>)
    requires a != [] && |a| == |b|
    requires forall i :: 0 <= i < |a| ==> a[i] <= b[i]
    ensures Smoothed(a, ALPHA) <= Smoothed(b, ALPHA)
  {
    if |a| > 1 { SmoothingMonotone(a[..|a|-1], b[..|b|-1]); }
  }

  function Power(base: real, n: nat): real {
    if n == 0 then 1.0 else base * Power(base, n - 1)
  }

  /** After `n` further refreshes at a steady raw score the old smoothed score keeps
      exactly the weight 0.65^n. */
  lemma {:induction false} SmoothingForgets(raws: seq<real>, steady: real, n: nat)
    requires raws != []
    ensures Smoothed(raws + seq(n, _ => steady), ALPHA)
            == steady + Power(0.65, n) * (Smoothed(raws, ALPHA) - steady)
  {
    if n == 0 {
      assert raws + seq(0, _ => steady) == raws;
    } else {
      var longer := raws + seq(n, _ => steady);
      assert longer[..|longer|-1] == raws + seq(n - 1, _ => steady);
      assert longer[|longer|-1] == steady;
      SmoothingForgets(raws, steady, n - 1);
    }
  }
}
