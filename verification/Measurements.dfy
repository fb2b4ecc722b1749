/** What the store holds of a proxy's measurements: its metrics, its speed and its score,
    over whole runs of the pipeline. */
module Measurements {
  import opened Common
  import opened ProxyRuntime
  import opened Records
  import opened Snapshot
  import opened Pipeline
  import opened PipelineLaws
  import opened Rotation
  import B = Bandwidth
  import C = Country
  import Q = Quality
  import S = Scoring

  // ---------------------------------------------------------------- one probe

  /** The health flags and the locations that one probe stores. */
  lemma ProbeShows(env: Env, cfg: Config, book: Book, key: string, probe: Option<Probe>, now: int)
    ensures var was, r := Previous(book, key), UpdateOne(env, cfg, book, key, probe, now).runtime[key];
            && r.directHealthy == ReachedDirectly(probe) && r.warpHealthy == ReachedWarp(probe) && r.reachable == GotThrough(probe)
            && r.geo == (if probe.Some? && probe.value.geo.Some? then probe.value.geo else was.geo)
            && r.warpGeo == (if probe.Some? && probe.value.warpGeo.Some? then probe.value.warpGeo else was.warpGeo)
  {}

  lemma RescoredStores(env: Env, cfg: Config, r: Runtime, was: Runtime, m: S.Metrics, now: int)
    ensures var next := Rescored(env, cfg, r, was, m, now);
            && next.hasScore && next.lastReachable == Some(now)
            && (!was.metrics.bandwidthMeasured ==> next.metrics == m)
            && (was.metrics.bandwidthMeasured ==>
                  && next.metrics == m.(downloadMbps := was.metrics.downloadMbps, bandwidthMeasured := true, bandwidthFresh := next.metrics.bandwidthFresh)
                  && (next.metrics.bandwidthFresh <==> was.metrics.bandwidthFresh && was.lastSuccess.Some?
                                                       && now < was.lastSuccess.value + cfg.bandwidth.refreshAfter))
  {}

  lemma RescoredScores(env: Env, cfg: Config, r: Runtime, was: Runtime, m: S.Metrics, now: int)
    requires m.internetReachable
    ensures var next := Rescored(env, cfg, r, was, m, now);
            && next.metrics.internetReachable && next.hasScore
            && next.rawScore == S.Raw(next.metrics, env.log1p)
            && next.scoreEWMA == if was.hasScore then S.Ewma(was.scoreEWMA, next.rawScore, true, S.ALPHA) else next.rawScore
  {}

  lemma SightedKeeps(r: Runtime, probe: Option<Probe>, now: int)
    ensures var after := Sighted(r, probe, now);
            after.metrics == r.metrics && SameScore(after, r) && after.lastReachable == r.lastReachable
  {}

  lemma JudgedKeeps(previous: Runtime, known: bool, key: string, probe: Option<Probe>, now: int)
    ensures var after := Judged(previous, known, key, probe, now);
            after.metrics == previous.metrics && SameScore(after, previous) && after.lastReachable == previous.lastReachable
  {}

  /** What a probe that got through directly leaves is what its scoring stores. */
  lemma ProbeRescores(env: Env, cfg: Config, book: Book, key: string, probe: Option<Probe>, now: int) returns (r: Runtime)
    ensures var was, after := Previous(book, key), UpdateOne(env, cfg, book, key, probe, now).runtime[key];
            if ReachedDirectly(probe) then
              var next := Rescored(env, cfg, r, was, probe.value.metrics, now);
              && after.metrics == next.metrics && SameScore(after, next) && after.lastReachable == next.lastReachable
            else after.metrics == was.metrics && SameScore(after, was) && after.lastReachable == was.lastReachable
  {
    var was := Previous(book, key);
    r := Judged(was, key in book.runtime, key, probe, now);
    JudgedKeeps(was, key in book.runtime, key, probe, now);
    SightedKeeps(if MetricsOf(probe).internetReachable then Rescored(env, cfg, r, was, MetricsOf(probe), now) else r, probe, now);
  }

  /** The metrics that one probe stores: its own if it got through directly, with the speed
      measured before, which stays fresh for RefreshAfter after the last success; otherwise
      the old ones, with the old score. */
  lemma ProbeStores(env: Env, cfg: Config, book: Book, key: string, probe: Option<Probe>, now: int)
    ensures var was, r := Previous(book, key), UpdateOne(env, cfg, book, key, probe, now).runtime[key];
            && (!ReachedDirectly(probe) ==> r.metrics == was.metrics && SameScore(r, was) && r.lastReachable == was.lastReachable)
            && (ReachedDirectly(probe) ==>
                  var m := probe.value.metrics;
                  && r.hasScore && r.lastReachable == Some(now)
                  && (!was.metrics.bandwidthMeasured ==> r.metrics == m)
                  && (was.metrics.bandwidthMeasured ==>
                        && r.metrics == m.(downloadMbps := was.metrics.downloadMbps, bandwidthMeasured := true, bandwidthFresh := r.metrics.bandwidthFresh)
                        && (r.metrics.bandwidthFresh <==> was.metrics.bandwidthFresh && was.lastSuccess.Some?
                                                          && now < was.lastSuccess.value + cfg.bandwidth.refreshAfter)))
  {
    var r := ProbeRescores(env, cfg, book, key, probe, now);
    if ReachedDirectly(probe) { RescoredStores(env, cfg, r, Previous(book, key), probe.value.metrics, now); }
  }

  lemma ProbeScores(env: Env, cfg: Config, book: Book, key: string, probe: Option<Probe>, now: int)
    requires ReachedDirectly(probe)
    ensures var was, r := Previous(book, key), UpdateOne(env, cfg, book, key, probe, now).runtime[key];
            && r.metrics.internetReachable && r.hasScore
            && r.rawScore == S.Raw(r.metrics, env.log1p)
            && r.scoreEWMA == if was.hasScore then S.Ewma(was.scoreEWMA, r.rawScore, true, S.ALPHA) else r.rawScore
  {
    var r := ProbeRescores(env, cfg, book, key, probe, now);
    RescoredScores(env, cfg, r, Previous(book, key), probe.value.metrics, now);
  }

  // ---------------------------------------------------------------- one download

  /** Position `i` is the last at which the refresh lists this proxy. */
  ghost predicate LastPlace(env: Env, targets: seq<Target>, key: string, i: int) {
    && 0 <= i < |targets| && env.identity(targets[i].record) == key
    && forall j :: i < j < |targets| ==> env.identity(targets[j].record) != key
  }

  lemma {:induction false} IndicesAreLast(env: Env, targets: seq<Target>, key: string)
    ensures key in Indices(env, targets) ==> LastPlace(env, targets, key, Indices(env, targets)[key])
    ensures key !in Indices(env, targets) ==> forall j :: 0 <= j < |targets| ==> env.identity(targets[j].record) != key
  {
    if targets != [] {
      var p := targets[..|targets|-1];
      IndicesAreLast(env, p, key);
      assert forall j :: 0 <= j < |p| ==> p[j] == targets[j];
    }
  }

  /** The download of a proxy is the one at the last position that lists it. */
  lemma DownloadIsLast(env: Env, input: Input, key: string, i: nat)
    requires LastPlace(env, input.targets, key, i)
    ensures key in Downloads(env, input) <==> i in input.downloads
    ensures key in Downloads(env, input) ==> Downloads(env, input)[key] == input.downloads[i]
  {
    IndicesAreLast(env, input.targets, key);
  }

  lemma {:induction false} MeasuredSpeed(env: Env, book: Book, chosen: seq<Runtime>, mbps: map<string, real>, now: int, key: string)
    requires key in book.runtime
    ensures var was, after := book.runtime[key], Measured(env, book, chosen, mbps, now).runtime;
            && key in after
            && after[key].metrics == if key in KeysOf(chosen) && key in mbps
                                     then was.metrics.(downloadMbps := mbps[key], bandwidthMeasured := true, bandwidthFresh := true)
                                     else was.metrics
  {
    if chosen != [] {
      MeasuredSpeed(env, book, chosen[..|chosen|-1], mbps, now, key);
      KeysOfInit(chosen);
    }
  }

  lemma {:induction false} MarkedSpeed(book: Book, chosen: seq<Runtime>, now: int, key: string)
    requires key in book.runtime
    ensures var was, after := book.runtime[key], Marked(book, chosen, now).runtime;
            key in after && after[key].metrics == was.metrics && SameScore(was, after[key])
  {
    if chosen != [] { MarkedSpeed(book, chosen[..|chosen|-1], now, key); }
  }

  predicate SameScore(a: Runtime, b: Runtime) {
    a.hasScore == b.hasScore && a.rawScore == b.rawScore && a.scoreEWMA == b.scoreEWMA
  }

  /** The bandwidth stage stores for every chosen proxy whose download succeeded exactly its
      speed, and leaves the metrics of all others alone. */
  lemma StageMeasures(env: Env, cfg: Config, book: Book, input: Input, key: string)
    requires cfg.bandwidthEnabled && key in book.runtime
    ensures var was, after := book.runtime[key], BandwidthStage(env, cfg, book, input).runtime;
            var done := key in KeysOf(Candidates(env, cfg, book, input)) && key in Downloads(env, input);
            && key in after
            && after[key].metrics == if done then was.metrics.(downloadMbps := Downloads(env, input)[key], bandwidthMeasured := true, bandwidthFresh := true)
                                     else was.metrics
  {
    var chosen := Candidates(env, cfg, book, input);
    MeasuredSpeed(env, book, chosen, Downloads(env, input), input.now, key);
    MarkedSpeed(Measured(env, book, chosen, Downloads(env, input), input.now), chosen, input.now, key);
  }

  // ---------------------------------------------------------------- scores over runs

  /** The metrics stored by each probe of one proxy that got through directly. */
  function ReadingsIn(env: Env, cfg: Config, book: Book, targets: seq<Target>, now: int, key: string): seq<S.Metrics> {
    if targets == [] then []
    else
      var last := targets[|targets|-1];
      ReadingsIn(env, cfg, book, targets[..|targets|-1], now, key)
      + if env.identity(last.record) == key && ReachedDirectly(last.probe) then [Metrics(UpdateAll(env, cfg, book, targets, now), key)] else []
  }

  function Metrics(book: Book, key: string): S.Metrics {
    if key in book.runtime then book.runtime[key].metrics else S.NO_METRICS
  }

  /** The metrics stored by each download of a proxy that has a score. */
  function SpeedsIn(env: Env, book: Book, chosen: seq<Runtime>, mbps: map<string, real>, now: int, key: string): seq<S.Metrics> {
    if chosen == [] then []
    else
      var p := chosen[..|chosen|-1];
      var mid := Measured(env, book, p, mbps, now);
      SpeedsIn(env, book, p, mbps, now, key)
      + if chosen[|chosen|-1].key == key && key in mbps && key in mid.runtime && mid.runtime[key].hasScore
        then [Metrics(Measured(env, book, chosen, mbps, now), key)] else []
  }

  /** The metrics that the bandwidth stage scores for this proxy. */
  function StageReadings(env: Env, cfg: Config, book: Book, input: Input, key: string): seq<S.Metrics> {
    if cfg.bandwidthEnabled then SpeedsIn(env, book, Candidates(env, cfg, book, input), Downloads(env, input), input.now, key) else []
  }

  /** The metrics that one step scores for this proxy. */
  function StepReadings(env: Env, cfg: Config, s: Service, op: Op, key: string): seq<S.Metrics> {
    if !op.Refresh? || !Counted(op.input) then []
    else
      var input := op.input;
      ReadingsIn(env, cfg, s.book, input.targets, input.now, key)
      + StageReadings(env, cfg, UpdateAll(env, cfg, s.book, input.targets, input.now), input, key)
  }

  /** All metrics scored for this proxy over a run, oldest first. */
  function Readings(env: Env, cfg: Config, evidence: map<string, C.RouteCountries>, restored: Option<CachedData>, ops: seq<Op>, key: string): seq<S.Metrics> {
    if ops == [] then []
    else
      var p := ops[..|ops|-1];
      Readings(env, cfg, evidence, restored, p, key) + StepReadings(env, cfg, Exec(env, cfg, evidence, restored, p), ops[|ops|-1], key)
  }

  function Raws(env: Env, ms: seq<S.Metrics>): (r: seq<real>)
    ensures |r| == |ms|
  {
    seq(|ms|, i requires 0 <= i < |ms| => S.Raw(ms[i], env.log1p))
  }

  /** The score is what these metrics make of it: none without metrics, the raw score of the
      last of them, and the smoothed score of them all. */
  ghost predicate ScoredBy(env: Env, r: Runtime, ms: seq<S.Metrics>) {
    && (r.hasScore <==> ms != [])
    && (ms != [] ==>
          && r.metrics == ms[|ms|-1] && r.metrics.internetReachable
          && r.rawScore == S.Raw(r.metrics, env.log1p)
          && r.scoreEWMA == S.Smoothed(Raws(env, ms), S.ALPHA))
  }

  ghost predicate Accounts(env: Env, book: Book, key: string, ms: seq<S.Metrics>) {
    if key in book.runtime then ScoredBy(env, book.runtime[key], ms) else ms == []
  }

  lemma ScoredAgain(env: Env, was: Runtime, r: Runtime, ms: seq<S.Metrics>)
    requires ScoredBy(env, was, ms) && r.hasScore && r.metrics.internetReachable && r.rawScore == S.Raw(r.metrics, env.log1p)
    requires r.scoreEWMA == if was.hasScore then S.Ewma(was.scoreEWMA, r.rawScore, true, S.ALPHA) else r.rawScore
    ensures ScoredBy(env, r, ms + [r.metrics])
  {
    var raws := Raws(env, ms + [r.metrics]);
    assert raws[..|ms|] == Raws(env, ms) && raws[|ms|] == r.rawScore;
  }

  lemma ProbeAccounts(env: Env, cfg: Config, book: Book, key: string, probe: Option<Probe>, now: int, ms: seq<S.Metrics>)
    requires Accounts(env, book, key, ms)
    ensures var after := UpdateOne(env, cfg, book, key, probe, now);
            Accounts(env, after, key, if ReachedDirectly(probe) then ms + [Metrics(after, key)] else ms)
  {
    var was, r := Previous(book, key), UpdateOne(env, cfg, book, key, probe, now).runtime[key];
    assert ScoredBy(env, was, ms);
    if ReachedDirectly(probe) {
      ProbeScores(env, cfg, book, key, probe, now);
      ScoredAgain(env, was, r, ms);
    } else {
      ProbeStores(env, cfg, book, key, probe, now);
    }
  }

  lemma OneProbeAccounts(env: Env, cfg: Config, book: Book, at: string, probe: Option<Probe>, now: int, key: string, ms: seq<S.Metrics>)
    requires Accounts(env, book, key, ms)
    ensures var after := UpdateOne(env, cfg, book, at, probe, now);
            Accounts(env, after, key, if at == key && ReachedDirectly(probe) then ms + [Metrics(after, key)] else ms)
  {
    if at == key {
      ProbeAccounts(env, cfg, book, key, probe, now, ms);
    } else {
      UpdateOneElsewhere(env, cfg, book, at, probe, now, key);
    }
  }

  lemma {:induction false} ProbesAccount(env: Env, cfg: Config, book: Book, targets: seq<Target>, now: int, key: string, ms: seq<S.Metrics>)
    requires Accounts(env, book, key, ms)
    ensures Accounts(env, UpdateAll(env, cfg, book, targets, now), key, ms + ReadingsIn(env, cfg, book, targets, now, key))
  {
    if targets == [] {
      assert ms + [] == ms;
    } else {
      var p, last := targets[..|targets|-1], targets[|targets|-1];
      var mid, at := UpdateAll(env, cfg, book, p, now), env.identity(last.record);
      var so := ms + ReadingsIn(env, cfg, book, p, now, key);
      ProbesAccount(env, cfg, book, p, now, key, ms);
      OneProbeAccounts(env, cfg, mid, at, last.probe, now, key, so);
      assert ms + ReadingsIn(env, cfg, book, targets, now, key)
             == if at == key && ReachedDirectly(last.probe) then so + [Metrics(UpdateAll(env, cfg, book, targets, now), key)] else so;
    }
  }

  lemma SpeedScores(env: Env, was: Runtime, mbps: real, now: int, ms: seq<S.Metrics>)
    requires ScoredBy(env, was, ms)
    ensures var r := WithBandwidth(env, was, mbps, now);
            ScoredBy(env, r, if was.hasScore then ms + [r.metrics] else ms)
  {
    var r := WithBandwidth(env, was, mbps, now);
    if was.hasScore { ScoredAgain(env, was, r, ms); }
  }

  lemma SpeedAccounts(env: Env, book: Book, at: string, mbps: map<string, real>, now: int, key: string, ms: seq<S.Metrics>)
    requires Accounts(env, book, key, ms)
    ensures var after := if at in mbps && at in book.runtime
                         then book.(runtime := book.runtime[at := WithBandwidth(env, book.runtime[at], mbps[at], now)]) else book;
            Accounts(env, after, key, if at == key && key in mbps && key in book.runtime && book.runtime[key].hasScore
                                      then ms + [Metrics(after, key)] else ms)
  {
    if at == key && key in mbps && key in book.runtime { SpeedScores(env, book.runtime[key], mbps[key], now, ms); }
  }

  lemma {:induction false} SpeedsAccount(env: Env, book: Book, chosen: seq<Runtime>, mbps: map<string, real>, now: int, key: string, ms: seq<S.Metrics>)
    requires Accounts(env, book, key, ms)
    ensures Accounts(env, Measured(env, book, chosen, mbps, now), key, ms + SpeedsIn(env, book, chosen, mbps, now, key))
  {
    if chosen == [] {
      assert ms + [] == ms;
    } else {
      var p, at := chosen[..|chosen|-1], chosen[|chosen|-1].key;
      var mid, so := Measured(env, book, p, mbps, now), ms + SpeedsIn(env, book, p, mbps, now, key);
      SpeedsAccount(env, book, p, mbps, now, key, ms);
      SpeedAccounts(env, mid, at, mbps, now, key, so);
      assert ms + SpeedsIn(env, book, chosen, mbps, now, key)
             == if at == key && key in mbps && key in mid.runtime && mid.runtime[key].hasScore
                then so + [Metrics(Measured(env, book, chosen, mbps, now), key)] else so;
    }
  }

  lemma {:induction false} MarkedKeys(book: Book, chosen: seq<Runtime>, now: int)
    ensures Marked(book, chosen, now).runtime.Keys == book.runtime.Keys
  {
    if chosen != [] { MarkedKeys(book, chosen[..|chosen|-1], now); }
  }

  lemma MarksAccount(env: Env, book: Book, chosen: seq<Runtime>, now: int, key: string, ms: seq<S.Metrics>)
    requires Accounts(env, book, key, ms)
    ensures Accounts(env, Marked(book, chosen, now), key, ms)
  {
    MarkedKeys(book, chosen, now);
    if key in book.runtime { MarkedSpeed(book, chosen, now, key); }
  }

  lemma StageAccounts(env: Env, cfg: Config, book: Book, input: Input, key: string, ms: seq<S.Metrics>)
    requires Accounts(env, book, key, ms)
    ensures Accounts(env, BandwidthStage(env, cfg, book, input), key, ms + StageReadings(env, cfg, book, input, key))
  {
    if cfg.bandwidthEnabled {
      var chosen, mbps := Candidates(env, cfg, book, input), Downloads(env, input);
      SpeedsAccount(env, book, chosen, mbps, input.now, key, ms);
      MarksAccount(env, Measured(env, book, chosen, mbps, input.now), chosen, input.now, key,
                   ms + SpeedsIn(env, book, chosen, mbps, input.now, key));
    } else {
      assert ms + [] == ms;
    }
  }

  lemma Regrouped<T>(a: seq<T>, b: seq<T>, c: seq<T>)
    ensures (a + b) + c == a + (b + c)
  {}

  lemma RefreshAccounts(env: Env, cfg: Config, book: Book, input: Input, key: string, ms: seq<S.Metrics>)
    requires Accounts(env, book, key, ms)
    ensures var mid := UpdateAll(env, cfg, book, input.targets, input.now);
            Accounts(env, BookAfter(env, cfg, book, input), key,
                     ms + (ReadingsIn(env, cfg, book, input.targets, input.now, key) + StageReadings(env, cfg, mid, input, key)))
  {
    var mid := UpdateAll(env, cfg, book, input.targets, input.now);
    var probed, staged := ReadingsIn(env, cfg, book, input.targets, input.now, key), StageReadings(env, cfg, mid, input, key);
    ProbesAccount(env, cfg, book, input.targets, input.now, key, ms);
    StageAccounts(env, cfg, mid, input, key, ms + probed);
    Regrouped(ms, probed, staged);
  }

  lemma {:induction false} ObservedAccounts(env: Env, book: Book, records: seq<Record>, seen: nat -> C.Observation, now: int, key: string, ms: seq<S.Metrics>)
    requires Accounts(env, book, key, ms)
    ensures Accounts(env, Observed(env, book, records, seen, now).0, key, ms)
  {
    if records != [] { ObservedAccounts(env, book, records[..|records|-1], seen, now, key, ms); }
  }

  lemma StepAccounts(env: Env, cfg: Config, s: Service, op: Op, key: string, ms: seq<S.Metrics>)
    requires Accounts(env, s.book, key, ms)
    ensures Accounts(env, Step(env, cfg, s, op).book, key, ms + StepReadings(env, cfg, s, op, key))
  {
    assert ms + [] == ms;
    match op
    case Refresh(input) =>
      CountedIs(input);
      if Counted(input) { RefreshAccounts(env, cfg, s.book, input, key, ms); }
    case Reprobe(started, seen, at, _) =>
      if s.cache.Some? && started { ObservedAccounts(env, s.book, ReprobeCandidates(s.cache.value.entries), seen, at, key, ms); }
    case Enrich(_) =>
  }

  /** Over every run: a proxy has a score exactly if some probe of it in a counted refresh got
      through directly; its raw score is that of the metrics stored last, and its published
      score is the smoothed raw scores of all metrics stored, by probes and by downloads. */
  lemma {:induction false} ScoreIsHistory(env: Env, cfg: Config, evidence: map<string, C.RouteCountries>, restored: Option<CachedData>, ops: seq<Op>, key: string)
    ensures Accounts(env, Exec(env, cfg, evidence, restored, ops).book, key, Readings(env, cfg, evidence, restored, ops, key))
  {
    if ops != [] {
      var p := ops[..|ops|-1];
      ScoreIsHistory(env, cfg, evidence, restored, p, key);
      StepAccounts(env, cfg, Exec(env, cfg, evidence, restored, p), ops[|ops|-1], key, Readings(env, cfg, evidence, restored, p, key));
    }
  }
}
