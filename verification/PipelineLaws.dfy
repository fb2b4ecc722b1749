/** Whole runs of the pipeline: what every refresh, re-probe and enrichment keeps, in any
    order, from a freshly started service with a restored snapshot. */
module PipelineLaws {
  import opened Common
  import opened Sorting
  import opened ProxyRuntime
  import opened Records
  import opened Snapshot
  import opened Pipeline
  import B = Bandwidth
  import C = Country
  import Q = Quality
  import S = Scoring

  datatype Op =
    | Refresh(input: Input)
    | Reprobe(started: bool, seen: nat -> C.Observation, at: int, date: Date)
    | Enrich(find: Finders)

  function Step(env: Env, cfg: Config, s: Service, op: Op): Service
  {
    match op
    case Refresh(input) => Refreshed(env, cfg, s, input)
    case Reprobe(started, seen, at, date) => Reprobed(env, s, started, seen, at, date)
    case Enrich(find) => Enriched(s, find)
  }

  /** The service after a run; the store of runtimes is empty at start-up. */
  function Exec(env: Env, cfg: Config, evidence: map<string, C.RouteCountries>, restored: Option<CachedData>, ops: seq<Op>): Service
  {
    if ops == [] then Service(Book(map[], evidence), restored)
    else Step(env, cfg, Exec(env, cfg, evidence, restored, ops[..|ops|-1]), ops[|ops|-1])
  }

  // ---------------------------------------------------------------- the book of runtimes

  /** `b` differs from `a` only in what a bandwidth measurement writes. */
  predicate OnlyBandwidth(a: Runtime, b: Runtime) {
    b == a.(metrics := b.metrics, rawScore := b.rawScore, scoreEWMA := b.scoreEWMA,
            lastAttempt := b.lastAttempt, lastSuccess := b.lastSuccess)
  }

  /** The same proxies, changed by bandwidth measurements only. */
  predicate Remeasured(a: Book, b: Book) {
    && a.evidence == b.evidence && a.runtime.Keys == b.runtime.Keys
    && forall k :: k in a.runtime ==> OnlyBandwidth(a.runtime[k], b.runtime[k])
  }

  lemma {:induction false} MeasuredKeeps(env: Env, book: Book, chosen: seq<Runtime>, mbps: map<string, real>, now: int)
    ensures Remeasured(book, Measured(env, book, chosen, mbps, now))
  {
    if chosen != [] { MeasuredKeeps(env, book, chosen[..|chosen|-1], mbps, now); }
  }

  lemma {:induction false} MarkedKeeps(book: Book, chosen: seq<Runtime>, now: int)
    ensures Remeasured(book, Marked(book, chosen, now))
  {
    if chosen != [] { MarkedKeeps(book, chosen[..|chosen|-1], now); }
  }

  lemma RemeasuredTwice(a: Book, b: Book, c: Book)
    requires Remeasured(a, b) && Remeasured(b, c)
    ensures Remeasured(a, c)
  {}

  /** The bandwidth stage adds and removes no proxy and leaves state, health and
      countries alone. */
  lemma StageKeeps(env: Env, cfg: Config, book: Book, input: Input)
    ensures Remeasured(book, BandwidthStage(env, cfg, book, input))
  {
    if cfg.bandwidthEnabled {
      var chosen := Candidates(env, cfg, book, input);
      var measured := Measured(env, book, chosen, Downloads(env, input), input.now);
      MeasuredKeeps(env, book, chosen, Downloads(env, input), input.now);
      MarkedKeeps(measured, chosen, input.now);
      RemeasuredTwice(book, measured, Marked(measured, chosen, input.now));
    }
  }

  // ---------------------------------------------------------------- histories

  predicate ReachedDirectly(probe: Option<Probe>) { probe.Some? && probe.value.metrics.internetReachable }

  predicate ReachedWarp(probe: Option<Probe>) { probe.Some? && probe.value.warpCountry.Valid() }

  /** At least four fifths of the requested samples succeeded. */
  predicate MostlySucceeded(probe: Option<Probe>) {
    probe.Some? && probe.value.metrics.sampleCount > 0 && 5 * probe.value.metrics.successCount >= 4 * probe.value.metrics.sampleCount
  }

  /** What a probe says, in its own fields. */
  predicate Reads(probe: Option<Probe>, o: Q.Observation) {
    && (o == Q.Good <==> MostlySucceeded(probe))
    && (o == Q.Blackhole <==> !MostlySucceeded(probe) && !ReachedDirectly(probe) && !ReachedWarp(probe))
  }

  lemma ObservationReads(probe: Option<Probe>)
    ensures Reads(probe, ObservationOf(probe))
    ensures Reached(probe) <==> ReachedDirectly(probe) || ReachedWarp(probe)
  {}

  /** A refresh counts when its prober came up and some probe got through. */
  predicate Counted(input: Input) {
    input.started && exists i :: 0 <= i < |input.targets| && GotThrough(input.targets[i].probe)
  }

  predicate GotThrough(probe: Option<Probe>) { ReachedDirectly(probe) || ReachedWarp(probe) }

  lemma CountedIs(input: Input)
    ensures Counted(input) <==> Proceeds(input)
  {
    forall i | 0 <= i < |input.targets| ensures Reached(input.targets[i].probe) <==> GotThrough(input.targets[i].probe) {
      ObservationReads(input.targets[i].probe);
    }
  }

  datatype Probed = Probed(probe: Option<Probe>, at: int)

  /** The probes of one proxy in a list of targets. */
  function ProbesIn(env: Env, targets: seq<Target>, key: string, now: int): seq<Probed> {
    if targets == [] then []
    else
      var last := targets[|targets|-1];
      ProbesIn(env, targets[..|targets|-1], key, now) + if env.identity(last.record) == key then [Probed(last.probe, now)] else []
  }

  /** The probes of one proxy in the refreshes that count. */
  function Probes(env: Env, ops: seq<Op>, key: string): seq<Probed> {
    if ops == [] then []
    else
      var last := ops[|ops|-1];
      Probes(env, ops[..|ops|-1], key)
      + if last.Refresh? && Counted(last.input) then ProbesIn(env, last.input.targets, key, last.input.now) else []
  }

  /** The samples are what the probes say, one by one. */
  predicate ReadOff(h: seq<Q.Sample>, probes: seq<Probed>) {
    |h| == |probes| && forall i :: 0 <= i < |h| ==> Reads(probes[i].probe, h[i].seen) && h[i].at == probes[i].at
  }

  lemma ReadOffAppend(a: seq<Q.Sample>, p: seq<Probed>, b: seq<Q.Sample>, q: seq<Probed>)
    requires ReadOff(a, p) && ReadOff(b, q)
    ensures ReadOff(a + b, p + q)
  {}

  /** What the probes of one proxy showed in a list of targets. */
  function SamplesIn(env: Env, targets: seq<Target>, key: string, now: int): seq<Q.Sample> {
    if targets == [] then []
    else
      var last := targets[|targets|-1];
      SamplesIn(env, targets[..|targets|-1], key, now)
      + if env.identity(last.record) == key then [Q.Sample(ObservationOf(last.probe), now)] else []
  }

  /** The health history of one proxy over a run: refreshes that proceed count, nothing
      else does. */
  function Samples(env: Env, ops: seq<Op>, key: string): seq<Q.Sample> {
    if ops == [] then []
    else
      var last := ops[|ops|-1];
      Samples(env, ops[..|ops|-1], key)
      + if last.Refresh? && Proceeds(last.input) then SamplesIn(env, last.input.targets, key, last.input.now) else []
  }

  lemma {:induction false} SamplesReadIn(env: Env, targets: seq<Target>, key: string, now: int)
    ensures ReadOff(SamplesIn(env, targets, key, now), ProbesIn(env, targets, key, now))
  {
    if targets != [] {
      SamplesReadIn(env, targets[..|targets|-1], key, now);
      ObservationReads(targets[|targets|-1].probe);
    }
  }

  /** The health history of a proxy, read off its probes. */
  lemma {:induction false} SamplesRead(env: Env, ops: seq<Op>, key: string)
    ensures ReadOff(Samples(env, ops, key), Probes(env, ops, key))
  {
    if ops != [] {
      var p, last := ops[..|ops|-1], ops[|ops|-1];
      SamplesRead(env, p, key);
      if last.Refresh? {
        CountedIs(last.input);
        SamplesReadIn(env, last.input.targets, key, last.input.now);
        ReadOffAppend(Samples(env, p, key), Probes(env, p, key),
                      SamplesIn(env, last.input.targets, key, last.input.now), ProbesIn(env, last.input.targets, key, last.input.now));
      }
    }
  }

  /** A proxy is on record exactly when its history is not empty, and its health state is
      the machine run over that history. */
  ghost predicate Remembers(book: Book, key: string, h: seq<Q.Sample>) {
    && (key in book.runtime <==> h != [])
    && (key in book.runtime ==>
          var r := book.runtime[key];
          r.key == key && r.state == r.stateData.state && r.stateData == Q.Run(h, DEAD_COOLDOWN))
  }

  lemma NextRuntimeHealth(env: Env, cfg: Config, previous: Runtime, known: bool, key: string, probe: Option<Probe>, now: int)
    ensures var r := NextRuntime(env, cfg, previous, known, key, probe, now);
            var before := if known then previous.stateData else previous.stateData.(state := Q.Healthy);
            && r.state == r.stateData.state
            && r.stateData == Q.Transition(before, ObservationOf(probe), now, DEAD_COOLDOWN)
  {}

  lemma NextRuntimeStamps(env: Env, cfg: Config, previous: Runtime, known: bool, key: string, probe: Option<Probe>, now: int)
    ensures var r := NextRuntime(env, cfg, previous, known, key, probe, now);
            r.key == key && r.lastAttempt == previous.lastAttempt && r.lastSuccess == previous.lastSuccess
  {}

  lemma NextRuntimeState(env: Env, cfg: Config, previous: Runtime, known: bool, key: string, probe: Option<Probe>, now: int)
    ensures var r := NextRuntime(env, cfg, previous, known, key, probe, now);
            var before := if known then previous.stateData else previous.stateData.(state := Q.Healthy);
            && r.key == key && r.state == r.stateData.state
            && r.stateData == Q.Transition(before, ObservationOf(probe), now, DEAD_COOLDOWN)
            && r.lastAttempt == previous.lastAttempt && r.lastSuccess == previous.lastSuccess
  {
    NextRuntimeHealth(env, cfg, previous, known, key, probe, now);
    NextRuntimeStamps(env, cfg, previous, known, key, probe, now);
  }

  /** What one counted probe does to the recovery state of its proxy, in the fields of the
      probe. A proxy seen for the first time counts as HEALTHY. */
  lemma ProbeMovesState(env: Env, cfg: Config, book: Book, key: string, probe: Option<Probe>, now: int)
    ensures var after := UpdateOne(env, cfg, book, key, probe, now).runtime;
            && key in after
            && var was, next := if key in book.runtime then book.runtime[key].stateData else Q.FRESH, after[key].stateData;
            && after[key].state == next.state
            && (was.state == Q.Healthy ==>
                  && next.state == (if MostlySucceeded(probe) then Q.Healthy else Q.Degraded))
            && (was.state == Q.Healthy || was.state == Q.Degraded ==>
                  next.consecutiveBlackholes == if MostlySucceeded(probe) then 0 else if GotThrough(probe) then was.consecutiveBlackholes
                                              else was.consecutiveBlackholes + 1)
            && (was.state == Q.Degraded ==>
                  && (next.state == Q.Healthy <==> MostlySucceeded(probe) && was.consecutiveGood >= 1)
                  && (next.state == Q.Dead <==> !MostlySucceeded(probe) && !GotThrough(probe) && was.consecutiveBlackholes >= 1)
                  && (next.state == Q.Healthy || next.state == Q.Dead || next.state == Q.Degraded))
            && (was.state == Q.Dead ==>
                  next.state == if MostlySucceeded(probe) && now - was.deadAt >= 1_800_000_000_000 then Q.Recovering else Q.Dead)
            && (was.state == Q.Recovering ==>
                  next.state == if MostlySucceeded(probe) then (if was.consecutiveGood >= 1 then Q.Healthy else Q.Recovering)
                              else if GotThrough(probe) then Q.Degraded else Q.Dead)
  {
    NextRuntimeHealth(env, cfg, Previous(book, key), key in book.runtime, key, probe, now);
    ObservationReads(probe);
    Q.OneStep(if key in book.runtime then book.runtime[key].stateData else Q.FRESH, ObservationOf(probe), now, DEAD_COOLDOWN);
  }

  lemma UpdateOneRemembers(env: Env, cfg: Config, book: Book, key: string, probe: Option<Probe>, now: int, h: seq<Q.Sample>)
    requires Remembers(book, key, h)
    ensures Remembers(UpdateOne(env, cfg, book, key, probe, now), key, h + [Q.Sample(ObservationOf(probe), now)])
  {
    NextRuntimeState(env, cfg, Previous(book, key), key in book.runtime, key, probe, now);
    Q.RunSnoc(h, Q.Sample(ObservationOf(probe), now), DEAD_COOLDOWN);
  }

  lemma UpdateOneElsewhere(env: Env, cfg: Config, book: Book, at: string, probe: Option<Probe>, now: int, key: string)
    requires key != at
    ensures var after := UpdateOne(env, cfg, book, at, probe, now);
            && (key in after.runtime <==> key in book.runtime)
            && (key in book.runtime ==> after.runtime[key] == book.runtime[key])
            && (key in after.evidence <==> key in book.evidence)
            && (key in book.evidence ==> after.evidence[key] == book.evidence[key])
  {}

  lemma {:induction false} UpdateAllRemembers(env: Env, cfg: Config, book: Book, targets: seq<Target>, now: int, key: string, h: seq<Q.Sample>)
    requires Remembers(book, key, h)
    ensures Remembers(UpdateAll(env, cfg, book, targets, now), key, h + SamplesIn(env, targets, key, now))
  {
    if targets == [] {
      assert h + [] == h;
    } else {
      var p, last := targets[..|targets|-1], targets[|targets|-1];
      UpdateAllRemembers(env, cfg, book, p, now, key, h);
      var mid := h + SamplesIn(env, p, key, now);
      if env.identity(last.record) == key {
        UpdateOneRemembers(env, cfg, UpdateAll(env, cfg, book, p, now), key, last.probe, now, mid);
        assert h + SamplesIn(env, targets, key, now) == mid + [Q.Sample(ObservationOf(last.probe), now)];
      } else {
        UpdateOneElsewhere(env, cfg, UpdateAll(env, cfg, book, p, now), env.identity(last.record), last.probe, now, key);
        assert h + SamplesIn(env, targets, key, now) == mid;
      }
    }
  }

  lemma {:induction false} ObservedRemembers(env: Env, book: Book, records: seq<Record>, seen: nat -> C.Observation, now: int, key: string, h: seq<Q.Sample>)
    requires Remembers(book, key, h)
    ensures Remembers(Observed(env, book, records, seen, now).0, key, h)
  {
    if records != [] { ObservedRemembers(env, book, records[..|records|-1], seen, now, key, h); }
  }

  lemma RefreshRemembers(env: Env, cfg: Config, book: Book, input: Input, key: string, h: seq<Q.Sample>)
    requires Remembers(book, key, h)
    ensures Remembers(BookAfter(env, cfg, book, input), key, h + SamplesIn(env, input.targets, key, input.now))
  {
    UpdateAllRemembers(env, cfg, book, input.targets, input.now, key, h);
    StageKeeps(env, cfg, UpdateAll(env, cfg, book, input.targets, input.now), input);
  }

  /** Over every run, the health state of every proxy is the recovery machine run over
      the history of its probes in the refreshes that had a reachability witness; no
      re-probe, enrichment or measurement touches it. Each sample is read off its probe: GOOD
      if four fifths of the requested samples succeeded, otherwise PARTIAL if the probe got
      through directly or by WARP, a blackhole if not. */
  lemma {:induction false} HealthIsHistory(env: Env, cfg: Config, evidence: map<string, C.RouteCountries>, restored: Option<CachedData>, ops: seq<Op>, key: string)
    ensures Remembers(Exec(env, cfg, evidence, restored, ops).book, key, Samples(env, ops, key))
    ensures ReadOff(Samples(env, ops, key), Probes(env, ops, key))
  {
    SamplesRead(env, ops, key);
    if ops != [] {
      var p, last := ops[..|ops|-1], ops[|ops|-1];
      HealthIsHistory(env, cfg, evidence, restored, p, key);
      var s, h := Exec(env, cfg, evidence, restored, p), Samples(env, p, key);
      assert h + [] == h;
      match last
      case Refresh(input) =>
        if Proceeds(input) { RefreshRemembers(env, cfg, s.book, input, key, h); }
      case Reprobe(started, seen, at, _) =>
        if s.cache.Some? && started {
          ObservedRemembers(env, s.book, ReprobeCandidates(s.cache.value.entries), seen, at, key, h);
        }
      case Enrich(_) =>
    }
  }

  /** Every probe of the proxy in a proceeding refresh reached the internet or WARP. */
  predicate AlwaysReached(env: Env, ops: seq<Op>, key: string) {
    forall i :: 0 <= i < |ops| && ops[i].Refresh? && Proceeds(ops[i].input) ==>
      forall t :: t in ops[i].input.targets && env.identity(t.record) == key ==> GotThrough(t.probe)
  }

  lemma {:induction false} ReachedSamples(env: Env, targets: seq<Target>, key: string, now: int)
    requires forall t :: t in targets && env.identity(t.record) == key ==> GotThrough(t.probe)
    ensures forall x :: x in SamplesIn(env, targets, key, now) ==> !x.seen.Blackhole?
  {
    if targets != [] {
      ReachedSamples(env, targets[..|targets|-1], key, now);
      ObservationReads(targets[|targets|-1].probe);
    }
  }

  lemma {:induction false} ReachedHistory(env: Env, ops: seq<Op>, key: string)
    requires AlwaysReached(env, ops, key)
    ensures forall x :: x in Samples(env, ops, key) ==> !x.seen.Blackhole?
  {
    if ops != [] {
      var last := ops[|ops|-1];
      ReachedHistory(env, ops[..|ops|-1], key);
      if last.Refresh? && Proceeds(last.input) { ReachedSamples(env, last.input.targets, key, last.input.now); }
    }
  }

  /** A proxy with direct or WARP reachability in every refresh is never DEAD. */
  lemma ReachedNeverDead(env: Env, cfg: Config, evidence: map<string, C.RouteCountries>, restored: Option<CachedData>, ops: seq<Op>, key: string)
    requires AlwaysReached(env, ops, key)
    ensures var book := Exec(env, cfg, evidence, restored, ops).book;
            key in book.runtime ==> !book.runtime[key].state.Dead?
  {
    var h := Samples(env, ops, key);
    HealthIsHistory(env, cfg, evidence, restored, ops, key);
    ReachedHistory(env, ops, key);
    Q.NoBlackholeNoDeath(h, DEAD_COOLDOWN);
    assert h[..|h|] == h;
    assert !Q.Before(h, |h|, DEAD_COOLDOWN).Dead?;
  }

  /** A proxy has been DEAD at some point of the run only if two of its probes reached
      nothing, with no GOOD probe between them. */
  lemma DeadOnlyAfterDoubleBlackhole(env: Env, cfg: Config, evidence: map<string, C.RouteCountries>, restored: Option<CachedData>, ops: seq<Op>, key: string)
    ensures var book := Exec(env, cfg, evidence, restored, ops).book;
            key in book.runtime && book.runtime[key].state.Dead? ==> Q.HasDoubleBlackhole(Samples(env, ops, key))
  {
    var h := Samples(env, ops, key);
    HealthIsHistory(env, cfg, evidence, restored, ops, key);
    Q.FirstDeathTakesTwoBlackholes(h, DEAD_COOLDOWN);
    assert h[..|h|] == h;
    assert Q.Before(h, |h|, DEAD_COOLDOWN) == Q.Run(h, DEAD_COOLDOWN).state;
  }

  /** A refresh whose prober does not come up, or none of whose probes reached anything. */
  predicate Witnessless(op: Op) {
    op.Refresh? && (!op.input.started || forall t :: t in op.input.targets ==> !GotThrough(t.probe))
  }

  /** It changes neither the runtime store nor the evidence nor the published snapshot. */
  lemma NoWitnessNoChange(env: Env, cfg: Config, s: Service, op: Op)
    requires Witnessless(op)
    ensures Step(env, cfg, s, op) == s
  {
    CountedIs(op.input);
    forall i | 0 <= i < |op.input.targets| && op.input.started ensures !GotThrough(op.input.targets[i].probe) {
      assert op.input.targets[i] in op.input.targets;
    }
  }

  /** The run without its witnessless refreshes. */
  function Heeded(ops: seq<Op>): seq<Op> {
    if ops == [] then []
    else Heeded(ops[..|ops|-1]) + if Witnessless(ops[|ops|-1]) then [] else [ops[|ops|-1]]
  }

  /** However many witnessless refreshes a run holds, and wherever, it leads to the state of
      the run without them. */
  lemma {:induction false} WitnesslessRefreshesVanish(env: Env, cfg: Config, evidence: map<string, C.RouteCountries>, restored: Option<CachedData>, ops: seq<Op>)
    ensures Exec(env, cfg, evidence, restored, ops) == Exec(env, cfg, evidence, restored, Heeded(ops))
  {
    if ops != [] {
      var p, last := ops[..|ops|-1], ops[|ops|-1];
      WitnesslessRefreshesVanish(env, cfg, evidence, restored, p);
      if Witnessless(last) {
        NoWitnessNoChange(env, cfg, Exec(env, cfg, evidence, restored, p), last);
        assert Heeded(p) + [] == Heeded(p);
      } else {
        assert (Heeded(p) + [last])[..|Heeded(p)|] == Heeded(p);
      }
    }
  }

  // ---------------------------------------------------------------- scores

  predicate InRange(r: Runtime) { 0.0 <= r.rawScore <= 100.0 && 0.0 <= r.scoreEWMA <= 100.0 }

  predicate ScoreInRange(book: Book, key: string) { key in book.runtime ==> InRange(book.runtime[key]) }

  lemma RescoredInRange(env: Env, cfg: Config, r: Runtime, previous: Runtime, m: S.Metrics, now: int)
    requires InRange(previous)
    ensures InRange(Rescored(env, cfg, r, previous, m, now))
  {
    var recent := previous.metrics.bandwidthFresh && previous.lastSuccess.Some?
                  && now - previous.lastSuccess.value < cfg.bandwidth.refreshAfter;
    S.ScoreBounded(m, previous.scoreEWMA, previous.hasScore, env.log1p);
    S.ScoreBounded(S.WithBandwidth(m, previous.metrics.downloadMbps, recent), previous.scoreEWMA, previous.hasScore, env.log1p);
  }

  lemma NextRuntimeInRange(env: Env, cfg: Config, previous: Runtime, known: bool, key: string, probe: Option<Probe>, now: int)
    requires InRange(previous)
    ensures InRange(NextRuntime(env, cfg, previous, known, key, probe, now))
  {
    forall r: Runtime, m: S.Metrics ensures InRange(Rescored(env, cfg, r, previous, m, now)) {
      RescoredInRange(env, cfg, r, previous, m, now);
    }
  }

  lemma {:induction false} UpdateAllInRange(env: Env, cfg: Config, book: Book, targets: seq<Target>, now: int, key: string)
    requires ScoreInRange(book, key)
    ensures ScoreInRange(UpdateAll(env, cfg, book, targets, now), key)
  {
    if targets != [] {
      var p, last := targets[..|targets|-1], targets[|targets|-1];
      UpdateAllInRange(env, cfg, book, p, now, key);
      var mid, at := UpdateAll(env, cfg, book, p, now), env.identity(last.record);
      if at == key {
        NextRuntimeInRange(env, cfg, Previous(mid, key), key in mid.runtime, key, last.probe, now);
      } else {
        UpdateOneElsewhere(env, cfg, mid, at, last.probe, now, key);
      }
    }
  }

  lemma {:induction false} MeasuredInRange(env: Env, book: Book, chosen: seq<Runtime>, mbps: map<string, real>, now: int, key: string)
    requires ScoreInRange(book, key)
    ensures ScoreInRange(Measured(env, book, chosen, mbps, now), key)
  {
    if chosen != [] {
      MeasuredInRange(env, book, chosen[..|chosen|-1], mbps, now, key);
      var mid := Measured(env, book, chosen[..|chosen|-1], mbps, now);
      if key in mid.runtime && key in mbps {
        var r := mid.runtime[key];
        S.ScoreBounded(S.WithBandwidth(r.metrics, mbps[key], true), r.scoreEWMA, true, env.log1p);
      }
    }
  }

  lemma {:induction false} MarkedInRange(book: Book, chosen: seq<Runtime>, now: int, key: string)
    requires ScoreInRange(book, key)
    ensures ScoreInRange(Marked(book, chosen, now), key)
  {
    if chosen != [] { MarkedInRange(book, chosen[..|chosen|-1], now, key); }
  }

  lemma {:induction false} ObservedInRange(env: Env, book: Book, records: seq<Record>, seen: nat -> C.Observation, now: int, key: string)
    requires ScoreInRange(book, key)
    ensures ScoreInRange(Observed(env, book, records, seen, now).0, key)
  {
    if records != [] { ObservedInRange(env, book, records[..|records|-1], seen, now, key); }
  }

  /** Over every run, whatever was measured, raw and smoothed scores stay within 0 and 100. */
  lemma {:induction false} ScoresStayInRange(env: Env, cfg: Config, evidence: map<string, C.RouteCountries>, restored: Option<CachedData>, ops: seq<Op>, key: string)
    ensures ScoreInRange(Exec(env, cfg, evidence, restored, ops).book, key)
  {
    if ops != [] {
      var p, last := ops[..|ops|-1], ops[|ops|-1];
      ScoresStayInRange(env, cfg, evidence, restored, p, key);
      var s := Exec(env, cfg, evidence, restored, p);
      match last
      case Refresh(input) =>
        if Proceeds(input) {
          var book := UpdateAll(env, cfg, s.book, input.targets, input.now);
          UpdateAllInRange(env, cfg, s.book, input.targets, input.now, key);
          if cfg.bandwidthEnabled {
            var chosen := Candidates(env, cfg, book, input);
            MeasuredInRange(env, book, chosen, Downloads(env, input), input.now, key);
            MarkedInRange(Measured(env, book, chosen, Downloads(env, input), input.now), chosen, input.now, key);
          }
        }
      case Reprobe(started, seen, at, _) =>
        if s.cache.Some? && started {
          ObservedInRange(env, s.book, ReprobeCandidates(s.cache.value.entries), seen, at, key);
        }
      case Enrich(_) =>
    }
  }

  // ---------------------------------------------------------------- country histories

  /** What one list of targets showed of one proxy's countries. */
  function SightingsIn(env: Env, targets: seq<Target>, key: string, now: int): seq<C.Seen> {
    if targets == [] then []
    else
      var last := targets[|targets|-1];
      SightingsIn(env, targets[..|targets|-1], key, now)
      + if env.identity(last.record) == key && last.probe.Some?
        then [C.Seen(false, last.probe.value.directCountry, now), C.Seen(true, last.probe.value.warpCountry, now)] else []
  }

  function ReprobeSightings(env: Env, records: seq<Record>, seen: nat -> C.Observation, now: int, key: string): seq<C.Seen> {
    if records == [] then []
    else
      var n := |records| - 1;
      ReprobeSightings(env, records[..n], seen, now, key)
      + if env.identity(records[n]) == key then [C.Seen(true, seen(n), now)] else []
  }

  /** The country observations of one proxy that reach the store in one step. */
  function StepSightings(env: Env, s: Service, op: Op, key: string): seq<C.Seen> {
    match op
    case Refresh(input) => if Proceeds(input) then SightingsIn(env, input.targets, key, input.now) else []
    case Reprobe(started, seen, at, _) =>
      if s.cache.Some? && started && key in s.book.runtime
      then ReprobeSightings(env, ReprobeCandidates(s.cache.value.entries), seen, at, key) else []
    case Enrich(_) => []
  }

  /** The country observations of one proxy over a run. */
  function Sightings(env: Env, cfg: Config, evidence: map<string, C.RouteCountries>, restored: Option<CachedData>, ops: seq<Op>, key: string): seq<C.Seen>
  {
    if ops == [] then []
    else
      var p := ops[..|ops|-1];
      Sightings(env, cfg, evidence, restored, p, key) + StepSightings(env, Exec(env, cfg, evidence, restored, p), ops[|ops|-1], key)
  }

  /** What was stored about a proxy before the run. */
  function Stored(evidence: map<string, C.RouteCountries>, key: string): C.RouteCountries {
    if key in evidence then evidence[key] else C.NO_ROUTE
  }

  /** The store and the evidence agree on a proxy that was probed, and both hold what was
      stored before and the whole history since. */
  ghost predicate Located(book: Book, key: string, start: C.RouteCountries, h: seq<C.Seen>) {
    && (key in book.runtime ==> key in book.evidence && book.runtime[key].countries == book.evidence[key] == C.RouteFrom(start, h))
    && (key !in book.runtime ==> h == [] && Stored(book.evidence, key) == start)
  }

  lemma RouteSnoc(start: C.RouteCountries, h: seq<C.Seen>, x: C.Seen)
    ensures C.RouteFrom(start, h + [x]) == C.Apply(C.RouteFrom(start, h), x.warp, x.what, x.at)
  {
    assert (h + [x])[..|h|] == h;
  }

  lemma NextRuntimeCountries(env: Env, cfg: Config, previous: Runtime, known: bool, key: string, probe: Option<Probe>, now: int)
    ensures NextRuntime(env, cfg, previous, known, key, probe, now).countries
            == if probe.None? then previous.countries
               else C.Apply(C.Apply(previous.countries, false, probe.value.directCountry, now), true, probe.value.warpCountry, now)
  {}

  lemma UpdateOneLocates(env: Env, cfg: Config, book: Book, key: string, probe: Option<Probe>, now: int, start: C.RouteCountries, h: seq<C.Seen>)
    requires Located(book, key, start, h)
    ensures Located(UpdateOne(env, cfg, book, key, probe, now), key, start,
                    h + if probe.Some? then [C.Seen(false, probe.value.directCountry, now), C.Seen(true, probe.value.warpCountry, now)] else [])
  {
    NextRuntimeCountries(env, cfg, Previous(book, key), key in book.runtime, key, probe, now);
    if probe.Some? {
      var direct, warp := C.Seen(false, probe.value.directCountry, now), C.Seen(true, probe.value.warpCountry, now);
      RouteSnoc(start, h, direct);
      RouteSnoc(start, h + [direct], warp);
      assert h + [direct, warp] == h + [direct] + [warp];
    } else {
      assert h + [] == h;
    }
  }

  lemma {:induction false} UpdateAllLocates(env: Env, cfg: Config, book: Book, targets: seq<Target>, now: int, key: string, start: C.RouteCountries, h: seq<C.Seen>)
    requires Located(book, key, start, h)
    ensures Located(UpdateAll(env, cfg, book, targets, now), key, start, h + SightingsIn(env, targets, key, now))
  {
    if targets == [] {
      assert h + [] == h;
    } else {
      var p, last := targets[..|targets|-1], targets[|targets|-1];
      UpdateAllLocates(env, cfg, book, p, now, key, start, h);
      var before, mid := UpdateAll(env, cfg, book, p, now), h + SightingsIn(env, p, key, now);
      if env.identity(last.record) == key {
        UpdateOneLocates(env, cfg, before, key, last.probe, now, start, mid);
        if last.probe.Some? {
          var both := [C.Seen(false, last.probe.value.directCountry, now), C.Seen(true, last.probe.value.warpCountry, now)];
          assert h + SightingsIn(env, targets, key, now) == mid + both;
        } else {
          assert h + SightingsIn(env, targets, key, now) == mid == mid + [];
        }
      } else {
        UpdateOneElsewhere(env, cfg, before, env.identity(last.record), last.probe, now, key);
        assert h + SightingsIn(env, targets, key, now) == mid;
      }
    }
  }

  lemma {:induction false} ObservedLocates(env: Env, book: Book, records: seq<Record>, seen: nat -> C.Observation, now: int, key: string, start: C.RouteCountries, h: seq<C.Seen>)
    requires Located(book, key, start, h)
    ensures var after := Observed(env, book, records, seen, now).0;
            && after.runtime.Keys == book.runtime.Keys
            && Located(after, key, start, h + if key in book.runtime then ReprobeSightings(env, records, seen, now, key) else [])
  {
    if records == [] {
      assert h + [] == h;
    } else {
      var n := |records| - 1;
      ObservedLocates(env, book, records[..n], seen, now, key, start, h);
      if key in book.runtime {
        var mid := h + ReprobeSightings(env, records[..n], seen, now, key);
        if env.identity(records[n]) == key {
          RouteSnoc(start, mid, C.Seen(true, seen(n), now));
          assert h + ReprobeSightings(env, records, seen, now, key) == mid + [C.Seen(true, seen(n), now)];
        } else {
          assert h + ReprobeSightings(env, records, seen, now, key) == mid;
        }
      }
    }
  }

  lemma RefreshLocates(env: Env, cfg: Config, book: Book, input: Input, key: string, start: C.RouteCountries, h: seq<C.Seen>)
    requires Located(book, key, start, h)
    ensures Located(BookAfter(env, cfg, book, input), key, start, h + SightingsIn(env, input.targets, key, input.now))
  {
    UpdateAllLocates(env, cfg, book, input.targets, input.now, key, start, h);
    StageKeeps(env, cfg, UpdateAll(env, cfg, book, input.targets, input.now), input);
  }

  /** Over every run, what the store and the evidence hold of a proxy's countries is what
      was stored before the run and the hysteresis machine over its sightings since. */
  lemma {:induction false} CountriesAreHistory(env: Env, cfg: Config, evidence: map<string, C.RouteCountries>, restored: Option<CachedData>,
                                               ops: seq<Op>, key: string)
    ensures Located(Exec(env, cfg, evidence, restored, ops).book, key, Stored(evidence, key), Sightings(env, cfg, evidence, restored, ops, key))
  {
    if ops != [] {
      var p, last, start := ops[..|ops|-1], ops[|ops|-1], Stored(evidence, key);
      CountriesAreHistory(env, cfg, evidence, restored, p, key);
      var s, h := Exec(env, cfg, evidence, restored, p), Sightings(env, cfg, evidence, restored, p, key);
      assert h + [] == h;
      match last
      case Refresh(input) =>
        if Proceeds(input) { RefreshLocates(env, cfg, s.book, input, key, start, h); }
      case Reprobe(started, seen, at, _) =>
        if s.cache.Some? && started {
          ObservedLocates(env, s.book, ReprobeCandidates(s.cache.value.entries), seen, at, key, start, h);
        }
      case Enrich(_) =>
    }
  }
}
