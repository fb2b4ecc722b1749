/** The service object: the methods that change the runtime store, the country evidence and
    the published snapshot (internal/pipeline/pipeline.go, internal/pipeline/enrichment.go),
    each proved to do what the step function of the same operation says. */
module PipelineService {
  import opened Common
  import opened Sorting
  import opened ProxyRuntime
  import opened Records
  import opened Snapshot
  import opened Pipeline
  import B = Bandwidth
  import C = Country
  import Q = Quality
  import R = Rotation
  import L = PipelineLaws
  import S = Scoring
  import P = Publication

  lemma Snoc<T>(s: seq<T>, i: nat)
    requires i < |s|
    ensures s[..i+1][..|s[..i+1]|-1] == s[..i] && s[..i+1][|s[..i+1]|-1] == s[i]
  {}

  lemma LiveItemsSnoc(env: Env, book: Book, targets: seq<Target>, i: nat)
    requires i < |targets|
    ensures var t := targets[i];
            var key := env.identity(t.record);
            LiveItems(env, book, targets[..i+1]) == LiveItems(env, book, targets[..i])
              + if key !in book.runtime || book.runtime[key].state.Dead? then []
                else [Item(t, book.runtime[key], if book.runtime[key].geo.Some? then book.runtime[key].geo else t.endpointGeo)]
  {
    Snoc(targets, i);
  }

  lemma GeoCountSnoc(items: seq<Item>, x: Item)
    ensures GeoCount(items + [x]) == GeoCount(items) + if x.geo.Some? then 1 else 0
  {
    assert (items + [x])[..|items|] == items;
  }

  lemma NamedSnoc(entries: seq<CachedEntry>, e: CachedEntry, warp: bool)
    ensures Named(entries + [e], warp)
            == Named(entries, warp) + if warp then (if e.warpHealthy then [e.warpEntry] else []) else if e.directHealthy then [e.entry] else []
  {
    assert (entries + [e])[..|entries|] == entries;
  }

  lemma RebuiltSelectionSnoc(env: Env, book: Book, entries: seq<CachedEntry>, i: nat, warp: bool)
    requires i < |entries|
    ensures var e := entries[i];
            RebuiltSelection(env, book, entries[..i+1], warp) == RebuiltSelection(env, book, entries[..i], warp)
              + if env.identity(e.entry.record) in book.runtime && Healthy(RebuiltEntry(env, book, e), warp) then [Shown(e, warp)] else []
  {
    Snoc(entries, i);
  }

  class Publisher {
    const env: Env
    const cfg: Config
    var runtime: map<string, Runtime>
    var evidence: map<string, C.RouteCountries>
    var cache: Option<CachedData>

    constructor (env: Env, cfg: Config, evidence: map<string, C.RouteCountries>, restored: Option<CachedData>)
      ensures this.env == env && this.cfg == cfg
      ensures State() == Service(Book(map[], evidence), restored) && Indexed()
    {
      this.env, this.cfg := env, cfg;
      this.runtime, this.evidence, this.cache := map[], evidence, restored;
    }

    function Store(): Book
      reads this
    {
      Book(runtime, evidence)
    }

    function State(): Service
      reads this
    {
      Service(Store(), cache)
    }

    /** Every runtime is stored under its own key. */
    ghost predicate Indexed()
      reads this
    {
      forall k :: k in runtime ==> runtime[k].key == k
    }

    // -------------------------------------------------------------- one proxy

    static method Observe(probe: Option<Probe>) returns (metrics: S.Metrics, warpHealthy: bool, observation: Q.Observation)
      ensures metrics == if probe.Some? then probe.value.metrics else S.NO_METRICS
      ensures warpHealthy <==> probe.Some? && probe.value.warpCountry.Valid()
      ensures observation == ObservationOf(probe)
    {
      metrics := S.NO_METRICS;
      if probe.Some? { metrics := probe.value.metrics; }
      warpHealthy := probe.Some? && probe.value.warpCountry.Valid();
      observation := Q.Blackhole;
      if metrics.successCount * 5 >= metrics.sampleCount * 4 && metrics.sampleCount > 0 {
        observation := Q.Good;
      } else if metrics.internetReachable || warpHealthy {
        observation := Q.Partial;
      }
    }

    method Rescore(r: Runtime, previous: Runtime, metrics: S.Metrics, now: int) returns (next: Runtime)
      ensures next == Rescored(env, cfg, r, previous, metrics, now)
    {
      var m := metrics;
      if previous.metrics.bandwidthMeasured {
        var recent := previous.metrics.bandwidthFresh && previous.lastSuccess.Some?
                      && now - previous.lastSuccess.value < cfg.bandwidth.refreshAfter;
        m := m.(downloadMbps := previous.metrics.downloadMbps, bandwidthMeasured := true, bandwidthFresh := recent);
      }
      var (raw, ewma) := S.Score(m, previous.scoreEWMA, previous.hasScore, S.ALPHA, env.log1p);
      next := r.(metrics := m, rawScore := raw, scoreEWMA := ewma, hasScore := true, lastReachable := Some(now));
    }

    method UpdateRuntime(key: string, probe: Option<Probe>, now: int)
      modifies this
      ensures cache == old(cache)
      ensures Store() == UpdateOne(env, cfg, old(Store()), key, probe, now)
    {
      var known := key in runtime;
      var previous := if known then runtime[key] else NO_RUNTIME;
      if !known && key in evidence {
        previous := previous.(countries := evidence[key]);
      }
      var metrics, warpHealthy, observation := Observe(probe);
      var state := previous.stateData;
      if !known { state := state.(state := Q.Healthy); }
      state := Q.Transition(state, observation, now, DEAD_COOLDOWN);
      var r := previous.(key := key, state := state.state, stateData := state,
                         directHealthy := metrics.internetReachable, warpHealthy := warpHealthy,
                         reachable := metrics.internetReachable || warpHealthy);
      assert metrics == MetricsOf(probe) && r == Judged(previous, known, key, probe, now);
      if metrics.internetReachable { r := Rescore(r, previous, metrics, now); }
      if probe.Some? {
        if probe.value.geo.Some? { r := r.(geo := probe.value.geo); }
        if probe.value.warpGeo.Some? { r := r.(warpGeo := probe.value.warpGeo); }
        var countries := C.Apply(r.countries, false, probe.value.directCountry, now);
        r := r.(countries := C.Apply(countries, true, probe.value.warpCountry, now));
      }
      assert r == NextRuntime(env, cfg, previous, known, key, probe, now);
      runtime := runtime[key := r];
      evidence := evidence[key := r.countries];
    }

    method UpdateBandwidth(key: string, mbps: real, now: int)
      modifies this`runtime
      ensures runtime == if key in old(runtime) then old(runtime)[key := WithBandwidth(env, old(runtime)[key], mbps, now)] else old(runtime)
    {
      if key !in runtime { return; }
      var r := runtime[key];
      r := r.(metrics := r.metrics.(downloadMbps := mbps, bandwidthMeasured := true, bandwidthFresh := true));
      r := r.(lastSuccess := Some(now));
      if r.hasScore {
        var (raw, ewma) := S.Score(r.metrics, r.scoreEWMA, true, S.ALPHA, env.log1p);
        r := r.(rawScore := raw, scoreEWMA := ewma);
      }
      runtime := runtime[key := r];
    }

    method MarkBandwidthAttempt(key: string, now: int)
      modifies this`runtime
      ensures runtime == if key in old(runtime) then old(runtime)[key := old(runtime)[key].(lastAttempt := Some(now))] else old(runtime)
    {
      if key !in runtime { return; }
      runtime := runtime[key := runtime[key].(lastAttempt := Some(now))];
    }

    /** The active part of the store, in whatever order the map is read. */
    method ActiveRuntime(active: set<string>) returns (current: seq<Runtime>)
      requires Indexed()
      ensures B.DistinctKeys(current)
      ensures forall x :: x in current <==> x.key in active && x.key in runtime && x == runtime[x.key]
    {
      current := [];
      var left := runtime.Keys;
      while left != {}
        invariant left <= runtime.Keys
        invariant B.DistinctKeys(current)
        invariant forall x :: x in current <==> x.key in active && x.key in runtime && x.key !in left && x == runtime[x.key]
      {
        var key :| key in left;
        if key in active {
          forall i | 0 <= i < |current| ensures current[i].key != key { assert current[i] in current; }
          current := current + [runtime[key]];
        }
        left := left - {key};
      }
    }

    // -------------------------------------------------------------- output

    method OutputEntries(targets: seq<Target>) returns (items: seq<Item>, geoAvailable: nat)
      ensures items == Ordered(LiveItems(env, Store(), targets))
      ensures geoAvailable == GeoCount(LiveItems(env, Store(), targets))
    {
      items := [];
      geoAvailable := 0;
      for i := 0 to |targets|
        invariant items == LiveItems(env, Store(), targets[..i])
        invariant geoAvailable == GeoCount(items)
      {
        var t := targets[i];
        var key := env.identity(t.record);
        LiveItemsSnoc(env, Store(), targets, i);
        if key !in runtime || runtime[key].state.Dead? {
          continue;
        }
        var info := runtime[key].geo;
        if info.None? { info := t.endpointGeo; }
        if info.Some? { geoAvailable := geoAvailable + 1; }
        GeoCountSnoc(items, Item(t, runtime[key], info));
        items := items + [Item(t, runtime[key], info)];
      }
      assert targets[..|targets|] == targets;
      items := StableSort(Better, items);
    }

    static method HasReachabilityWitness(targets: seq<Target>) returns (found: bool)
      ensures found == Witnessed(targets)
    {
      for i := 0 to |targets|
        invariant forall j :: 0 <= j < i ==> !Reached(targets[j].probe)
      {
        var probe := targets[i].probe;
        if probe.Some? && (probe.value.metrics.internetReachable || probe.value.warpCountry.Valid()) {
          assert Reached(targets[i].probe);
          return true;
        }
      }
      return false;
    }

    // -------------------------------------------------------------- refresh

    method ActiveIndices(targets: seq<Target>) returns (active: map<string, nat>)
      ensures active == Indices(env, targets)
    {
      active := map[];
      for i := 0 to |targets|
        invariant active == Indices(env, targets[..i])
      {
        Snoc(targets, i);
        active := active[env.identity(targets[i].record) := i];
      }
      assert targets[..|targets|] == targets;
    }

    /** The part of a refresh that measures bandwidth. */
    method MeasureBandwidth(input: Input)
      requires Indexed() && cfg.bandwidthEnabled
      requires forall t :: t in input.targets ==> env.identity(t.record) in runtime
      modifies this`runtime
      ensures Store() == BandwidthStage(env, cfg, old(Store()), input)
    {
      ghost var book := Store();
      var active := ActiveIndices(input.targets);
      IndicesAre(env, input.targets);
      var current := ActiveRuntime(active.Keys);
      var chosen := B.SelectBandwidthCandidates(current, input.now, cfg.bandwidth);
      SameChoice(env, cfg, book, input, active.Keys, current);
      ChosenAreActive(current, input.now, cfg.bandwidth, active.Keys);
      var keys := ProbedKeys(chosen, active);
      StoreMeasurements(chosen, active, keys, input.downloads, Downloads(env, input), input.now);
      MarkAttempts(chosen, active, keys, input.now);
    }

    /** The probed positions and the keys they stand for. */
    method ProbedKeys(chosen: seq<Runtime>, active: map<string, nat>) returns (keys: map<nat, string>)
      requires forall x :: x in chosen ==> x.key in active
      requires forall k, l :: k in active && l in active && active[k] == active[l] ==> k == l
      ensures ProbedAt(chosen, active, keys)
    {
      keys := map[];
      for i := 0 to |chosen|
        invariant ProbedAt(chosen[..i], active, keys)
      {
        var index := active[chosen[i].key];
        assert chosen[..i+1] == chosen[..i] + [chosen[i]];
        keys := keys[index := chosen[i].key];
      }
      assert chosen[..|chosen|] == chosen;
    }

    /** Stores the measured downloads in whatever order their map is read. */
    method StoreMeasurements(chosen: seq<Runtime>, active: map<string, nat>, keys: map<nat, string>, downloads: map<nat, real>,
                             ghost mbps: map<string, real>, now: int)
      requires B.DistinctKeys(chosen) && ProbedAt(chosen, active, keys)
      requires forall k :: k in active ==> (k in mbps <==> active[k] in downloads)
      requires forall k :: k in mbps ==> k in active && active[k] in downloads && mbps[k] == downloads[active[k]]
      modifies this`runtime
      ensures Store() == Measured(env, old(Store()), chosen, mbps, now)
    {
      ghost var book, done: set<string> := Store(), {};
      var left := keys.Keys * downloads.Keys;
      while left != {}
        invariant left <= keys.Keys * downloads.Keys
        invariant forall k :: k in done <==> k in keys.Values && k in mbps && active[k] !in left
        invariant StoredBut(env, book.runtime, runtime, done, mbps, now)
      {
        var index :| index in left;
        ghost var key := keys[index];
        StoredStep(env, book.runtime, runtime, done, mbps, now, key);
        UpdateBandwidth(keys[index], downloads[index], now);
        ProbedOnce(chosen, active, keys, index);
        left := left - {index};
        done := done + {key};
      }
      StoredAll(env, book, runtime, chosen, active, keys, mbps, done, now);
    }

    /** Stamps the attempts in whatever order their map is read. */
    method MarkAttempts(chosen: seq<Runtime>, active: map<string, nat>, keys: map<nat, string>, now: int)
      requires ProbedAt(chosen, active, keys)
      modifies this`runtime
      ensures Store() == Marked(old(Store()), chosen, now)
    {
      ghost var book := Store();
      var left := keys.Keys;
      while left != {}
        invariant left <= keys.Keys
        invariant MarkedBut(book.runtime, runtime, keys, left, now)
      {
        var index :| index in left;
        MarkedStep(book.runtime, runtime, keys, left, now, index);
        MarkBandwidthAttempt(keys[index], now);
        left := left - {index};
      }
      L.MarkedKeeps(book, chosen, now);
      DoneAll(keys);
      forall k | k in runtime ensures runtime[k] == Marked(book, chosen, now).runtime[k] {
        MarkedAt(book, chosen, now, k);
        ProbedKey(chosen, active, keys, k);
      }
      assert runtime == Marked(book, chosen, now).runtime;
    }

    /** The cached entries, and those healthy directly and through WARP. */
    method CacheEntries(items: seq<Item>) returns (entries: seq<CachedEntry>, direct: seq<RenamedEntry>, warp: seq<RenamedEntry>)
      ensures entries == Entries(env, Store(), items)
      ensures direct == Named(entries, false) && warp == Named(entries, true)
    {
      var renamed, warpRenamed := RenameAll(env, Routes(items, false)), RenameAll(env, Routes(items, true));
      ghost var all := Entries(env, Store(), items);
      entries, direct, warp := [], [], [];
      for i := 0 to |renamed|
        invariant entries == all[..i]
        invariant direct == Named(entries, false) && warp == Named(entries, true)
      {
        var key := env.identity(items[i].target.record);
        var r := if key in runtime then runtime[key] else NO_RUNTIME;
        var e := CacheEntry(renamed[i], warpRenamed[i], items[i], r);
        NamedSnoc(entries, e, false);
        NamedSnoc(entries, e, true);
        entries := entries + [e];
        if r.directHealthy { direct := direct + [renamed[i]]; }
        if r.warpHealthy { warp := warp + [warpRenamed[i]]; }
      }
    }

    /** The live items become the published snapshot. */
    method Publish(input: Input, items: seq<Item>, geoAvailable: nat)
      requires items == Ordered(LiveItems(env, Store(), input.targets))
      requires geoAvailable == GeoCount(LiveItems(env, Store(), input.targets))
      modifies this`cache
      ensures cache == Some(Snapshotted(env, Store(), input))
    {
      var entries, direct, warp := CacheEntries(items);
      StoreSnapshot(input, entries, direct, warp, geoAvailable);
    }

    method StoreSnapshot(input: Input, entries: seq<CachedEntry>, direct: seq<RenamedEntry>, warp: seq<RenamedEntry>, geoAvailable: nat)
      modifies this`cache
      ensures cache == Some(SnapshotOf(env, input, entries, direct, warp, geoAvailable))
    {
      var meta := input.header.(alive := |entries|, dead := |input.targets| - |entries|,
                                geoAvailable := geoAvailable, geoTotal := |input.targets|);
      cache := Some(CachedData(FormatOutput(env, input.date, direct, meta.(alive := |direct|)),
                               FormatXrayJSON(env, warp, meta.(alive := |warp|)), entries, meta, input.now));
    }

    method UpdateRuntimes(targets: seq<Target>, now: int)
      requires Indexed()
      modifies this
      ensures cache == old(cache) && Indexed()
      ensures Store() == UpdateAll(env, cfg, old(Store()), targets, now)
      ensures forall t :: t in targets ==> env.identity(t.record) in runtime
    {
      for i := 0 to |targets|
        invariant Store() == UpdateAll(env, cfg, old(Store()), targets[..i], now)
        invariant cache == old(cache)
      {
        Snoc(targets, i);
        UpdateRuntime(env.identity(targets[i].record), targets[i].probe, now);
      }
      assert targets[..|targets|] == targets;
      R.UpdateAllNames(env, cfg, old(Store()), targets, now);
      P.UpdateAllKeys(env, cfg, old(Store()), targets, now);
    }

    /** The part of a refresh that writes the runtime store. */
    method Probe(input: Input)
      requires Indexed()
      modifies this
      ensures cache == old(cache) && Indexed()
      ensures Store() == BookAfter(env, cfg, old(Store()), input)
    {
      UpdateRuntimes(input.targets, input.now);
      L.StageKeeps(env, cfg, Store(), input);
      if cfg.bandwidthEnabled { MeasureBandwidth(input); }
    }

    method Refresh(input: Input) returns (published: bool)
      requires Indexed()
      modifies this
      ensures State() == Refreshed(env, cfg, old(State()), input) && Indexed()
      ensures published <==> Proceeds(input) && LiveItems(env, Store(), input.targets) != []
    {
      if !input.started { return false; }
      var witnessed := HasReachabilityWitness(input.targets);
      if !witnessed { return false; }
      Probe(input);
      var items, geoAvailable := OutputEntries(input.targets);
      if |items| == 0 { return false; }
      Publish(input, items, geoAvailable);
      return true;
    }

    // -------------------------------------------------------------- re-probe

    /** The entries with the countries and health of the store; entries without a runtime
        are kept as they are and left out of both lists. */
    method RebuildEntries(cached: seq<CachedEntry>) returns (entries: seq<CachedEntry>, direct: seq<RenamedEntry>, warp: seq<RenamedEntry>)
      ensures entries == RebuiltEntries(env, Store(), cached)
      ensures direct == RebuiltSelection(env, Store(), cached, false) && warp == RebuiltSelection(env, Store(), cached, true)
    {
      entries, direct, warp := cached, [], [];
      ghost var done := RebuiltEntries(env, Store(), cached);
      for i := 0 to |cached|
        invariant |entries| == |cached|
        invariant forall j :: 0 <= j < |cached| ==> entries[j] == if j < i then done[j] else cached[j]
        invariant direct == RebuiltSelection(env, Store(), cached[..i], false)
        invariant warp == RebuiltSelection(env, Store(), cached[..i], true)
      {
        RebuiltSelectionSnoc(env, Store(), cached, i, false);
        RebuiltSelectionSnoc(env, Store(), cached, i, true);
        var key := env.identity(entries[i].entry.record);
        if key !in runtime {
          continue;
        }
        var r := runtime[key];
        var e := entries[i].(countries := r.countries, directHealthy := r.directHealthy, warpHealthy := r.warpHealthy);
        entries := entries[i := e];
        if r.directHealthy { direct := direct + [e.entry]; }
        if r.warpHealthy {
          var entry := e.warpEntry;
          if entry.record.protocol == "" { entry := e.entry; }
          warp := warp + [entry];
        }
      }
      assert cached[..|cached|] == cached;
    }

    method RebuildCachedCountries(cached: CachedData, date: Date)
      modifies this`cache
      ensures cache == Some(Rebuilt(env, date, Store(), cached))
    {
      var entries, direct, warp := RebuildEntries(cached.entries);
      cache := Some(CachedData(FormatOutput(env, date, direct, cached.meta.(alive := |direct|)),
                               FormatXrayJSON(env, warp, cached.meta.(alive := |warp|)), entries, cached.meta, cached.lastRefresh));
    }

    static method SelectWarpReprobeCandidates(entries: seq<CachedEntry>) returns (records: seq<Record>)
      ensures records == ReprobeCandidates(entries)
    {
      records := [];
      for i := 0 to |entries|
        invariant records == ReprobeCandidates(entries[..i])
      {
        Snoc(entries, i);
        if entries[i].warpHealthy && C.NeedsWarpReprobe(entries[i].countries) {
          records := records + [entries[i].entry.record];
        }
      }
      assert entries[..|entries|] == entries;
    }

    method ReprobeWarpCountries(started: bool, seen: nat -> C.Observation, now: int, date: Date)
      requires Indexed()
      modifies this
      ensures State() == Reprobed(env, old(State()), started, seen, now, date) && Indexed()
    {
      if cache.None? { return; }
      var cached := cache.value;
      var candidates := SelectWarpReprobeCandidates(cached.entries);
      if |candidates| == 0 || !started { return; }
      var changed := false;
      for i := 0 to |candidates|
        invariant cache == old(cache)
        invariant (Store(), changed) == Observed(env, old(Store()), candidates[..i], seen, now)
        invariant Indexed()
      {
        Snoc(candidates, i);
        var key := env.identity(candidates[i]);
        if key !in runtime {
          continue;
        }
        var r := runtime[key];
        var previous := r.countries;
        r := r.(countries := C.Apply(r.countries, true, seen(i), now));
        if r.countries == previous {
          continue;
        }
        runtime := runtime[key := r];
        evidence := evidence[key := r.countries];
        changed := true;
      }
      assert candidates[..|candidates|] == candidates;
      if changed { RebuildCachedCountries(cached, date); }
    }

    // -------------------------------------------------------------- enrichment

    method RefreshCachedEnrichment(find: Finders)
      modifies this`cache
      ensures State() == Enriched(old(State()), find)
    {
      if cache.None? { return; }
      var cached := cache.value.entries;
      var entries := cached;
      ghost var done := EnrichedEntries(cached, find);
      for i := 0 to |entries|
        invariant |entries| == |cached|
        invariant forall j :: 0 <= j < |cached| ==> entries[j] == if j < i then done[j] else cached[j]
      {
        var e := entries[i];
        var direct := ExitAddress(e.countries.directV4, e.countries.directV6);
        var warp := ExitAddress(e.countries.warpV4, e.countries.warpV6);
        e := e.(direct := e.direct.(intel := find.intel(direct)), warp := e.warp.(intel := find.intel(warp)));
        e := e.(direct := e.direct.(ports := find.ports(direct)), warp := e.warp.(ports := find.ports(warp)));
        e := e.(direct := e.direct.(dnsbl := find.dnsbl(direct)), warp := e.warp.(dnsbl := find.dnsbl(warp)));
        entries := entries[i := e];
      }
      assert entries == done;
      cache := Some(cache.value.(entries := entries));
    }
  }

  /** The positions hold exactly the chosen keys, each at its active one. */
  ghost predicate ProbedAt(chosen: seq<Runtime>, active: map<string, nat>, keys: map<nat, string>) {
    && (forall x :: x in chosen ==> x.key in active && active[x.key] in keys && keys[active[x.key]] == x.key)
    && (forall index :: index in keys ==> keys[index] in R.KeysOf(chosen) && keys[index] in active && active[keys[index]] == index)
  }

  lemma {:induction false} MeasuredAt(env: Env, book: Book, chosen: seq<Runtime>, mbps: map<string, real>, now: int, key: string)
    requires B.DistinctKeys(chosen) && key in book.runtime
    ensures var after := Measured(env, book, chosen, mbps, now).runtime;
            && key in after
            && after[key] == if key in R.KeysOf(chosen) && key in mbps then WithBandwidth(env, book.runtime[key], mbps[key], now)
                             else book.runtime[key]
  {
    if chosen != [] {
      var p := chosen[..|chosen|-1];
      MeasuredAt(env, book, p, mbps, now, key);
      R.KeysOfInit(chosen);
      assert chosen[|chosen|-1].key !in R.KeysOf(p);
    }
  }

  /** The keys that a download was measured for, unless their position is left. */
  ghost predicate StoredBut(env: Env, before: map<string, Runtime>, after: map<string, Runtime>, done: set<string>, mbps: map<string, real>, now: int)
  {
    && before.Keys == after.Keys
    && forall k :: k in before ==> after[k] == if k in done && k in mbps then WithBandwidth(env, before[k], mbps[k], now) else before[k]
  }

  lemma StoredStep(env: Env, before: map<string, Runtime>, after: map<string, Runtime>, done: set<string>, mbps: map<string, real>, now: int, key: string)
    requires key !in done && key in mbps && StoredBut(env, before, after, done, mbps, now)
    ensures StoredBut(env, before, if key in after then after[key := WithBandwidth(env, after[key], mbps[key], now)] else after, done + {key}, mbps, now)
  {}

  /** A key is probed at a position exactly when it is chosen. */
  lemma ProbedKey(chosen: seq<Runtime>, active: map<string, nat>, keys: map<nat, string>, key: string)
    requires ProbedAt(chosen, active, keys)
    ensures key in keys.Values <==> key in R.KeysOf(chosen)
  {
    if key in keys.Values {
      var index :| index in keys && keys[index] == key;
    }
    if key in R.KeysOf(chosen) {
      assert keys[active[key]] == key && keys[active[key]] in keys.Values;
    }
  }

  lemma StoredAll(env: Env, book: Book, after: map<string, Runtime>, chosen: seq<Runtime>, active: map<string, nat>, keys: map<nat, string>,
                  mbps: map<string, real>, done: set<string>, now: int)
    requires B.DistinctKeys(chosen) && ProbedAt(chosen, active, keys)
    requires forall k :: k in done <==> k in keys.Values && k in mbps
    requires StoredBut(env, book.runtime, after, done, mbps, now)
    ensures Book(after, book.evidence) == Measured(env, book, chosen, mbps, now)
  {
    L.MeasuredKeeps(env, book, chosen, mbps, now);
    var measured := Measured(env, book, chosen, mbps, now).runtime;
    forall k | k in after ensures after[k] == measured[k] {
      MeasuredAt(env, book, chosen, mbps, now, k);
      ProbedKey(chosen, active, keys, k);
    }
    assert after == measured;
  }

  lemma ProbedOnce(chosen: seq<Runtime>, active: map<string, nat>, keys: map<nat, string>, index: nat)
    requires ProbedAt(chosen, active, keys) && index in keys
    ensures keys[index] in keys.Values && forall k :: k in keys.Values ==> k in active && (active[k] == index <==> k == keys[index])
  {}

  /** Every key of a position is stamped, unless the position is left. */
  ghost predicate MarkedBut(before: map<string, Runtime>, after: map<string, Runtime>, keys: map<nat, string>, left: set<nat>, now: int) {
    && before.Keys == after.Keys
    && forall k :: k in before ==>
         after[k] == if k in DoneKeys(keys, left) then before[k].(lastAttempt := Some(now)) else before[k]
  }

  ghost function DoneKeys(keys: map<nat, string>, left: set<nat>): set<string> {
    set index | index in keys && index !in left :: keys[index]
  }

  lemma DoneStep(keys: map<nat, string>, left: set<nat>, index: nat)
    requires index in left && left <= keys.Keys
    ensures DoneKeys(keys, left - {index}) == DoneKeys(keys, left) + {keys[index]}
  {}

  lemma MarkedStep(before: map<string, Runtime>, after: map<string, Runtime>, keys: map<nat, string>, left: set<nat>, now: int, index: nat)
    requires index in left && left <= keys.Keys && MarkedBut(before, after, keys, left, now)
    ensures var key := keys[index];
            MarkedBut(before, if key in after then after[key := after[key].(lastAttempt := Some(now))] else after, keys, left - {index}, now)
  {
    DoneStep(keys, left, index);
  }

  lemma DoneAll(keys: map<nat, string>)
    ensures DoneKeys(keys, {}) == keys.Values
  {}

  lemma {:induction false} MarkedAt(book: Book, chosen: seq<Runtime>, now: int, key: string)
    requires key in book.runtime
    ensures var after := Marked(book, chosen, now).runtime;
            && key in after
            && after[key] == if key in R.KeysOf(chosen) then book.runtime[key].(lastAttempt := Some(now)) else book.runtime[key]
  {
    if chosen != [] {
      MarkedAt(book, chosen[..|chosen|-1], now, key);
      R.KeysOfInit(chosen);
    }
  }

  lemma {:induction false} IndicesAre(env: Env, targets: seq<Target>)
    ensures forall k :: k in Indices(env, targets) <==> exists j :: 0 <= j < |targets| && env.identity(targets[j].record) == k
    ensures forall k :: k in Indices(env, targets) ==>
              Indices(env, targets)[k] < |targets| && env.identity(targets[Indices(env, targets)[k]].record) == k
  {
    if targets != [] {
      var n := |targets| - 1;
      IndicesAre(env, targets[..n]);
      forall k ensures k in Indices(env, targets) <==> exists j :: 0 <= j < |targets| && env.identity(targets[j].record) == k {
        if env.identity(targets[n].record) != k {
          assert forall j :: 0 <= j < n ==> targets[..n][j] == targets[j];
        }
      }
    }
  }

  lemma ChosenAreActive(current: seq<Runtime>, now: int, cfg: B.Config, active: set<string>)
    requires B.DistinctKeys(current) && forall x :: x in current ==> x.key in active
    ensures B.DistinctKeys(B.Selected(current, now, cfg)) && forall x :: x in B.Selected(current, now, cfg) ==> x.key in active
  {
    B.SelectedDistinct(current, now, cfg);
    B.SelectionIsLeastPrefix(current, now, cfg);
  }

  /** The choice does not depend on how the store lists the active proxies. */
  lemma SameChoice(env: Env, cfg: Config, book: Book, input: Input, active: set<string>, current: seq<Runtime>)
    requires B.DistinctKeys(current)
    requires forall k :: k in book.runtime ==> book.runtime[k].key == k
    requires forall t :: t in input.targets ==> env.identity(t.record) in book.runtime
    requires forall k :: k in active <==> exists j :: 0 <= j < |input.targets| && env.identity(input.targets[j].record) == k
    requires forall x :: x in current <==> x.key in active && x.key in book.runtime && x == book.runtime[x.key]
    ensures B.Selected(current, input.now, cfg.bandwidth) == Candidates(env, cfg, book, input)
  {
    var keys := Keys(env, input.targets);
    R.KeysAre(env, input.targets);
    assert R.Recorded(book, keys);
    R.ActiveDistinct(book, keys);
    var listed := Active(book, keys);
    forall x ensures multiset(current)[x] == multiset(listed)[x] {
      R.ActiveMembers(book, keys, x);
      if x.key in keys {
        var t :| t in input.targets && env.identity(t.record) == x.key;
        var j :| 0 <= j < |input.targets| && input.targets[j] == t;
        assert env.identity(input.targets[j].record) == x.key;
      }
      OnceInNoRepeat(current, x);
      OnceInNoRepeat(listed, x);
      assert x in current <==> x in multiset(current);
      assert x in listed <==> x in multiset(listed);
    }
    assert multiset(current) == multiset(listed);
    B.SelectionOrderIndependent(current, listed, input.now, cfg.bandwidth);
  }
}
