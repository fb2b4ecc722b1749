/** The refresh pipeline over the runtime store and the published snapshot
    (internal/pipeline/pipeline.go, internal/pipeline/enrichment.go). Probe results, fetch
    counters and times are inputs of a step; every step that writes runs alone, under the
    refresh lock. */
module Pipeline {
  import opened Common
  import opened Sorting
  import opened ProxyRuntime
  import opened Records
  import opened Snapshot
  import B = Bandwidth
  import C = Country
  import Q = Quality
  import S = Scoring

  datatype Config = Config(bandwidth: B.Config, bandwidthEnabled: bool)

  /** 30 minutes in nanoseconds. */
  const DEAD_COOLDOWN := 1_800_000_000_000

  datatype Probe = Probe(
    metrics: S.Metrics, directCountry: C.Observation, warpCountry: C.Observation,
    geo: Option<Geo>, warpGeo: Option<Geo>)

  /** What a refresh found out about one route besides its probe. */
  datatype Found = Found(direct: Findings, warp: Findings, services: string, warpServices: string)

  /** One resolved record of a refresh; `probe` is None for Go's nil. */
  datatype Target = Target(record: Record, probe: Option<Probe>, endpointGeo: Option<Geo>, lan: bool, found: Found)

  /** Everything a refresh takes from outside: whether the prober came up, the speed of the
      downloads that succeed if they are attempted, by position, and the header counters. */
  datatype Input = Input(
    now: int, date: Date, targets: seq<Target>, started: bool, downloads: map<nat, real>, header: Meta)

  /** The runtime store, which never deletes, and the country evidence. */
  datatype Book = Book(runtime: map<string, Runtime>, evidence: map<string, C.RouteCountries>)

  datatype Service = Service(book: Book, cache: Option<CachedData>)

  // ---------------------------------------------------------------- one probe result

  predicate Reached(probe: Option<Probe>) {
    probe.Some? && (probe.value.metrics.internetReachable || probe.value.warpCountry.Valid())
  }

  function ObservationOf(probe: Option<Probe>): Q.Observation {
    var m := if probe.Some? then probe.value.metrics else S.NO_METRICS;
    if m.successCount * 5 >= m.sampleCount * 4 && m.sampleCount > 0 then Q.Good
    else if Reached(probe) then Q.Partial
    else Q.Blackhole
  }

  function Previous(book: Book, key: string): Runtime {
    if key in book.runtime then book.runtime[key]
    else if key in book.evidence then NO_RUNTIME.(countries := book.evidence[key])
    else NO_RUNTIME
  }

  function MetricsOf(probe: Option<Probe>): S.Metrics { if probe.Some? then probe.value.metrics else S.NO_METRICS }

  /** State and health flags after a probe. */
  function Judged(previous: Runtime, known: bool, key: string, probe: Option<Probe>, now: int): Runtime {
    var direct, warp := MetricsOf(probe).internetReachable, probe.Some? && probe.value.warpCountry.Valid();
    var before := if known then previous.stateData else previous.stateData.(state := Q.Healthy);
    var after := Q.Transition(before, ObservationOf(probe), now, DEAD_COOLDOWN);
    previous.(key := key, state := after.state, stateData := after, directHealthy := direct, warpHealthy := warp, reachable := direct || warp)
  }

  /** Locations and countries after a probe. */
  function Sighted(r: Runtime, probe: Option<Probe>, now: int): Runtime {
    if probe.None? then r
    else
      r.(geo := if probe.value.geo.Some? then probe.value.geo else r.geo,
         warpGeo := if probe.value.warpGeo.Some? then probe.value.warpGeo else r.warpGeo,
         countries := C.Apply(C.Apply(r.countries, false, probe.value.directCountry, now), true, probe.value.warpCountry, now))
  }

  /** The runtime after a probe: state machine, health flags, score, geography, countries. */
  function NextRuntime(env: Env, cfg: Config, previous: Runtime, known: bool, key: string, probe: Option<Probe>, now: int): Runtime
  {
    var m, r := MetricsOf(probe), Judged(previous, known, key, probe, now);
    Sighted(if m.internetReachable then Rescored(env, cfg, r, previous, m, now) else r, probe, now)
  }

  function Rescored(env: Env, cfg: Config, r: Runtime, previous: Runtime, m: S.Metrics, now: int): Runtime
  {
    var recent := previous.metrics.bandwidthFresh && previous.lastSuccess.Some?
                  && now - previous.lastSuccess.value < cfg.bandwidth.refreshAfter;
    var m := if previous.metrics.bandwidthMeasured then S.WithBandwidth(m, previous.metrics.downloadMbps, recent) else m;
    var (raw, ewma) := S.Score(m, previous.scoreEWMA, previous.hasScore, S.ALPHA, env.log1p);
    r.(metrics := m, rawScore := raw, scoreEWMA := ewma, hasScore := true, lastReachable := Some(now))
  }

  function UpdateOne(env: Env, cfg: Config, book: Book, key: string, probe: Option<Probe>, now: int): Book
  {
    var r := NextRuntime(env, cfg, Previous(book, key), key in book.runtime, key, probe, now);
    Book(book.runtime[key := r], book.evidence[key := r.countries])
  }

  function UpdateAll(env: Env, cfg: Config, book: Book, targets: seq<Target>, now: int): Book
  {
    if targets == [] then book
    else
      var last := targets[|targets|-1];
      UpdateOne(env, cfg, UpdateAll(env, cfg, book, targets[..|targets|-1], now), env.identity(last.record), last.probe, now)
  }

  // ---------------------------------------------------------------- bandwidth stage

  /** The identities of a refresh, without repetition. */
  function Keys(env: Env, targets: seq<Target>): seq<string> {
    if targets == [] then []
    else
      var keys := Keys(env, targets[..|targets|-1]);
      var key := env.identity(targets[|targets|-1].record);
      if key in keys then keys else keys + [key]
  }

  function Active(book: Book, keys: seq<string>): seq<Runtime> {
    if keys == [] then []
    else
      var key := keys[|keys|-1];
      Active(book, keys[..|keys|-1]) + if key in book.runtime then [book.runtime[key]] else []
  }

  /** The position at which an identity is probed: its last one. */
  function Indices(env: Env, targets: seq<Target>): map<string, nat> {
    if targets == [] then map[]
    else
      var n := |targets| - 1;
      Indices(env, targets[..n])[env.identity(targets[n].record) := n]
  }

  /** The downloads by identity. */
  function Downloads(env: Env, input: Input): map<string, real> {
    var active := Indices(env, input.targets);
    map k | k in active && active[k] in input.downloads :: input.downloads[active[k]]
  }

  function WithBandwidth(env: Env, r: Runtime, mbps: real, now: int): Runtime
  {
    var r := r.(metrics := S.WithBandwidth(r.metrics, mbps, true), lastSuccess := Some(now));
    if r.hasScore then
      var (raw, ewma) := S.Score(r.metrics, r.scoreEWMA, true, S.ALPHA, env.log1p);
      r.(rawScore := raw, scoreEWMA := ewma)
    else r
  }

  function Measured(env: Env, book: Book, chosen: seq<Runtime>, mbps: map<string, real>, now: int): Book
  {
    if chosen == [] then book
    else
      var book := Measured(env, book, chosen[..|chosen|-1], mbps, now);
      var key := chosen[|chosen|-1].key;
      if key in mbps && key in book.runtime then
        book.(runtime := book.runtime[key := WithBandwidth(env, book.runtime[key], mbps[key], now)])
      else book
  }

  function Marked(book: Book, chosen: seq<Runtime>, now: int): Book {
    if chosen == [] then book
    else
      var book := Marked(book, chosen[..|chosen|-1], now);
      var key := chosen[|chosen|-1].key;
      if key in book.runtime then book.(runtime := book.runtime[key := book.runtime[key].(lastAttempt := Some(now))])
      else book
  }

  function Candidates(env: Env, cfg: Config, book: Book, input: Input): seq<Runtime>
  {
    B.Selected(Active(book, Keys(env, input.targets)), input.now, cfg.bandwidth)
  }

  function BandwidthStage(env: Env, cfg: Config, book: Book, input: Input): Book
  {
    if !cfg.bandwidthEnabled then book
    else
      var chosen := Candidates(env, cfg, book, input);
      Marked(Measured(env, book, chosen, Downloads(env, input), input.now), chosen, input.now)
  }

  // ---------------------------------------------------------------- output

  datatype Item = Item(target: Target, runtime: Runtime, geo: Option<Geo>)

  /** The routes that are not DEAD, in input order. */
  function LiveItems(env: Env, book: Book, targets: seq<Target>): seq<Item> {
    if targets == [] then []
    else
      var t := targets[|targets|-1];
      var key := env.identity(t.record);
      LiveItems(env, book, targets[..|targets|-1])
      + if key !in book.runtime || book.runtime[key].state.Dead? then []
        else [Item(t, book.runtime[key], if book.runtime[key].geo.Some? then book.runtime[key].geo else t.endpointGeo)]
  }

  function GeoCount(items: seq<Item>): nat {
    if items == [] then 0 else GeoCount(items[..|items|-1]) + if items[|items|-1].geo.Some? then 1 else 0
  }

  function Rank(state: Q.State): nat {
    match state
    case Healthy => 0
    case Recovering => 1
    case Degraded => 2
    case _ => 3
  }

  predicate Better(a: Item, b: Item) {
    if Rank(a.runtime.state) != Rank(b.runtime.state) then Rank(a.runtime.state) < Rank(b.runtime.state)
    else a.runtime.scoreEWMA < b.runtime.scoreEWMA
  }

  function Ordered(items: seq<Item>): seq<Item> { StableSort(Better, items) }

  /** `RenameAll` keeps the records and names them from the whole list. */
  function RenameAll(env: Env, routes: seq<(Record, Option<Geo>, bool)>): (r: seq<RenamedEntry>)
    ensures |r| == |routes| && forall i :: 0 <= i < |r| ==> r[i].record == routes[i].0
  {
    seq(|routes|, i requires 0 <= i < |routes| => RenamedEntry(routes[i].0, env.naming(routes, i)))
  }

  function Routes(items: seq<Item>, warp: bool): (r: seq<(Record, Option<Geo>, bool)>)
    ensures |r| == |items|
  {
    seq(|items|, i requires 0 <= i < |items| =>
      (items[i].target.record, if warp then items[i].runtime.warpGeo else items[i].geo, items[i].target.lan))
  }

  function CacheEntry(entry: RenamedEntry, warpEntry: RenamedEntry, item: Item, r: Runtime): CachedEntry {
    CachedEntry(entry, warpEntry, item.runtime.countries, r.directHealthy, r.warpHealthy,
                item.target.found.direct, item.target.found.warp, item.target.found.services, item.target.found.warpServices)
  }

  /** The entries to publish, best first. */
  function Entries(env: Env, book: Book, items: seq<Item>): (r: seq<CachedEntry>)
    ensures |r| == |items|
  {
    var direct, warp := RenameAll(env, Routes(items, false)), RenameAll(env, Routes(items, true));
    seq(|items|, i requires 0 <= i < |items| =>
      var key := env.identity(items[i].target.record);
      CacheEntry(direct[i], warp[i], items[i], if key in book.runtime then book.runtime[key] else NO_RUNTIME))
  }

  /** The names published for one route kind: of the healthy entries, in order. */
  function Named(entries: seq<CachedEntry>, warp: bool): seq<RenamedEntry> {
    if entries == [] then []
    else
      var e := entries[|entries|-1];
      Named(entries[..|entries|-1], warp)
      + if warp then (if e.warpHealthy then [e.warpEntry] else []) else if e.directHealthy then [e.entry] else []
  }

  /** The snapshot with these entries. */
  function SnapshotOf(env: Env, input: Input, entries: seq<CachedEntry>, direct: seq<RenamedEntry>, warp: seq<RenamedEntry>, geoAvailable: nat): CachedData {
    var meta := input.header.(alive := |entries|, dead := |input.targets| - |entries|,
                              geoAvailable := geoAvailable, geoTotal := |input.targets|);
    CachedData(FormatOutput(env, input.date, direct, meta.(alive := |direct|)),
               FormatXrayJSON(env, warp, meta.(alive := |warp|)), entries, meta, input.now)
  }

  /** The snapshot of a refresh: its live routes, best first. */
  function Snapshotted(env: Env, book: Book, input: Input): CachedData {
    var live := LiveItems(env, book, input.targets);
    var entries := Entries(env, book, Ordered(live));
    SnapshotOf(env, input, entries, Named(entries, false), Named(entries, true), GeoCount(live))
  }

  predicate Witnessed(targets: seq<Target>) {
    exists i :: 0 <= i < |targets| && Reached(targets[i].probe)
  }

  /** The refresh goes past its probes. */
  predicate Proceeds(input: Input) { input.started && Witnessed(input.targets) }

  function BookAfter(env: Env, cfg: Config, book: Book, input: Input): Book
  {
    BandwidthStage(env, cfg, UpdateAll(env, cfg, book, input.targets, input.now), input)
  }

  /** One whole refresh. */
  function Refreshed(env: Env, cfg: Config, s: Service, input: Input): Service
  {
    if !Proceeds(input) then s
    else
      var book := BookAfter(env, cfg, s.book, input);
      Service(book, if LiveItems(env, book, input.targets) == [] then s.cache else Some(Snapshotted(env, book, input)))
  }

  // ---------------------------------------------------------------- re-probing

  /** The records whose WARP egress country is unresolved. */
  function ReprobeCandidates(entries: seq<CachedEntry>): seq<Record> {
    if entries == [] then []
    else
      var e := entries[|entries|-1];
      ReprobeCandidates(entries[..|entries|-1])
      + if e.warpHealthy && C.NeedsWarpReprobe(e.countries) then [e.entry.record] else []
  }

  /** The book after the re-probe observations, and whether anything changed. */
  function Observed(env: Env, book: Book, records: seq<Record>, seen: nat -> C.Observation, now: int): (Book, bool)
  {
    if records == [] then (book, false)
    else
      var n := |records| - 1;
      var (book, changed) := Observed(env, book, records[..n], seen, now);
      var key := env.identity(records[n]);
      if key !in book.runtime then (book, changed)
      else
        var countries := C.Apply(book.runtime[key].countries, true, seen(n), now);
        if countries == book.runtime[key].countries then (book, changed)
        else (Book(book.runtime[key := book.runtime[key].(countries := countries)], book.evidence[key := countries]), true)
  }

  function RebuiltEntry(env: Env, book: Book, e: CachedEntry): CachedEntry {
    var key := env.identity(e.entry.record);
    if key !in book.runtime then e
    else e.(countries := book.runtime[key].countries, directHealthy := book.runtime[key].directHealthy,
            warpHealthy := book.runtime[key].warpHealthy)
  }

  function RebuiltEntries(env: Env, book: Book, entries: seq<CachedEntry>): (r: seq<CachedEntry>)
    ensures |r| == |entries|
  {
    seq(|entries|, i requires 0 <= i < |entries| => RebuiltEntry(env, book, entries[i]))
  }

  /** The entries the rebuilt texts are made of: those without a runtime are passed over. */
  function RebuiltSelection(env: Env, book: Book, entries: seq<CachedEntry>, warp: bool): seq<RenamedEntry> {
    if entries == [] then []
    else
      var e := entries[|entries|-1];
      RebuiltSelection(env, book, entries[..|entries|-1], warp)
      + if env.identity(e.entry.record) in book.runtime && Healthy(RebuiltEntry(env, book, e), warp)
        then [Shown(e, warp)] else []
  }

  function Rebuilt(env: Env, date: Date, book: Book, data: CachedData): CachedData {
    var direct, warp := RebuiltSelection(env, book, data.entries, false), RebuiltSelection(env, book, data.entries, true);
    CachedData(FormatOutput(env, date, direct, data.meta.(alive := |direct|)),
               FormatXrayJSON(env, warp, data.meta.(alive := |warp|)),
               RebuiltEntries(env, book, data.entries), data.meta, data.lastRefresh)
  }

  /** One whole WARP re-probe; the i-th candidate is seen as `seen(i)`. */
  function Reprobed(env: Env, s: Service, started: bool, seen: nat -> C.Observation, now: int, date: Date): Service {
    if s.cache.None? || !started then s
    else
      var records := ReprobeCandidates(s.cache.value.entries);
      var (book, changed) := Observed(env, s.book, records, seen, now);
      Service(book, if changed then Some(Rebuilt(env, date, book, s.cache.value)) else s.cache)
  }

  // ---------------------------------------------------------------- enrichment

  function ExitAddress(v4: C.FamilyResult, v6: C.FamilyResult): C.Address {
    if v4.available && !v4.ip.NoAddress? then v4.ip
    else if v6.available && !v6.ip.NoAddress? then v6.ip
    else C.NoAddress
  }

  function EnrichedEntry(e: CachedEntry, find: Finders): CachedEntry {
    e.(direct := find.At(ExitAddress(e.countries.directV4, e.countries.directV6)),
       warp := find.At(ExitAddress(e.countries.warpV4, e.countries.warpV6)))
  }

  function EnrichedEntries(entries: seq<CachedEntry>, find: Finders): (r: seq<CachedEntry>)
    ensures |r| == |entries|
  {
    seq(|entries|, i requires 0 <= i < |entries| => EnrichedEntry(entries[i], find))
  }

  function Enriched(s: Service, find: Finders): Service {
    if s.cache.None? then s
    else s.(cache := Some(s.cache.value.(entries := EnrichedEntries(s.cache.value.entries, find))))
  }
}
