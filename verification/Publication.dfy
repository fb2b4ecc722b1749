/** What is published and why the precomputed texts stay true to the published entries. */
module Publication {
  import opened Common
  import opened Sorting
  import opened ProxyRuntime
  import opened Records
  import opened Snapshot
  import opened Pipeline
  import opened PipelineLaws
  import B = Bandwidth
  import C = Country
  import Q = Quality
  import S = Scoring

  // ---------------------------------------------------------------- the published order

  predicate IsLive(env: Env, book: Book, t: Target) {
    var key := env.identity(t.record);
    key in book.runtime && !book.runtime[key].state.Dead?
  }

  function LiveTargets(env: Env, book: Book, targets: seq<Target>): seq<Target> {
    if targets == [] then []
    else LiveTargets(env, book, targets[..|targets|-1])
         + if IsLive(env, book, targets[|targets|-1]) then [targets[|targets|-1]] else []
  }

  function TargetsOf(items: seq<Item>): (r: seq<Target>)
    ensures |r| == |items|
  {
    seq(|items|, i requires 0 <= i < |items| => items[i].target)
  }

  /** The item of a target carries what the store says about it. */
  predicate Describes(env: Env, book: Book, x: Item) {
    && IsLive(env, book, x.target)
    && x.runtime == book.runtime[env.identity(x.target.record)]
    && x.geo == if x.runtime.geo.Some? then x.runtime.geo else x.target.endpointGeo
  }

  lemma {:induction false} LiveItemsAre(env: Env, book: Book, targets: seq<Target>)
    ensures TargetsOf(LiveItems(env, book, targets)) == LiveTargets(env, book, targets)
    ensures forall x :: x in LiveItems(env, book, targets) ==> Describes(env, book, x) && x.target in targets
  {
    if targets != [] {
      LiveItemsAre(env, book, targets[..|targets|-1]);
    }
  }

  lemma BetterWeakOrder()
    ensures WeakOrder(Better)
  {}

  /** As good as each other. */
  predicate SameGrade(a: Item, b: Item) {
    a.runtime.state == b.runtime.state && a.runtime.scoreEWMA == b.runtime.scoreEWMA
  }

  /** `a` may stand before `b`: HEALTHY before RECOVERING before DEGRADED before the rest, and
      in one state the lower smoothed score first. */
  predicate MayPrecede(a: Runtime, b: Runtime) {
    && (b.state.Healthy? ==> a.state.Healthy?)
    && (b.state.Recovering? ==> a.state.Healthy? || a.state.Recovering?)
    && (b.state.Degraded? ==> a.state.Healthy? || a.state.Recovering? || a.state.Degraded?)
    && (a.state == b.state ==> a.scoreEWMA <= b.scoreEWMA)
  }

  lemma SortedMayPrecede(items: seq<Item>)
    requires Sorted(Better, items)
    ensures forall i, j :: 0 <= i < j < |items| ==> MayPrecede(items[i].runtime, items[j].runtime)
  {
    forall i, j | 0 <= i < j < |items| ensures MayPrecede(items[i].runtime, items[j].runtime) {
      assert !Better(items[j], items[i]);
    }
  }

  /** The live items in the order of publication. */
  lemma OrderedItemsAre(env: Env, book: Book, targets: seq<Target>)
    ensures forall x :: x in Ordered(LiveItems(env, book, targets)) ==> Describes(env, book, x) && x.target in targets
  {
    var live := LiveItems(env, book, targets);
    LiveItemsAre(env, book, targets);
    BetterWeakOrder();
    StableSortSorts(Better, live);
    forall x | x in Ordered(live) ensures x in live { assert x in multiset(Ordered(live)); }
  }

  /** What is published is the live targets of the refresh, no more and no fewer, the better
      state and in it the lower smoothed score first, equals in input order. */
  lemma PublishedOrder(env: Env, book: Book, targets: seq<Target>, grade: Item)
    ensures var items, live := Ordered(LiveItems(env, book, targets)), LiveItems(env, book, targets);
            && (forall i, j :: 0 <= i < j < |items| ==> MayPrecede(items[i].runtime, items[j].runtime))
            && multiset(items) == multiset(live)
            && TargetsOf(live) == LiveTargets(env, book, targets)
            && (forall x :: x in items ==> Describes(env, book, x))
            && Keep(x => SameGrade(grade, x), items) == Keep(x => SameGrade(grade, x), live)
  {
    var live := LiveItems(env, book, targets);
    LiveItemsAre(env, book, targets);
    OrderedItemsAre(env, book, targets);
    BetterWeakOrder();
    StableSortSorts(Better, live);
    SortedMayPrecede(Ordered(live));
    StableSortStable(Better, x => SameGrade(grade, x), live);
  }

  /** The entries of a snapshot stand for these items, in this order. */
  ghost predicate Stands(env: Env, book: Book, entries: seq<CachedEntry>, items: seq<Item>) {
    && |entries| == |items|
    && forall i :: 0 <= i < |items| ==>
         && entries[i].entry.record == entries[i].warpEntry.record == items[i].target.record
         && entries[i].countries == items[i].runtime.countries
         && entries[i].directHealthy == items[i].runtime.directHealthy
         && entries[i].warpHealthy == items[i].runtime.warpHealthy
  }

  lemma EntriesStand(env: Env, book: Book, items: seq<Item>)
    requires forall x :: x in items ==> Describes(env, book, x)
    ensures Stands(env, book, Entries(env, book, items), items)
  {
    forall i | 0 <= i < |items| ensures Describes(env, book, items[i]) { assert items[i] in items; }
  }

  /** A refresh with a witness publishes exactly when some target of it is not DEAD
      afterwards; the snapshot then stands for the ordered live targets, and its header
      counts them and the others. */
  lemma PublishesIff(env: Env, cfg: Config, s: Service, input: Input)
    requires Proceeds(input)
    ensures var after := Step(env, cfg, s, Refresh(input));
            var items := Ordered(LiveItems(env, after.book, input.targets));
            && (items != [] <==> exists t :: t in input.targets && IsLive(env, after.book, t))
            && (items == [] ==> after.cache == s.cache)
            && (items != [] ==>
                  && after.cache.Some? && after.cache.value.lastRefresh == input.now
                  && Stands(env, after.book, after.cache.value.entries, items)
                  && after.cache.value.meta.alive == |LiveTargets(env, after.book, input.targets)|
                  && after.cache.value.meta.alive + after.cache.value.meta.dead == |input.targets|)
  {
    var after := Step(env, cfg, s, Refresh(input));
    var live := LiveItems(env, after.book, input.targets);
    LiveItemsAre(env, after.book, input.targets);
    LiveTargetsNone(env, after.book, input.targets);
    if live == [] {
      assert Ordered(live) == [];
    } else {
      PublishedOrder(env, after.book, input.targets, live[0]);
      EntriesStand(env, after.book, Ordered(live));
    }
  }

  lemma UpdatedState(env: Env, cfg: Config, book: Book, key: string, probe: Option<Probe>, now: int)
    ensures !UpdateOne(env, cfg, book, key, probe, now).runtime[key].state.Unset?
  {
    NextRuntimeHealth(env, cfg, Previous(book, key), key in book.runtime, key, probe, now);
  }

  lemma {:induction false} UpdatedStates(env: Env, cfg: Config, book: Book, targets: seq<Target>, now: int, t: Target)
    requires t in targets
    ensures var after, key := UpdateAll(env, cfg, book, targets, now).runtime, env.identity(t.record);
            key in after && !after[key].state.Unset?
  {
    var p, last := targets[..|targets|-1], targets[|targets|-1];
    var mid, at, key := UpdateAll(env, cfg, book, p, now), env.identity(last.record), env.identity(t.record);
    assert targets == p + [last];
    if at == key {
      UpdatedState(env, cfg, mid, key, last.probe, now);
    } else {
      UpdatedStates(env, cfg, book, p, now, t);
      UpdateOneElsewhere(env, cfg, mid, at, last.probe, now, key);
    }
  }

  /** What the store says of a published route. */
  function RuntimeOf(env: Env, book: Book, e: CachedEntry): Runtime {
    var key := env.identity(e.entry.record); if key in book.runtime then book.runtime[key] else NO_RUNTIME
  }

  /** The i-th published entry is that of the i-th live item. */
  lemma PublishedEntry(env: Env, cfg: Config, s: Service, input: Input, i: nat)
    requires Proceeds(input) && i < |LiveTargets(env, Step(env, cfg, s, Refresh(input)).book, input.targets)|
    ensures var after := Step(env, cfg, s, Refresh(input));
            var items := Ordered(LiveItems(env, after.book, input.targets));
            && after.cache.Some? && |after.cache.value.entries| == |items| == |LiveTargets(env, after.book, input.targets)|
            && items[i].runtime == RuntimeOf(env, after.book, after.cache.value.entries[i])
            && (items[i].runtime.state == Q.Healthy || items[i].runtime.state == Q.Recovering || items[i].runtime.state == Q.Degraded)
  {
    var after := Step(env, cfg, s, Refresh(input));
    PublishesIff(env, cfg, s, input);
    LiveItemsAre(env, after.book, input.targets);
    OrderedItemsAre(env, after.book, input.targets);
    var items := Ordered(LiveItems(env, after.book, input.targets));
    assert items[i] in items;
    LiveState(env, cfg, s, input, items[i]);
  }

  /** The published snapshot lists the best first: HEALTHY routes, then RECOVERING, then
      DEGRADED ones and no others; among routes of one state, the lower smoothed score. */
  lemma PublishedBestFirst(env: Env, cfg: Config, s: Service, input: Input, i: nat, j: nat)
    requires Proceeds(input) && i < j < |LiveTargets(env, Step(env, cfg, s, Refresh(input)).book, input.targets)|
    ensures var after := Step(env, cfg, s, Refresh(input));
            && after.cache.Some? && j < |after.cache.value.entries|
            && var a, b := RuntimeOf(env, after.book, after.cache.value.entries[i]), RuntimeOf(env, after.book, after.cache.value.entries[j]);
            && (a.state == Q.Healthy || a.state == Q.Recovering || a.state == Q.Degraded)
            && (b.state == Q.Healthy || b.state == Q.Recovering || b.state == Q.Degraded)
            && (b.state == Q.Healthy ==> a.state == Q.Healthy)
            && (b.state == Q.Recovering ==> a.state != Q.Degraded)
            && (a.state == b.state ==> a.scoreEWMA <= b.scoreEWMA)
  {
    var book := Step(env, cfg, s, Refresh(input)).book;
    var items := Ordered(LiveItems(env, book, input.targets));
    PublishedEntry(env, cfg, s, input, i);
    PublishedEntry(env, cfg, s, input, j);
    PublishedOrder(env, book, input.targets, items[i]);
  }

  lemma LiveState(env: Env, cfg: Config, s: Service, input: Input, x: Item)
    requires Proceeds(input) && x.target in input.targets && Describes(env, Step(env, cfg, s, Refresh(input)).book, x)
    ensures x.runtime.state == Q.Healthy || x.runtime.state == Q.Recovering || x.runtime.state == Q.Degraded
  {
    UpdatedStates(env, cfg, s.book, input.targets, input.now, x.target);
    StageKeeps(env, cfg, UpdateAll(env, cfg, s.book, input.targets, input.now), input);
  }

  /** The positions of the items whose location is known. */
  function Placed(items: seq<Item>): set<int> { set i | 0 <= i < |items| && items[i].geo.Some? }

  lemma {:induction false} GeoCounts(items: seq<Item>)
    ensures GeoCount(items) == |Placed(items)|
  {
    if items == [] {
      assert Placed(items) == {};
    } else {
      var n := |items| - 1;
      GeoCounts(items[..n]);
      assert Placed(items) == Placed(items[..n]) + if items[n].geo.Some? then {n} else {};
    }
  }

  /** The routes that are named, as the naming sees them: record, location, private address. */
  predicate NamedFrom(routes: seq<(Record, Option<Geo>, bool)>, items: seq<Item>, warp: bool) {
    && |routes| == |items|
    && forall i :: 0 <= i < |items| ==>
         && routes[i].0 == items[i].target.record && routes[i].2 == items[i].target.lan
         && routes[i].1 == if warp then items[i].runtime.warpGeo else items[i].geo
  }

  lemma RoutesNamed(items: seq<Item>, warp: bool)
    ensures NamedFrom(Routes(items, warp), items, warp)
  {}

  /** The name and the findings of an entry. */
  ghost predicate Says(env: Env, e: CachedEntry, x: Item, i: nat, direct: seq<(Record, Option<Geo>, bool)>, warp: seq<(Record, Option<Geo>, bool)>) {
    && e.entry.name == env.naming(direct, i) && e.warpEntry.name == env.naming(warp, i)
    && e.direct == x.target.found.direct && e.warp == x.target.found.warp
    && e.services == x.target.found.services && e.warpServices == x.target.found.warpServices
  }

  lemma EntrySays(env: Env, book: Book, items: seq<Item>, i: nat)
    requires i < |items|
    ensures Says(env, Entries(env, book, items)[i], items[i], i, Routes(items, false), Routes(items, true))
  {}

  /** What the entries of a refresh say besides health and countries: direct names from direct
      locations and WARP names from WARP locations, and the findings of the target itself. */
  lemma EntriesSay(env: Env, book: Book, items: seq<Item>) returns (direct: seq<(Record, Option<Geo>, bool)>, warp: seq<(Record, Option<Geo>, bool)>)
    ensures NamedFrom(direct, items, false) && NamedFrom(warp, items, true)
    ensures forall i :: 0 <= i < |items| ==> Says(env, Entries(env, book, items)[i], items[i], i, direct, warp)
  {
    direct, warp := Routes(items, false), Routes(items, true);
    RoutesNamed(items, false);
    RoutesNamed(items, true);
    forall i | 0 <= i < |items| ensures Says(env, Entries(env, book, items)[i], items[i], i, direct, warp) { EntrySays(env, book, items, i); }
  }

  /** The header of a snapshot: the counters it was given, and those of the live routes, of
      the others and of the locations known. */
  lemma HeaderCounts(env: Env, book: Book, input: Input)
    ensures var live, meta := LiveItems(env, book, input.targets), Snapshotted(env, book, input).meta;
            && meta == input.header.(alive := |live|, dead := |input.targets| - |live|, geoAvailable := |Placed(live)|, geoTotal := |input.targets|)
            && Snapshotted(env, book, input).lastRefresh == input.now
  {
    GeoCounts(LiveItems(env, book, input.targets));
  }

  lemma {:induction false} LiveTargetsNone(env: Env, book: Book, targets: seq<Target>)
    ensures LiveTargets(env, book, targets) != [] <==> exists t :: t in targets && IsLive(env, book, t)
  {
    if targets != [] {
      var p, last := targets[..|targets|-1], targets[|targets|-1];
      LiveTargetsNone(env, book, p);
      assert forall t :: t in targets <==> t in p || t == last;
    }
  }

  // ---------------------------------------------------------------- the precomputed texts

  lemma {:induction false} NamedIsSelection(entries: seq<CachedEntry>, warp: bool)
    requires forall e :: e in entries ==> e.warpEntry.record.protocol != ""
    ensures Named(entries, warp) == Selection(entries, warp)
  {
    if entries != [] { NamedIsSelection(entries[..|entries|-1], warp); }
  }

  /** Every published entry has a runtime. */
  ghost predicate Known(env: Env, book: Book, entries: seq<CachedEntry>) {
    forall e :: e in entries ==> env.identity(e.entry.record) in book.runtime
  }

  /** The records of a refresh have a protocol, as every parser sets one. */
  predicate Typed(input: Input) {
    forall t :: t in input.targets ==> t.record.protocol != ""
  }

  lemma PublishedEntriesKnown(env: Env, book: Book, input: Input)
    requires Typed(input)
    ensures var entries := Entries(env, book, Ordered(LiveItems(env, book, input.targets)));
            && Known(env, book, entries)
            && forall e :: e in entries ==> e.warpEntry.record.protocol != ""
  {
    var items := Ordered(LiveItems(env, book, input.targets));
    OrderedItemsAre(env, book, input.targets);
    EntriesStand(env, book, items);
    var entries := Entries(env, book, items);
    forall e | e in entries ensures e.warpEntry.record.protocol != "" && env.identity(e.entry.record) in book.runtime {
      var i :| 0 <= i < |items| && entries[i] == e;
      assert items[i] in items;
    }
  }

  lemma PublishedConsistent(env: Env, book: Book, input: Input)
    requires Typed(input)
    ensures var data := Snapshotted(env, book, input);
            Consistent(env, data) && Known(env, book, data.entries)
  {
    PublishedEntriesKnown(env, book, input);
    var data := Snapshotted(env, book, input);
    NamedIsSelection(data.entries, false);
    NamedIsSelection(data.entries, true);
    assert data.output == Page(env, input.date, data.entries, data.meta);
  }

  /** The entry is healthy by its old flags, but the rebuild does not see it. */
  predicate Overlooked(env: Env, book: Book, e: CachedEntry, warp: bool) {
    env.identity(e.entry.record) !in book.runtime && Healthy(e, warp)
  }

  lemma RebuiltEntriesInit(env: Env, book: Book, entries: seq<CachedEntry>)
    requires entries != []
    ensures RebuiltEntries(env, book, entries)[..|entries|-1] == RebuiltEntries(env, book, entries[..|entries|-1])
  {}

  /** The rebuilt texts are what the rebuilt entries say exactly when no healthy entry
      lacks a runtime. */
  lemma {:induction false} RebuildExact(env: Env, book: Book, entries: seq<CachedEntry>, warp: bool)
    ensures |RebuiltSelection(env, book, entries, warp)| <= |Selection(RebuiltEntries(env, book, entries), warp)|
    ensures RebuiltSelection(env, book, entries, warp) == Selection(RebuiltEntries(env, book, entries), warp)
            <==> |RebuiltSelection(env, book, entries, warp)| == |Selection(RebuiltEntries(env, book, entries), warp)|
    ensures RebuiltSelection(env, book, entries, warp) == Selection(RebuiltEntries(env, book, entries), warp)
            <==> forall e :: e in entries ==> !Overlooked(env, book, e, warp)
  {
    if entries != [] {
      var p, last := entries[..|entries|-1], entries[|entries|-1];
      RebuildExact(env, book, p, warp);
      RebuiltEntriesInit(env, book, entries);
      assert RebuiltEntries(env, book, entries)[|entries|-1] == RebuiltEntry(env, book, last);
      assert entries == p + [last];
      if Overlooked(env, book, last, warp) {
        assert last in entries;
        assert |RebuiltSelection(env, book, entries, warp)| < |Selection(RebuiltEntries(env, book, entries), warp)|;
      } else {
        assert (forall e :: e in entries ==> !Overlooked(env, book, e, warp)) <==> (forall e :: e in p ==> !Overlooked(env, book, e, warp));
      }
    }
  }

  lemma RebuiltConsistent(env: Env, date: Date, book: Book, data: CachedData)
    requires Known(env, book, data.entries)
    ensures var rebuilt := Rebuilt(env, date, book, data); Consistent(env, rebuilt) && Known(env, book, rebuilt.entries)
  {
    var rebuilt := Rebuilt(env, date, book, data);
    RebuildExact(env, book, data.entries, false);
    RebuildExact(env, book, data.entries, true);
    assert rebuilt.output == Page(env, date, rebuilt.entries, rebuilt.meta);
  }

  /** A rebuild changes the countries and the health of the entries, and the two texts. */
  lemma RebuildKeeps(env: Env, date: Date, book: Book, data: CachedData)
    ensures var rebuilt := Rebuilt(env, date, book, data);
            && rebuilt.meta == data.meta && rebuilt.lastRefresh == data.lastRefresh && |rebuilt.entries| == |data.entries|
            && forall i :: 0 <= i < |data.entries| ==>
                 var e, was := rebuilt.entries[i], data.entries[i];
                 && e == was.(countries := e.countries, directHealthy := e.directHealthy, warpHealthy := e.warpHealthy)
                 && (env.identity(was.entry.record) !in book.runtime ==> e == was)
                 && (env.identity(was.entry.record) in book.runtime ==> InStep(env, book, e))
  {}

  /** The rebuilt URL body is, at some time, the page of the rebuilt entries exactly when no
      directly healthy entry lacks a runtime. */
  lemma RebuiltPageExact(env: Env, date: Date, book: Book, data: CachedData)
    ensures var rebuilt := Rebuilt(env, date, book, data);
            (exists d: Date :: rebuilt.output == Page(env, d, rebuilt.entries, rebuilt.meta))
            <==> forall e :: e in data.entries ==> !Overlooked(env, book, e, false)
  {
    var rebuilt := Rebuilt(env, date, book, data);
    var written, due := RebuiltSelection(env, book, data.entries, false), Selection(rebuilt.entries, false);
    RebuildExact(env, book, data.entries, false);
    if written == due {
      assert rebuilt.output == Page(env, date, rebuilt.entries, rebuilt.meta);
    } else {
      forall d: Date ensures rebuilt.output != Page(env, d, rebuilt.entries, rebuilt.meta) {
        if rebuilt.output == Page(env, d, rebuilt.entries, rebuilt.meta) {
          PagesCount(env, date, written, data.meta.(alive := |written|), d, due, rebuilt.meta.(alive := |due|));
          assert false;
        }
      }
    }
  }

  lemma {:induction false} EnrichedSelection(entries: seq<CachedEntry>, find: Finders, warp: bool)
    ensures Selection(EnrichedEntries(entries, find), warp) == Selection(entries, warp)
  {
    if entries != [] {
      assert EnrichedEntries(entries, find)[..|entries|-1] == EnrichedEntries(entries[..|entries|-1], find);
      EnrichedSelection(entries[..|entries|-1], find, warp);
    }
  }

  lemma EnrichedConsistent(env: Env, data: CachedData, find: Finders)
    requires Consistent(env, data)
    ensures Consistent(env, data.(entries := EnrichedEntries(data.entries, find)))
  {
    var after := data.(entries := EnrichedEntries(data.entries, find));
    EnrichedSelection(data.entries, find, false);
    EnrichedSelection(data.entries, find, true);
    var date: Date :| data.output == Page(env, date, data.entries, data.meta);
    assert after.output == Page(env, date, after.entries, after.meta);
  }

  // ---------------------------------------------------------------- health of what is published

  predicate DistinctTargets(env: Env, targets: seq<Target>) {
    forall i, j :: 0 <= i < j < |targets| ==> env.identity(targets[i].record) != env.identity(targets[j].record)
  }

  /** The store tells the health that this probe found. */
  predicate Shows(book: Book, key: string, probe: Option<Probe>) {
    && key in book.runtime
    && book.runtime[key].directHealthy == ReachedDirectly(probe)
    && book.runtime[key].warpHealthy == ReachedWarp(probe)
    && book.runtime[key].reachable == Reached(probe)
  }

  lemma UpdateOneShows(env: Env, cfg: Config, book: Book, key: string, probe: Option<Probe>, now: int)
    ensures Shows(UpdateOne(env, cfg, book, key, probe, now), key, probe)
  {}

  lemma {:induction false} UpdateAllShows(env: Env, cfg: Config, book: Book, targets: seq<Target>, now: int, t: Target)
    requires DistinctTargets(env, targets) && t in targets
    ensures Shows(UpdateAll(env, cfg, book, targets, now), env.identity(t.record), t.probe)
  {
    var p, last := targets[..|targets|-1], targets[|targets|-1];
    var mid := UpdateAll(env, cfg, book, p, now);
    if t == last {
      UpdateOneShows(env, cfg, mid, env.identity(t.record), t.probe, now);
    } else {
      var i :| 0 <= i < |targets| && targets[i] == t;
      assert p[i] == t;
      UpdateAllShows(env, cfg, book, p, now, t);
      UpdateOneElsewhere(env, cfg, mid, env.identity(last.record), last.probe, now, env.identity(t.record));
    }
  }

  /** A route is published as directly healthy, or as healthy through WARP, exactly when its
      own probe in that refresh got through that way. */
  lemma PublishedHealthIsProbed(env: Env, cfg: Config, s: Service, input: Input, i: nat)
    requires Proceeds(input) && DistinctTargets(env, input.targets)
    requires var items := Ordered(LiveItems(env, Step(env, cfg, s, Refresh(input)).book, input.targets)); i < |items|
    ensures var after := Step(env, cfg, s, Refresh(input));
            var t := Ordered(LiveItems(env, after.book, input.targets))[i].target;
            && after.cache.Some? && i < |after.cache.value.entries|
            && t in input.targets
            && after.cache.value.entries[i].entry.record == t.record
            && after.cache.value.entries[i].directHealthy == ReachedDirectly(t.probe)
            && after.cache.value.entries[i].warpHealthy == ReachedWarp(t.probe)
  {
    var after := Step(env, cfg, s, Refresh(input));
    var live := LiveItems(env, after.book, input.targets);
    var items := Ordered(live);
    PublishesIff(env, cfg, s, input);
    PublishedOrder(env, after.book, input.targets, items[i]);
    LiveItemsAre(env, after.book, input.targets);
    assert items[i] in items && items[i] in multiset(items) && items[i] in live;
    var t := items[i].target;
    UpdateAllShows(env, cfg, s.book, input.targets, input.now, t);
    StageKeeps(env, cfg, UpdateAll(env, cfg, s.book, input.targets, input.now), input);
  }

  // ---------------------------------------------------------------- over whole runs

  lemma {:induction false} UpdateAllKeys(env: Env, cfg: Config, book: Book, targets: seq<Target>, now: int)
    ensures UpdateAll(env, cfg, book, targets, now).runtime.Keys
            == book.runtime.Keys + set t | t in targets :: env.identity(t.record)
  {
    if targets != [] {
      UpdateAllKeys(env, cfg, book, targets[..|targets|-1], now);
      assert targets == targets[..|targets|-1] + [targets[|targets|-1]];
    }
  }

  lemma {:induction false} ObservedKeys(env: Env, book: Book, records: seq<Record>, seen: nat -> C.Observation, now: int)
    ensures var (after, changed) := Observed(env, book, records, seen, now);
            after.runtime.Keys == book.runtime.Keys && (book.runtime == map[] ==> !changed && after == book)
  {
    if records != [] { ObservedKeys(env, book, records[..|records|-1], seen, now); }
  }

  lemma {:induction false} OneSampleEach(env: Env, targets: seq<Target>, now: int, key: string)
    requires DistinctTargets(env, targets)
    ensures |SamplesIn(env, targets, key, now)| <= 1
    ensures (forall t :: t in targets ==> env.identity(t.record) != key) ==> SamplesIn(env, targets, key, now) == []
  {
    if targets != [] {
      OneSampleEach(env, targets[..|targets|-1], now, key);
      var p, last := targets[..|targets|-1], targets[|targets|-1];
      forall t | t in p ensures env.identity(t.record) != env.identity(last.record) {}
    }
  }

  /** A proxy that is probed for the first time, once, is not DEAD after it. */
  lemma OneSampleAlive(h: seq<Q.Sample>)
    requires |h| == 1
    ensures !Q.Run(h, DEAD_COOLDOWN).state.Dead?
  {
    Q.RunSnoc([], h[0], DEAD_COOLDOWN);
    assert [] + [h[0]] == h;
  }

  lemma FirstProbeLeavesAlive(env: Env, cfg: Config, evidence: map<string, C.RouteCountries>, targets: seq<Target>, now: int, t: Target)
    requires DistinctTargets(env, targets) && t in targets
    ensures IsLive(env, UpdateAll(env, cfg, Book(map[], evidence), targets, now), t)
  {
    var key := env.identity(t.record);
    var h := SamplesIn(env, targets, key, now);
    UpdateAllKeys(env, cfg, Book(map[], evidence), targets, now);
    UpdateAllRemembers(env, cfg, Book(map[], evidence), targets, now, key, []);
    assert [] + h == h;
    OneSampleEach(env, targets, now, key);
    OneSampleAlive(h);
  }

  /** One probe does not kill: the first refresh with a witness after start-up always
      publishes, so a restored snapshot is replaced before any of its entries could be
      missing from a store that is in use. */
  lemma FirstRefreshPublishes(env: Env, cfg: Config, s: Service, input: Input)
    requires Proceeds(input) && DistinctTargets(env, input.targets)
    requires s.book.runtime == map[]
    ensures forall t :: t in input.targets ==> IsLive(env, Step(env, cfg, s, Refresh(input)).book, t)
    ensures Ordered(LiveItems(env, Step(env, cfg, s, Refresh(input)).book, input.targets)) != []
  {
    var after := Step(env, cfg, s, Refresh(input)).book;
    var updated := UpdateAll(env, cfg, s.book, input.targets, input.now);
    StageKeeps(env, cfg, updated, input);
    assert s.book == Book(map[], s.book.evidence);
    forall t | t in input.targets ensures IsLive(env, after, t) {
      FirstProbeLeavesAlive(env, cfg, s.book.evidence, input.targets, input.now, t);
    }
    var i :| 0 <= i < |input.targets| && Reached(input.targets[i].probe);
    assert input.targets[i] in input.targets;
    PublishesIff(env, cfg, s, input);
  }

  lemma OneMoreSample(env: Env, targets: seq<Target>, t: Target, now: int)
    ensures SamplesIn(env, targets + [t], env.identity(t.record), now)
            == SamplesIn(env, targets, env.identity(t.record), now) + [Q.Sample(ObservationOf(t.probe), now)]
  {
    assert (targets + [t])[..|targets|] == targets;
  }

  lemma ThreeSamples(env: Env, a: Target, b: Target, c: Target, key: string, now: int)
    requires env.identity(a.record) == env.identity(b.record) == env.identity(c.record) == key
    ensures SamplesIn(env, [a, b, c], key, now)
            == [Q.Sample(ObservationOf(a.probe), now)] + [Q.Sample(ObservationOf(b.probe), now)] + [Q.Sample(ObservationOf(c.probe), now)]
  {
    OneMoreSample(env, [], a, now);
    OneMoreSample(env, [a], b, now);
    OneMoreSample(env, [a, b], c, now);
    assert [] + [a] == [a] && [a] + [b] == [a, b] && [a, b] + [c] == [a, b, c];
  }

  /** Why distinct identities matter for a restored snapshot: three records that share an
      identity, two of them unreachable, leave it DEAD in the very first refresh, although
      the third gave a witness; nothing is published, yet the store is no longer empty. */
  lemma RepeatedIdentityCanKill(env: Env, cfg: Config, evidence: map<string, C.RouteCountries>, a: Target, b: Target, c: Target, now: int)
    requires env.identity(a.record) == env.identity(b.record) == env.identity(c.record)
    requires ObservationOf(a.probe).Blackhole? && ObservationOf(b.probe).Blackhole? && Reached(c.probe)
    ensures Witnessed([a, b, c])
    ensures var book := UpdateAll(env, cfg, Book(map[], evidence), [a, b, c], now);
            book.runtime != map[] && LiveTargets(env, book, [a, b, c]) == []
  {
    var targets, key := [a, b, c], env.identity(a.record);
    assert Reached(targets[2].probe);
    ThreeSamples(env, a, b, c, key, now);
    UpdateAllRemembers(env, cfg, Book(map[], evidence), targets, now, key, []);
    assert [] + SamplesIn(env, targets, key, now) == SamplesIn(env, targets, key, now);
    Q.TwoBlackholesKill(ObservationOf(c.probe), now, DEAD_COOLDOWN);
    var book := UpdateAll(env, cfg, Book(map[], evidence), targets, now);
    assert book.runtime[key].state.Dead?;
    forall t | t in targets ensures !IsLive(env, book, t) {}
    LiveTargetsNone(env, book, targets);
  }

  /** Nothing is known of the WARP egress of an identity. */
  predicate WarpUnseen(book: Book, key: string) {
    var countries := Previous(book, key).countries; countries.warpV4 == C.EMPTY && countries.warpV6 == C.EMPTY
  }

  /** An observation that is not valid leaves the WARP families as they are, and a direct
      one never touches them. */
  lemma WarpUntouched(countries: C.RouteCountries, direct: C.Observation, warp: C.Observation, now: int)
    requires !warp.Valid()
    ensures var after := C.Apply(C.Apply(countries, false, direct, now), true, warp, now);
            after.warpV4 == countries.warpV4 && after.warpV6 == countries.warpV6
  {}

  lemma ProbeWithoutWarp(env: Env, cfg: Config, book: Book, key: string, probe: Option<Probe>, now: int)
    requires WarpUnseen(book, key) && (probe.Some? ==> !probe.value.warpCountry.Valid())
    ensures var after := UpdateOne(env, cfg, book, key, probe, now);
            after.runtime.Keys == book.runtime.Keys + {key} && WarpUnseen(after, key)
  {
    var countries := Previous(book, key).countries;
    NextRuntimeCountries(env, cfg, Previous(book, key), key in book.runtime, key, probe, now);
    if probe.Some? { WarpUntouched(countries, probe.value.directCountry, probe.value.warpCountry, now); }
  }

  lemma UpdateAllSnoc(env: Env, cfg: Config, book: Book, targets: seq<Target>, t: Target, now: int)
    ensures UpdateAll(env, cfg, book, targets + [t], now)
            == UpdateOne(env, cfg, UpdateAll(env, cfg, book, targets, now), env.identity(t.record), t.probe, now)
  {
    assert (targets + [t])[..|targets|] == targets;
  }

  lemma ThreeUpdates(env: Env, cfg: Config, book: Book, a: Target, b: Target, c: Target, key: string, now: int)
    requires env.identity(a.record) == env.identity(b.record) == env.identity(c.record) == key
    ensures UpdateAll(env, cfg, book, [a, b, c], now)
            == UpdateOne(env, cfg, UpdateOne(env, cfg, UpdateOne(env, cfg, book, key, a.probe, now), key, b.probe, now), key, c.probe, now)
  {
    UpdateAllSnoc(env, cfg, book, [], a, now);
    UpdateAllSnoc(env, cfg, book, [a], b, now);
    UpdateAllSnoc(env, cfg, book, [a, b], c, now);
    assert [] + [a] == [a] && [a] + [b] == [a, b] && [a, b] + [c] == [a, b, c];
  }

  /** The three probes leave the WARP families of the identity unobserved. */
  lemma ThreeCountries(env: Env, cfg: Config, a: Target, b: Target, c: Target, now: int)
    requires a.probe.None? && b.probe.None? && c.probe.Some? && !c.probe.value.warpCountry.Valid()
    requires env.identity(a.record) == env.identity(b.record) == env.identity(c.record)
    ensures var book, key := UpdateAll(env, cfg, Book(map[], map[]), [a, b, c], now), env.identity(a.record);
            && book.runtime.Keys == {key}
            && book.runtime[key].countries.warpV4 == C.EMPTY && book.runtime[key].countries.warpV6 == C.EMPTY
  {
    var key, start := env.identity(a.record), Book(map[], map[]);
    var one := UpdateOne(env, cfg, start, key, a.probe, now);
    ProbeWithoutWarp(env, cfg, start, key, a.probe, now);
    ProbeWithoutWarp(env, cfg, one, key, b.probe, now);
    ProbeWithoutWarp(env, cfg, UpdateOne(env, cfg, one, key, b.probe, now), key, c.probe, now);
    ThreeUpdates(env, cfg, start, a, b, c, key, now);
  }

  lemma {:induction false} ChangeStays(env: Env, book: Book, records: seq<Record>, n: nat, seen: nat -> C.Observation, now: int)
    requires n <= |records| && Observed(env, book, records[..n], seen, now).1
    ensures Observed(env, book, records, seen, now).1
  {
    if n == |records| {
      assert records[..n] == records;
    } else {
      var p := records[..|records|-1];
      assert p[..n] == records[..n];
      ChangeStays(env, book, p, n, seen, now);
    }
  }

  lemma CandidatesOfTwo(x: CachedEntry, y: CachedEntry)
    requires x.warpHealthy && C.NeedsWarpReprobe(x.countries)
    ensures var records := ReprobeCandidates([x, y]); records != [] && records[..1] == [x.entry.record]
  {
    assert [x, y][..1] == [x] && [x][..0] == [];
    assert ReprobeCandidates([x]) == [x.entry.record];
  }

  lemma OneObserved(env: Env, book: Book, r: Record, seen: nat -> C.Observation, now: int)
    requires seen(0).Valid()
    requires var key := env.identity(r);
             key in book.runtime && book.runtime[key].countries.warpV4 == C.EMPTY && book.runtime[key].countries.warpV6 == C.EMPTY
    ensures Observed(env, book, [r], seen, now).1
  {
    var before := book.runtime[env.identity(r)].countries;
    var after := C.Apply(before, true, seen(0), now);
    assert after.warpV4.available || after.warpV6.available;
    assert [r][..0] == [];
  }

  lemma FirstCandidateChanges(env: Env, book: Book, x: CachedEntry, y: CachedEntry, seen: nat -> C.Observation, now: int)
    requires x.warpHealthy && C.NeedsWarpReprobe(x.countries) && seen(0).Valid()
    requires var key := env.identity(x.entry.record);
             key in book.runtime && book.runtime[key].countries.warpV4 == C.EMPTY && book.runtime[key].countries.warpV6 == C.EMPTY
    ensures Observed(env, book, ReprobeCandidates([x, y]), seen, now).1
  {
    CandidatesOfTwo(x, y);
    OneObserved(env, book, x.entry.record, seen, now);
    ChangeStays(env, book, ReprobeCandidates([x, y]), 1, seen, now);
  }

  lemma ReprobeBreaks(env: Env, s: Service, data: CachedData, x: CachedEntry, y: CachedEntry, seen: nat -> C.Observation, at: int, date: Date)
    requires s.cache == Some(data) && data.entries == [x, y]
    requires x.warpHealthy && C.NeedsWarpReprobe(x.countries) && y.directHealthy && seen(0).Valid()
    requires var key := env.identity(x.entry.record);
             && env.identity(y.entry.record) != key && s.book.runtime.Keys == {key}
             && s.book.runtime[key].countries.warpV4 == C.EMPTY && s.book.runtime[key].countries.warpV6 == C.EMPTY
    ensures var after := Reprobed(env, s, true, seen, at, date);
            after.cache.Some? && !exists d: Date :: after.cache.value.output == Page(env, d, after.cache.value.entries, after.cache.value.meta)
  {
    var records := ReprobeCandidates(data.entries);
    FirstCandidateChanges(env, s.book, x, y, seen, at);
    ObservedKeys(env, s.book, records, seen, at);
    RebuiltPageExact(env, date, Observed(env, s.book, records, seen, at).0, data);
    assert y in data.entries;
  }

  lemma ExecTwo(env: Env, cfg: Config, evidence: map<string, C.RouteCountries>, restored: Option<CachedData>, a: Op, b: Op)
    ensures Exec(env, cfg, evidence, restored, [a, b]) == Step(env, cfg, Step(env, cfg, Service(Book(map[], evidence), restored), a), b)
  {
    assert [a, b][..1] == [a] && [a][..0] == [];
    assert Exec(env, cfg, evidence, restored, [a]) == Step(env, cfg, Service(Book(map[], evidence), restored), a);
  }

  /** A run that ends in a snapshot whose URL body is not, at any time, what its entries say:
      a snapshot with two entries is restored; the first refresh probes three records that
      share the identity of the first entry and leaves it DEAD; a re-probe then resolves that
      entry's country and rebuilds the texts without the second entry, which is still
      healthy by its flag but has no runtime. */
  lemma RepeatedIdentityBreaksSnapshot(env: Env, cfg: Config, data: CachedData, x: CachedEntry, y: CachedEntry, input: Input,
                                       a: Target, b: Target, c: Target, seen: nat -> C.Observation, at: int, date: Date)
    requires Consistent(env, data) && data.entries == [x, y]
    requires var key := env.identity(x.entry.record);
             && env.identity(a.record) == env.identity(b.record) == env.identity(c.record) == key
             && env.identity(y.entry.record) != key
    requires a.probe.None? && b.probe.None? && c.probe.Some? && c.probe.value.metrics.internetReachable && !c.probe.value.warpCountry.Valid()
    requires x.warpHealthy && C.NeedsWarpReprobe(x.countries) && y.directHealthy && seen(0).Valid()
    requires input.started && input.targets == [a, b, c]
    ensures var s := Exec(env, cfg, map[], Some(data), [Refresh(input), Reprobe(true, seen, at, date)]);
            s.cache.Some? && !exists d: Date :: s.cache.value.output == Page(env, d, s.cache.value.entries, s.cache.value.meta)
  {
    var s := Service(Book(map[], map[]), Some(data));
    ExecTwo(env, cfg, map[], Some(data), Refresh(input), Reprobe(true, seen, at, date));
    KilledKeepsCache(env, cfg, s, input, a, b, c);
    ReprobeBreaks(env, Step(env, cfg, s, Refresh(input)), data, x, y, seen, at, date);
  }

  lemma KilledKeepsCache(env: Env, cfg: Config, s: Service, input: Input, a: Target, b: Target, c: Target)
    requires s.book == Book(map[], map[])
    requires env.identity(a.record) == env.identity(b.record) == env.identity(c.record)
    requires a.probe.None? && b.probe.None? && c.probe.Some? && c.probe.value.metrics.internetReachable && !c.probe.value.warpCountry.Valid()
    requires input.started && input.targets == [a, b, c]
    ensures var after, key := Step(env, cfg, s, Refresh(input)), env.identity(a.record);
            && after.cache == s.cache && after.book.runtime.Keys == {key}
            && after.book.runtime[key].countries.warpV4 == C.EMPTY && after.book.runtime[key].countries.warpV6 == C.EMPTY
  {
    var book := UpdateAll(env, cfg, s.book, input.targets, input.now);
    RepeatedIdentityCanKill(env, cfg, map[], a, b, c, input.now);
    ThreeCountries(env, cfg, a, b, c, input.now);
    StageKeeps(env, cfg, book, input);
    LiveTargetsNone(env, book, input.targets);
    LiveTargetsNone(env, BookAfter(env, cfg, s.book, input), input.targets);
    LiveItemsAre(env, BookAfter(env, cfg, s.book, input), input.targets);
  }

  /** What every step keeps: the texts agree with the entries, and either no proxy was
      ever probed or every published entry has a runtime. Without a restored snapshot
      there is nothing to publish before the first probe. */
  ghost predicate Inv(env: Env, s: Service, restored: bool) {
    s.cache.Some? ==>
      && Consistent(env, s.cache.value)
      && (s.book.runtime == map[] || Known(env, s.book, s.cache.value.entries))
      && (s.book.runtime == map[] ==> restored)
  }

  /** Inputs as the parser delivers them. */
  predicate Proper(op: Op) { op.Refresh? ==> Typed(op.input) }

  /** If this is the first refresh that goes past its probes, it leaves some target alive and
      so replaces what was restored. */
  ghost predicate OpensWell(env: Env, cfg: Config, s: Service, op: Op)
  {
    op.Refresh? && Proceeds(op.input) && s.book.runtime == map[] ==>
      exists t :: t in op.input.targets && IsLive(env, Step(env, cfg, s, op).book, t)
  }

  /** Records of distinct identities are enough for that. */
  lemma DistinctOpensWell(env: Env, cfg: Config, s: Service, op: Op)
    requires (op.Refresh? ==> DistinctTargets(env, op.input.targets))
    ensures OpensWell(env, cfg, s, op)
  {
    if op.Refresh? && Proceeds(op.input) && s.book.runtime == map[] {
      FirstRefreshPublishes(env, cfg, s, op.input);
      var i :| 0 <= i < |op.input.targets| && Reached(op.input.targets[i].probe);
      assert op.input.targets[i] in op.input.targets;
    }
  }

  lemma StoreGrows(env: Env, cfg: Config, book: Book, input: Input)
    requires Proceeds(input)
    ensures var after := BookAfter(env, cfg, book, input); book.runtime.Keys <= after.runtime.Keys && after.runtime != map[]
  {
    UpdateAllKeys(env, cfg, book, input.targets, input.now);
    StageKeeps(env, cfg, UpdateAll(env, cfg, book, input.targets, input.now), input);
    var i :| 0 <= i < |input.targets| && Reached(input.targets[i].probe);
    assert env.identity(input.targets[i].record) in BookAfter(env, cfg, book, input).runtime;
  }

  lemma RefreshKeepsInv(env: Env, cfg: Config, s: Service, input: Input, restored: bool)
    requires Inv(env, s, restored) && Typed(input)
    requires restored ==> OpensWell(env, cfg, s, Refresh(input))
    ensures Inv(env, Step(env, cfg, s, Refresh(input)), restored)
  {
    if Proceeds(input) {
      var after := Step(env, cfg, s, Refresh(input));
      PublishesIff(env, cfg, s, input);
      PublishedConsistent(env, after.book, input);
      StoreGrows(env, cfg, s.book, input);
    }
  }

  lemma ReprobeKeepsInv(env: Env, cfg: Config, s: Service, op: Op, restored: bool)
    requires Inv(env, s, restored) && op.Reprobe?
    ensures Inv(env, Step(env, cfg, s, op), restored)
  {
    if s.cache.Some? && op.started {
      var records := ReprobeCandidates(s.cache.value.entries);
      ObservedKeys(env, s.book, records, op.seen, op.at);
      if s.book.runtime != map[] {
        RebuiltConsistent(env, op.date, Observed(env, s.book, records, op.seen, op.at).0, s.cache.value);
      }
    }
  }

  lemma EnrichedKnown(env: Env, book: Book, entries: seq<CachedEntry>, find: Finders)
    requires Known(env, book, entries)
    ensures Known(env, book, EnrichedEntries(entries, find))
  {
    var after := EnrichedEntries(entries, find);
    forall e | e in after ensures env.identity(e.entry.record) in book.runtime {
      var i :| 0 <= i < |after| && after[i] == e;
      assert entries[i] in entries;
    }
  }

  lemma EnrichKeepsInv(env: Env, cfg: Config, s: Service, op: Op, restored: bool)
    requires Inv(env, s, restored) && op.Enrich?
    ensures Inv(env, Step(env, cfg, s, op), restored)
  {
    if s.cache.Some? {
      EnrichedConsistent(env, s.cache.value, op.find);
      if s.book.runtime != map[] { EnrichedKnown(env, s.book, s.cache.value.entries, op.find); }
    }
  }

  /** In every reachable state, whatever order refreshes, re-probes and enrichments come
      in, the published snapshot is consistent. */
  lemma {:induction false} SnapshotAlwaysConsistent(env: Env, cfg: Config, evidence: map<string, C.RouteCountries>, restored: Option<CachedData>, ops: seq<Op>)
    requires restored.Some? ==> Consistent(env, restored.value)
    requires forall op :: op in ops ==> Proper(op)
    requires restored.Some? ==> forall i :: 0 <= i < |ops| ==> OpensWell(env, cfg, Exec(env, cfg, evidence, restored, ops[..i]), ops[i])
    ensures Inv(env, Exec(env, cfg, evidence, restored, ops), restored.Some?)
  {
    if ops != [] {
      var p, last := ops[..|ops|-1], ops[|ops|-1];
      forall i | 0 <= i < |p| && restored.Some? ensures OpensWell(env, cfg, Exec(env, cfg, evidence, restored, p[..i]), p[i]) {
        assert p[..i] == ops[..i];
      }
      SnapshotAlwaysConsistent(env, cfg, evidence, restored, p);
      var s := Exec(env, cfg, evidence, restored, p);
      assert last in ops && ops[..|ops|-1] == p;
      match last
      case Refresh(input) => RefreshKeepsInv(env, cfg, s, input, restored.Some?);
      case Reprobe(_, _, _, _) => ReprobeKeepsInv(env, cfg, s, last, restored.Some?);
      case Enrich(_) => EnrichKeepsInv(env, cfg, s, last, restored.Some?);
    }
  }

  /** In every reachable state a plain URL request is answered with the precomputed body,
      and up to the date line that is what the slow path would write; the stored JSON is
      what the slow path writes for the default JSON request. */
  lemma PrecomputedBodyIsFaithful(env: Env, cfg: Config, evidence: map<string, C.RouteCountries>, restored: Option<CachedData>, ops: seq<Op>, profile: Profile)
    requires !profile.Plain?
    requires restored.Some? ==> Consistent(env, restored.value)
    requires forall op :: op in ops ==> Proper(op)
    requires restored.Some? ==> forall i :: 0 <= i < |ops| ==> OpensWell(env, cfg, Exec(env, cfg, evidence, restored, ops[..i]), ops[i])
    ensures var cache := Exec(env, cfg, evidence, restored, ops).cache;
            var options := Options(Url, false, profile, {});
            cache.Some? ==>
              && Fast(cache.value, options)
              && (exists date: Date :: cache.value.output == SlowRender(env, date, cache.value, options).body)
              && forall date: Date :: cache.value.json == SlowRender(env, date, cache.value, Options(Json, true, Russia, {})).body
  {
    SnapshotAlwaysConsistent(env, cfg, evidence, restored, ops);
    var cache := Exec(env, cfg, evidence, restored, ops).cache;
    if cache.Some? { FastPathServesSlowBody(env, cache.value, profile); }
  }

  // ---------------------------------------------------------------- the snapshot and the store

  /** Every published entry says what the store says of its proxy. */
  ghost predicate Synced(env: Env, s: Service) {
    s.cache.Some? ==> forall e :: e in s.cache.value.entries ==> InStep(env, s.book, e)
  }

  predicate InStep(env: Env, book: Book, e: CachedEntry) {
    var key := env.identity(e.entry.record);
    && key in book.runtime && e.countries == book.runtime[key].countries
    && e.directHealthy == book.runtime[key].directHealthy && e.warpHealthy == book.runtime[key].warpHealthy
  }

  /** A refresh that publishes. */
  ghost predicate Publishes(env: Env, cfg: Config, s: Service, op: Op)
  {
    op.Refresh? && Proceeds(op.input) && exists t :: t in op.input.targets && IsLive(env, Step(env, cfg, s, op).book, t)
  }

  /** A refresh that changes the store and publishes nothing: all its routes are DEAD. */
  ghost predicate Silent(env: Env, cfg: Config, s: Service, op: Op)
  {
    op.Refresh? && Proceeds(op.input) && !Publishes(env, cfg, s, op)
  }

  lemma EntriesInStep(env: Env, book: Book, items: seq<Item>)
    requires forall x :: x in items ==> Describes(env, book, x)
    ensures forall e :: e in Entries(env, book, items) ==> InStep(env, book, e)
  {
    EntriesStand(env, book, items);
    var entries := Entries(env, book, items);
    forall e | e in entries ensures InStep(env, book, e) {
      var i :| 0 <= i < |items| && entries[i] == e;
      assert items[i] in items;
    }
  }

  lemma PublishSyncs(env: Env, cfg: Config, s: Service, op: Op)
    requires Publishes(env, cfg, s, op)
    ensures Step(env, cfg, s, op).cache.Some? && Synced(env, Step(env, cfg, s, op))
  {
    var book := Step(env, cfg, s, op).book;
    var live := LiveItems(env, book, op.input.targets);
    LiveItemsAre(env, book, op.input.targets);
    LiveTargetsNone(env, book, op.input.targets);
    PublishedOrder(env, book, op.input.targets, live[0]);
    EntriesInStep(env, book, Ordered(live));
  }

  lemma {:induction false} ObservedUnchanged(env: Env, book: Book, records: seq<Record>, seen: nat -> C.Observation, now: int)
    ensures !Observed(env, book, records, seen, now).1 ==> Observed(env, book, records, seen, now).0 == book
  {
    if records != [] { ObservedUnchanged(env, book, records[..|records|-1], seen, now); }
  }

  lemma ReprobeSyncs(env: Env, s: Service, started: bool, seen: nat -> C.Observation, at: int, date: Date)
    requires Synced(env, s)
    ensures Synced(env, Reprobed(env, s, started, seen, at, date))
  {
    if s.cache.Some? && started {
      var data := s.cache.value;
      var records := ReprobeCandidates(data.entries);
      ObservedUnchanged(env, s.book, records, seen, at);
      ObservedKeys(env, s.book, records, seen, at);
      var book := Observed(env, s.book, records, seen, at).0;
      forall e | e in RebuiltEntries(env, book, data.entries) ensures InStep(env, book, e) {
        var i :| 0 <= i < |data.entries| && RebuiltEntries(env, book, data.entries)[i] == e;
        assert data.entries[i] in data.entries;
      }
    }
  }

  lemma EnrichSyncs(env: Env, s: Service, find: Finders)
    requires Synced(env, s)
    ensures Synced(env, Enriched(s, find))
  {
    if s.cache.Some? {
      var entries := s.cache.value.entries;
      forall e | e in EnrichedEntries(entries, find) ensures InStep(env, s.book, e) {
        var i :| 0 <= i < |entries| && EnrichedEntries(entries, find)[i] == e;
        assert entries[i] in entries;
      }
    }
  }

  lemma StepSyncs(env: Env, cfg: Config, s: Service, op: Op)
    requires Synced(env, s) && s.cache.Some? && !Silent(env, cfg, s, op)
    ensures Synced(env, Step(env, cfg, s, op)) && Step(env, cfg, s, op).cache.Some?
  {
    match op
    case Refresh(input) => if Proceeds(input) { PublishSyncs(env, cfg, s, op); }
    case Reprobe(started, seen, at, date) => ReprobeSyncs(env, s, started, seen, at, date);
    case Enrich(find) => EnrichSyncs(env, s, find);
  }

  /** Some refresh of the run published, and none since has found all its routes DEAD. */
  ghost predicate UpToDate(env: Env, cfg: Config, evidence: map<string, C.RouteCountries>, restored: Option<CachedData>, ops: seq<Op>)
  {
    ops != [] &&
    var p, last := ops[..|ops|-1], ops[|ops|-1];
    var s := Exec(env, cfg, evidence, restored, p);
    Publishes(env, cfg, s, last) || (UpToDate(env, cfg, evidence, restored, p) && !Silent(env, cfg, s, last))
  }

  /** Once a refresh has published, and until one finds all its routes DEAD, the snapshot says
      what the store says, through every refresh, re-probe and enrichment. */
  lemma {:induction false} SnapshotFollowsStore(env: Env, cfg: Config, evidence: map<string, C.RouteCountries>, restored: Option<CachedData>, ops: seq<Op>)
    requires UpToDate(env, cfg, evidence, restored, ops)
    ensures Synced(env, Exec(env, cfg, evidence, restored, ops)) && Exec(env, cfg, evidence, restored, ops).cache.Some?
  {
    var p, last := ops[..|ops|-1], ops[|ops|-1];
    var s := Exec(env, cfg, evidence, restored, p);
    if Publishes(env, cfg, s, last) {
      PublishSyncs(env, cfg, s, last);
    } else {
      SnapshotFollowsStore(env, cfg, evidence, restored, p);
      StepSyncs(env, cfg, s, last);
    }
  }

  /** What the filter does with a published route is decided by the whole history of its
      country observations: those whose outcome was stored before the start, and those of
      every refresh and re-probe since. */
  lemma PublishedRouteFiltered(env: Env, cfg: Config, evidence: map<string, C.RouteCountries>, past: string -> seq<C.Seen>,
                               restored: Option<CachedData>, ops: seq<Op>, e: CachedEntry, warp: bool, excluded: set<string>)
    requires UpToDate(env, cfg, evidence, restored, ops)
    requires Stored(evidence, env.identity(e.entry.record)) == C.RouteRun(past(env.identity(e.entry.record)))
    requires excluded != {} && "" !in excluded
    requires var s := Exec(env, cfg, evidence, restored, ops); s.cache.Some? && e in s.cache.value.entries
    ensures var key := env.identity(e.entry.record);
            C.Decide(C.Families(e.countries, warp), excluded).included
            <==> C.Admitted(past(key) + Sightings(env, cfg, evidence, restored, ops, key), warp, excluded)
  {
    var key := env.identity(e.entry.record);
    var h := Sightings(env, cfg, evidence, restored, ops, key);
    SnapshotFollowsStore(env, cfg, evidence, restored, ops);
    CountriesAreHistory(env, cfg, evidence, restored, ops, key);
    C.RouteGoesOn(past(key), h);
    C.IncludedIff(past(key) + h, warp, excluded);
  }

  // ---------------------------------------------------------------- re-probes and enrichments

  /** The WARP egress of an entry is to be asked for again: the entry is healthy through WARP
      and its IPv4 country is not settled, or its IPv6 country was observed and is not. */
  predicate Doubtful(e: CachedEntry) {
    var v4, v6 := e.countries.warpV4, e.countries.warpV6;
    && e.warpHealthy
    && (|| !v4.available || v4.status != C.Confirmed || v4.country == ""
        || (v6.available && (v6.status != C.Confirmed || v6.country == "")))
  }

  lemma CandidatesSnoc(p: seq<CachedEntry>, e: CachedEntry)
    ensures ReprobeCandidates(p + [e]) == ReprobeCandidates(p) + if Doubtful(e) then [e.entry.record] else []
  {
    assert (p + [e])[..|p|] == p;
  }

  /** The records at these positions, in this order. */
  ghost predicate RecordsAt(records: seq<Record>, places: seq<nat>, entries: seq<CachedEntry>) {
    |records| == |places| && forall i :: 0 <= i < |places| ==> places[i] < |entries| && records[i] == entries[places[i]].entry.record
  }

  /** The positions of the doubtful entries, and the records there. */
  ghost predicate Asks(records: seq<Record>, places: seq<nat>, entries: seq<CachedEntry>) {
    Selects(places, entries, Doubtful) && RecordsAt(records, places, entries)
  }

  lemma AsksSnoc(records: seq<Record>, places: seq<nat>, p: seq<CachedEntry>, e: CachedEntry)
    requires Asks(records, places, p)
    ensures if Doubtful(e) then Asks(records + [e.entry.record], places + [|p|], p + [e]) else Asks(records, places, p + [e])
  {
    SelectsSnoc(places, p, e, Doubtful);
    assert (p + [e])[|p|] == e;
    assert forall k :: 0 <= k < |p| ==> (p + [e])[k] == p[k];
  }

  /** A re-probe asks for exactly the doubtful entries, in order. */
  lemma {:induction false} CandidatesAreDoubtful(entries: seq<CachedEntry>) returns (places: seq<nat>)
    ensures Asks(ReprobeCandidates(entries), places, entries)
  {
    places := [];
    if entries != [] {
      var p, e := entries[..|entries|-1], entries[|entries|-1];
      places := CandidatesAreDoubtful(p);
      CandidatesSnoc(p, e);
      AsksSnoc(ReprobeCandidates(p), places, p, e);
      assert entries == p + [e] && ReprobeCandidates(p) + [] == ReprobeCandidates(p);
      if Doubtful(e) { places := places + [|p|]; }
    }
  }

  /** The exit address of a route after a history: that of the last valid IPv4 observation of
      its kind, or of the last valid IPv6 one if there is none, or none. */
  ghost predicate ExitsAt(h: seq<C.Seen>, warp: bool, ip: C.Address) {
    var v4, v6 := C.OfFamily(h, warp, true), C.OfFamily(h, warp, false);
    if exists i :: C.LastValid(v4, i) then exists i :: C.LastValid(v4, i) && ip == v4[i].what.ip
    else if exists i :: C.LastValid(v6, i) then exists i :: C.LastValid(v6, i) && ip == v6[i].what.ip
    else ip == C.NoAddress
  }

  lemma FamilyAddress(f: C.FamilyResult, h: seq<C.Seen>)
    requires f == C.Track(h)
    ensures f.available && !f.ip.NoAddress? <==> exists i :: C.LastValid(h, i)
    ensures forall i :: C.LastValid(h, i) ==> f.ip == h[i].what.ip
  {
    C.TrackSeen(h);
    if f.available && forall i :: !C.LastValid(h, i) { assert false; }
  }

  lemma ExitFollowsHistory(h: seq<C.Seen>, warp: bool)
    ensures var v4, v6 := C.Family(C.RouteRun(h), warp, true), C.Family(C.RouteRun(h), warp, false);
            ExitsAt(h, warp, ExitAddress(v4, v6))
  {
    C.FamiliesIndependent(h, warp, true);
    C.FamiliesIndependent(h, warp, false);
    FamilyAddress(C.Family(C.RouteRun(h), warp, true), C.OfFamily(h, warp, true));
    FamilyAddress(C.Family(C.RouteRun(h), warp, false), C.OfFamily(h, warp, false));
  }

  /** A published route has the countries of its whole history. */
  lemma PublishedCountries(env: Env, cfg: Config, evidence: map<string, C.RouteCountries>, past: seq<C.Seen>,
                           restored: Option<CachedData>, ops: seq<Op>, e: CachedEntry)
    requires UpToDate(env, cfg, evidence, restored, ops)
    requires Stored(evidence, env.identity(e.entry.record)) == C.RouteRun(past)
    requires var s := Exec(env, cfg, evidence, restored, ops); s.cache.Some? && e in s.cache.value.entries
    ensures e.countries == C.RouteRun(past + Sightings(env, cfg, evidence, restored, ops, env.identity(e.entry.record)))
  {
    var key := env.identity(e.entry.record);
    var h := Sightings(env, cfg, evidence, restored, ops, key);
    SnapshotFollowsStore(env, cfg, evidence, restored, ops);
    CountriesAreHistory(env, cfg, evidence, restored, ops, key);
    C.RouteGoesOn(past, h);
  }

  /** An enrichment changes the findings of the entries and nothing else. */
  lemma EnrichmentFinds(env: Env, cfg: Config, s: Service, find: Finders, i: nat)
    requires s.cache.Some? && i < |s.cache.value.entries|
    ensures var after, e := Step(env, cfg, s, Enrich(find)), s.cache.value.entries[i];
            var direct, warp := ExitAddress(e.countries.directV4, e.countries.directV6), ExitAddress(e.countries.warpV4, e.countries.warpV6);
            && after.book == s.book && after.cache.Some? && |after.cache.value.entries| == |s.cache.value.entries|
            && after.cache.value.entries[i] == e.(direct := Findings(find.intel(direct), find.ports(direct), find.dnsbl(direct)),
                                                  warp := Findings(find.intel(warp), find.ports(warp), find.dnsbl(warp)))
  {}

  /** An enrichment gives every published entry what the look-ups say of the addresses at
      which its history of observations last saw it leave, directly and through WARP. */
  lemma FindingsFollowAddress(env: Env, cfg: Config, evidence: map<string, C.RouteCountries>, past: seq<C.Seen>,
                              restored: Option<CachedData>, ops: seq<Op>, find: Finders, i: nat) returns (direct: C.Address, warp: C.Address)
    requires UpToDate(env, cfg, evidence, restored, ops)
    requires var s := Exec(env, cfg, evidence, restored, ops);
             && s.cache.Some? && i < |s.cache.value.entries|
             && Stored(evidence, env.identity(s.cache.value.entries[i].entry.record)) == C.RouteRun(past)
    ensures var s := Exec(env, cfg, evidence, restored, ops);
            var after, e := Step(env, cfg, s, Enrich(find)), s.cache.value.entries[i];
            var h := past + Sightings(env, cfg, evidence, restored, ops, env.identity(e.entry.record));
            && ExitsAt(h, false, direct) && ExitsAt(h, true, warp)
            && after.cache.Some? && i < |after.cache.value.entries|
            && after.cache.value.entries[i] == e.(direct := Findings(find.intel(direct), find.ports(direct), find.dnsbl(direct)),
                                                  warp := Findings(find.intel(warp), find.ports(warp), find.dnsbl(warp)))
  {
    var s := Exec(env, cfg, evidence, restored, ops);
    var e := s.cache.value.entries[i];
    var h := past + Sightings(env, cfg, evidence, restored, ops, env.identity(e.entry.record));
    assert e in s.cache.value.entries;
    PublishedCountries(env, cfg, evidence, past, restored, ops, e);
    ExitFollowsHistory(h, false);
    ExitFollowsHistory(h, true);
    EnrichmentFinds(env, cfg, s, find, i);
    direct := ExitAddress(e.countries.directV4, e.countries.directV6);
    warp := ExitAddress(e.countries.warpV4, e.countries.warpV6);
  }
}
