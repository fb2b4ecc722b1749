/** What the pipeline remembers about one proxy (internal/quality/runtime.go). */
module ProxyRuntime {
  import opened Common
  import Country
  import Quality
  import Scoring

  datatype Geo = Geo(countryCode: string, city: string, isp: string, ip: string)

  datatype Runtime = Runtime(
    key: string, state: Quality.State, reachable: bool, directHealthy: bool, warpHealthy: bool,
    metrics: Scoring.Metrics, rawScore: real, scoreEWMA: real, hasScore: bool,
    stateData: Quality.RuntimeState,
    lastAttempt: Option<int>, lastSuccess: Option<int>, lastReachable: Option<int>,
    geo: Option<Geo>, warpGeo: Option<Geo>, countries: Country.RouteCountries)

  /** Go's zero `Runtime{}`. */
  const NO_RUNTIME := Runtime(
    "", Quality.Unset, false, false, false, Scoring.NO_METRICS, 0.0, 0.0, false,
    Quality.RuntimeState(Quality.Unset, 0, 0, 0), None, None, None, None, None, Country.NO_ROUTE)
}

/** Budgeted rotating choice of the proxies to measure (internal/quality/bandwidth.go). */
module Bandwidth {
  import opened Common
  import opened Sorting
  import opened ProxyRuntime
  import Quality

  datatype Settings = Settings(bytesPerProbe: int, budgetBytes: int, refreshAfter: int, retryAfter: int) {
    predicate Valid() { 0 < bytesPerProbe <= budgetBytes && 0 < refreshAfter && 0 < retryAfter }

    function Slots(): nat
      requires Valid()
    {
      budgetBytes / bytesPerProbe
    }
  }

  /** The settings that the configuration accepts at start-up. */
  type Config = c: Settings | c.Valid() witness Settings(1, 1, 1, 1)

  predicate Due(last: Option<int>, now: int, wait: int) {
    last.None? || now - last.value >= wait
  }

  predicate Eligible(r: Runtime, now: int, cfg: Config) {
    && r.reachable && !r.state.Dead?
    && Due(r.lastAttempt, now, cfg.retryAfter) && Due(r.lastSuccess, now, cfg.refreshAfter)
  }

  /** Never measured first, then the oldest measurement, then the key. */
  predicate Before(a: Runtime, b: Runtime) {
    if a.lastSuccess.None? != b.lastSuccess.None? then a.lastSuccess.None?
    else if a.lastSuccess != b.lastSuccess then a.lastSuccess.value < b.lastSuccess.value
    else StrLess(a.key, b.key)
  }

  function EligibleOf(entries: seq<Runtime>, now: int, cfg: Config): (r: seq<Runtime>)
    ensures forall x :: x in r <==> x in entries && Eligible(x, now, cfg)
  {
    if entries == [] then []
    else EligibleOf(entries[..|entries|-1], now, cfg)
         + if Eligible(entries[|entries|-1], now, cfg) then [entries[|entries|-1]] else []
  }

  function Take<T>(s: seq<T>, n: nat): (r: seq<T>)
    ensures |r| == if |s| > n then n else |s|
  {
    if |s| > n then s[..n] else s
  }

  function Selected(entries: seq<Runtime>, now: int, cfg: Config): seq<Runtime>
  {
    Take(StableSort(Before, EligibleOf(entries, now, cfg)), cfg.Slots())
  }

  lemma EligibleOfSnoc(entries: seq<Runtime>, i: nat, now: int, cfg: Config)
    requires i < |entries|
    ensures EligibleOf(entries[..i+1], now, cfg)
            == EligibleOf(entries[..i], now, cfg) + if Eligible(entries[i], now, cfg) then [entries[i]] else []
  {
    assert entries[..i+1][..i] == entries[..i];
  }

  method SelectBandwidthCandidates(entries: seq<Runtime>, now: int, cfg: Config) returns (eligible: seq<Runtime>)
    ensures eligible == Selected(entries, now, cfg)
  {
    eligible := [];
    for i := 0 to |entries|
      invariant eligible == EligibleOf(entries[..i], now, cfg)
    {
      var entry := entries[i];
      EligibleOfSnoc(entries, i, now, cfg);
      if !entry.reachable || entry.state.Dead? || (entry.lastAttempt.Some? && now - entry.lastAttempt.value < cfg.retryAfter) {
        continue;
      }
      if entry.lastSuccess.Some? && now - entry.lastSuccess.value < cfg.refreshAfter {
        continue;
      }
      eligible := eligible + [entry];
    }
    assert entries[..|entries|] == entries;
    eligible := StableSort(Before, eligible);
    var max := cfg.budgetBytes / cfg.bytesPerProbe;
    if |eligible| > max {
      eligible := eligible[..max];
    }
  }

  predicate DistinctKeys(entries: seq<Runtime>) {
    forall i, j :: 0 <= i < j < |entries| ==> entries[i].key != entries[j].key
  }

  lemma BeforeWeakOrder()
    ensures WeakOrder(Before)
  {
    forall x: Runtime ensures !Before(x, x) { StrLessTotal(x.key, x.key); }
    forall x: Runtime, y: Runtime, z: Runtime | Before(x, y) && Before(y, z) ensures Before(x, z) {
      if x.lastSuccess == y.lastSuccess == z.lastSuccess { StrLessTransitive(x.key, y.key, z.key); }
    }
    forall x: Runtime, y: Runtime, z: Runtime | Before(x, z) ensures Before(x, y) || Before(y, z) {
      if x.lastSuccess == y.lastSuccess == z.lastSuccess {
        StrLessTotal(x.key, y.key);
        StrLessTotal(y.key, z.key);
        if StrLess(y.key, x.key) { StrLessTransitive(y.key, x.key, z.key); }
      }
    }
  }

  lemma Comparable(x: Runtime, y: Runtime)
    requires x.key != y.key
    ensures Before(x, y) || Before(y, x)
    ensures !(Before(x, y) && Before(y, x))
  {
    StrLessTotal(x.key, y.key);
  }

  lemma {:induction false} EligibleOfKeepsOrder(entries: seq<Runtime>, now: int, cfg: Config)
    requires DistinctKeys(entries)
    ensures DistinctKeys(EligibleOf(entries, now, cfg))
  {
    if entries != [] {
      var p := entries[..|entries|-1];
      EligibleOfKeepsOrder(p, now, cfg);
      var e := EligibleOf(p, now, cfg);
      forall i | 0 <= i < |e| ensures e[i].key != entries[|entries|-1].key {
        assert e[i] in p;
      }
    }
  }

  lemma {:induction false} EligibleOfMultiset(a: seq<Runtime>, now: int, cfg: Config, x: Runtime)
    ensures multiset(EligibleOf(a, now, cfg))[x] == if Eligible(x, now, cfg) then multiset(a)[x] else 0
  {
    if a != [] {
      assert a == a[..|a|-1] + [a[|a|-1]];
      EligibleOfMultiset(a[..|a|-1], now, cfg, x);
    }
  }

  lemma DistinctIsTotal(e: seq<Runtime>)
    requires DistinctKeys(e)
    ensures TotalOn(Before, e)
  {
    forall x, y | x in e && y in e && x != y ensures Before(x, y) || Before(y, x) {
      var i :| 0 <= i < |e| && e[i] == x;
      var j :| 0 <= j < |e| && e[j] == y;
      Comparable(x, y);
    }
  }

  lemma SortedEligible(entries: seq<Runtime>, now: int, cfg: Config)
    ensures var s := StableSort(Before, EligibleOf(entries, now, cfg));
            && Sorted(Before, s)
            && multiset(s) == multiset(EligibleOf(entries, now, cfg))
            && forall x :: x in s <==> x in entries && Eligible(x, now, cfg)
  {
    var e := EligibleOf(entries, now, cfg);
    BeforeWeakOrder();
    StableSortSorts(Before, e);
    assert forall x :: x in StableSort(Before, e) <==> x in multiset(StableSort(Before, e));
    assert forall x :: x in e <==> x in multiset(e);
  }

  /** The choice does not depend on the order in which the map of runtimes was read. */
  lemma SelectionOrderIndependent(a: seq<Runtime>, b: seq<Runtime>, now: int, cfg: Config)
    requires DistinctKeys(a) && multiset(a) == multiset(b)
    ensures Selected(a, now, cfg) == Selected(b, now, cfg)
  {
    var ea, eb := EligibleOf(a, now, cfg), EligibleOf(b, now, cfg);
    forall x ensures multiset(ea)[x] == multiset(eb)[x] {
      EligibleOfMultiset(a, now, cfg, x);
      EligibleOfMultiset(b, now, cfg, x);
    }
    assert multiset(ea) == multiset(eb);
    BeforeWeakOrder();
    StableSortSorts(Before, ea);
    StableSortSorts(Before, eb);
    EligibleOfKeepsOrder(a, now, cfg);
    DistinctIsTotal(ea);
    var sa := StableSort(Before, ea);
    assert forall x :: x in sa ==> x in multiset(sa);
    assert forall x :: x in ea <==> x in multiset(ea);
    assert TotalOn(Before, sa);
    SortedUnique(Before, sa, StableSort(Before, eb));
  }

  /** The choice is exactly the least eligible prefix: eligible entries only, in order,
      as many as the budget allows, none left out that sorts before a chosen one; and
      the scheduled downloads never exceed the byte budget. */
  lemma SelectionIsLeastPrefix(entries: seq<Runtime>, now: int, cfg: Config)
    requires DistinctKeys(entries)
    ensures var s := Selected(entries, now, cfg);
            && Sorted(Before, s)
            && |s| * cfg.bytesPerProbe <= cfg.budgetBytes
            && (forall x :: x in s ==> x in entries && Eligible(x, now, cfg))
            && (forall x :: x in entries && Eligible(x, now, cfg) && x !in s ==>
                  |s| == cfg.Slots() && forall y :: y in s ==> Before(y, x))
  {
    SortedEligible(entries, now, cfg);
    var all := StableSort(Before, EligibleOf(entries, now, cfg));
    var s := Selected(entries, now, cfg);
    assert s <= all;
    SlotsFitBudget(|s|, cfg);
    forall x, y | x in entries && Eligible(x, now, cfg) && x !in s && y in s ensures Before(y, x) {
      assert x in all && y in all;
      CutAfter(all, |s|, x, y);
      SameKeySame(entries, x, y);
      Comparable(y, x);
    }
  }

  /** What is cut off does not sort before what is kept. */
  lemma CutAfter(all: seq<Runtime>, n: nat, x: Runtime, y: Runtime)
    requires Sorted(Before, all) && n <= |all| && x in all && x !in all[..n] && y in all[..n]
    ensures !Before(x, y)
  {
    var i :| 0 <= i < |all| && all[i] == x;
    var j :| 0 <= j < n && all[..n][j] == y;
    assert forall k :: 0 <= k < n ==> all[..n][k] == all[k] && all[k] in all[..n];
    assert all[j] == y && j < i;
  }

  /** Nothing forbids measuring this proxy now: it is reachable and not DEAD, its last attempt
      is at least RetryAfter ago and its last success at least RefreshAfter, if it has any. */
  predicate MayMeasure(r: Runtime, now: int, cfg: Config) {
    && r.reachable && r.state != Quality.Dead
    && (r.lastAttempt == None || r.lastAttempt.value + cfg.retryAfter <= now)
    && (r.lastSuccess == None || r.lastSuccess.value + cfg.refreshAfter <= now)
  }

  /** `a` has waited longer than `b`: never measured, or measured earlier, or the same and
      of the lower key. */
  predicate WaitsLonger(a: Runtime, b: Runtime) {
    || (a.lastSuccess == None && b.lastSuccess != None)
    || (a.lastSuccess != None && b.lastSuccess != None && a.lastSuccess.value < b.lastSuccess.value)
    || (a.lastSuccess == b.lastSuccess && StrLess(a.key, b.key))
  }

  lemma WaitsLongerIs(a: Runtime, b: Runtime, now: int, cfg: Config)
    ensures Before(a, b) <==> WaitsLonger(a, b)
    ensures Eligible(a, now, cfg) <==> MayMeasure(a, now, cfg)
  {}

  lemma OneSlotMore(cfg: Config)
    ensures (cfg.Slots() + 1) * cfg.bytesPerProbe > cfg.budgetBytes
  {}

  /** The choice in terms of the proxies: those that may be measured, longest waiting first,
      as many as the byte budget pays for. One that may be measured is left out only if all
      the chosen ones have waited longer and one more download would exceed the budget. */
  lemma ChoiceMeans(entries: seq<Runtime>, now: int, cfg: Config)
    requires DistinctKeys(entries)
    ensures var s := Selected(entries, now, cfg);
            && (forall x :: x in s ==> x in entries && MayMeasure(x, now, cfg))
            && (forall i, j :: 0 <= i < j < |s| ==> WaitsLonger(s[i], s[j]))
            && |s| * cfg.bytesPerProbe <= cfg.budgetBytes
            && forall x :: x in entries && MayMeasure(x, now, cfg) && x !in s ==>
                 (|s| + 1) * cfg.bytesPerProbe > cfg.budgetBytes && forall y :: y in s ==> WaitsLonger(y, x)
  {
    var s := Selected(entries, now, cfg);
    SelectionIsLeastPrefix(entries, now, cfg);
    SelectedDistinct(entries, now, cfg);
    OneSlotMore(cfg);
    forall x, y ensures (Before(x, y) <==> WaitsLonger(x, y)) && (Eligible(x, now, cfg) <==> MayMeasure(x, now, cfg)) { WaitsLongerIs(x, y, now, cfg); }
    forall i, j | 0 <= i < j < |s| ensures WaitsLonger(s[i], s[j]) {
      Comparable(s[i], s[j]);
      assert !Before(s[j], s[i]);
    }
  }

  lemma SameKeySame(entries: seq<Runtime>, x: Runtime, y: Runtime)
    requires DistinctKeys(entries) && x in entries && y in entries && x != y
    ensures x.key != y.key
  {
    var i :| 0 <= i < |entries| && entries[i] == x;
    var j :| 0 <= j < |entries| && entries[j] == y;
  }

  lemma SlotsFitBudget(n: nat, cfg: Config)
    requires n <= cfg.Slots()
    ensures n * cfg.bytesPerProbe <= cfg.budgetBytes
  {
    assert cfg.Slots() * cfg.bytesPerProbe <= cfg.budgetBytes;
    assert (cfg.Slots() - n) * cfg.bytesPerProbe >= 0;
  }

  // ---------------------------------------------------------------- whole runs

  /** One refresh: the active runtimes when the choice is made, its time, and the keys
      whose download succeeded. */
  datatype Round = Round(entries: seq<Runtime>, now: int, measured: set<string>)

  predicate Chosen(r: Round, i: nat, cfg: Config)
    requires i < |r.entries|
  {
    r.entries[i] in Selected(r.entries, r.now, cfg)
  }

  /** The next refresh sees the same proxies. A chosen one has its attempt stamped, and
      its success too if measured; everything else about a proxy may have changed. */
  predicate Follows(a: Round, b: Round, cfg: Config)
  {
    && |a.entries| == |b.entries| && a.now < b.now
    && forall i :: 0 <= i < |a.entries| ==>
         var x, y := a.entries[i], b.entries[i];
         && y.key == x.key
         && y.lastAttempt == (if Chosen(a, i, cfg) then Some(a.now) else x.lastAttempt)
         && y.lastSuccess == (if Chosen(a, i, cfg) && x.key in a.measured then Some(a.now) else x.lastSuccess)
  }

  predicate IsRun(rounds: seq<Round>, cfg: Config)
  {
    && (forall n :: 0 <= n < |rounds| ==> DistinctKeys(rounds[n].entries))
    && (forall n :: 0 < n < |rounds| ==> Follows(rounds[n-1], rounds[n], cfg))
    && (rounds != [] ==> forall x :: x in rounds[0].entries && x.lastSuccess.Some? ==> x.lastSuccess.value < rounds[0].now)
  }

  /** Proxies that sort before proxy `i`. */
  function AheadSet(entries: seq<Runtime>, i: nat): set<int>
    requires i < |entries|
  {
    set j | 0 <= j < |entries| && Before(entries[j], entries[i])
  }

  function Ahead(entries: seq<Runtime>, i: nat): nat
    requires i < |entries|
  {
    |AheadSet(entries, i)|
  }

  function Positions(entries: seq<Runtime>, s: seq<Runtime>): set<int> {
    set j | 0 <= j < |entries| && entries[j] in s
  }

  lemma OneMorePosition(entries: seq<Runtime>, p: seq<Runtime>, k: nat)
    requires DistinctKeys(entries) && k < |entries|
    ensures Positions(entries, p + [entries[k]]) == Positions(entries, p) + {k}
  {
    forall j ensures j in Positions(entries, p + [entries[k]]) <==> j in Positions(entries, p) || j == k {
      if 0 <= j < |entries| && entries[j] == entries[k] { assert j == k; }
    }
  }

  lemma {:induction false} PositionsCount(entries: seq<Runtime>, s: seq<Runtime>)
    requires DistinctKeys(entries) && DistinctKeys(s) && forall x :: x in s ==> x in entries
    ensures |Positions(entries, s)| == |s|
  {
    if s == [] {
      assert Positions(entries, s) == {};
    } else {
      var p, last := s[..|s|-1], s[|s|-1];
      assert last in s;
      var k :| 0 <= k < |entries| && entries[k] == last;
      PositionsCount(entries, p);
      OneMorePosition(entries, p, k);
      assert s == p + [last];
      assert last !in p;
    }
  }

  lemma SortedDistinct(e: seq<Runtime>, s: seq<Runtime>)
    requires DistinctKeys(e) && multiset(s) == multiset(e)
    ensures DistinctKeys(s)
  {
    assert NoRepeat(e);
    forall i, j | 0 <= i < j < |s| ensures s[i].key != s[j].key {
      assert s[i] in multiset(s) && s[j] in multiset(s);
      if s[i] == s[j] {
        TwiceInSeq(s, i, j);
        OnceInNoRepeat(e, s[i]);
      } else {
        SameKeySame(e, s[i], s[j]);
      }
    }
  }

  lemma SelectedDistinct(entries: seq<Runtime>, now: int, cfg: Config)
    requires DistinctKeys(entries)
    ensures DistinctKeys(Selected(entries, now, cfg))
  {
    EligibleOfKeepsOrder(entries, now, cfg);
    SortedEligible(entries, now, cfg);
    SortedDistinct(EligibleOf(entries, now, cfg), StableSort(Before, EligibleOf(entries, now, cfg)));
  }

  /** The proxies that are eligible and sort before proxy `i`. */
  function RivalSet(r: Round, i: nat, cfg: Config): set<int>
    requires i < |r.entries|
  {
    set j | 0 <= j < |r.entries| && Before(r.entries[j], r.entries[i]) && Eligible(r.entries[j], r.now, cfg)
  }

  lemma ChosenHasFewRivals(r: Round, i: nat, cfg: Config)
    requires DistinctKeys(r.entries) && i < |r.entries| && Chosen(r, i, cfg)
    ensures Eligible(r.entries[i], r.now, cfg) && |RivalSet(r, i, cfg)| < cfg.Slots()
  {
    var s := Selected(r.entries, r.now, cfg);
    SelectionIsLeastPrefix(r.entries, r.now, cfg);
    SelectedDistinct(r.entries, r.now, cfg);
    PositionsCount(r.entries, s);
    var places := Positions(r.entries, s);
    StrLessTotal(r.entries[i].key, r.entries[i].key);
    forall j | j in RivalSet(r, i, cfg) ensures j in places - {i} {
      Comparable(r.entries[j], r.entries[i]);
    }
    SubsetSize(RivalSet(r, i, cfg), places - {i});
  }

  lemma PassedOverHasRivals(r: Round, i: nat, cfg: Config)
    requires DistinctKeys(r.entries) && i < |r.entries|
    requires Eligible(r.entries[i], r.now, cfg) && !Chosen(r, i, cfg)
    ensures |Selected(r.entries, r.now, cfg)| == cfg.Slots()
    ensures Positions(r.entries, Selected(r.entries, r.now, cfg)) <= RivalSet(r, i, cfg)
    ensures |RivalSet(r, i, cfg)| >= cfg.Slots()
  {
    var s := Selected(r.entries, r.now, cfg);
    SelectionIsLeastPrefix(r.entries, r.now, cfg);
    SelectedDistinct(r.entries, r.now, cfg);
    PositionsCount(r.entries, s);
    assert r.entries[i] in r.entries;
    SubsetSize(Positions(r.entries, s), RivalSet(r, i, cfg));
  }

  /** The exact condition of one refresh: a proxy is chosen if and only if it is eligible and
      fewer eligible proxies than there are slots sort before it. */
  lemma ChosenIff(r: Round, i: nat, cfg: Config)
    requires DistinctKeys(r.entries) && i < |r.entries|
    ensures Chosen(r, i, cfg) <==> Eligible(r.entries[i], r.now, cfg) && |RivalSet(r, i, cfg)| < cfg.Slots()
  {
    if Chosen(r, i, cfg) {
      ChosenHasFewRivals(r, i, cfg);
    } else if Eligible(r.entries[i], r.now, cfg) {
      PassedOverHasRivals(r, i, cfg);
    }
  }

  /** The proxies whose scheduled download succeeds. */
  function SuccessSet(r: Round, cfg: Config): set<int>
  {
    set j | 0 <= j < |r.entries| && Chosen(r, j, cfg) && r.entries[j].key in r.measured
  }

  function Successes(r: Round, cfg: Config): nat
  {
    |SuccessSet(r, cfg)|
  }

  /** A refresh that passes over an eligible proxy moves exactly the proxies it measures
      from before it to after it, and nothing the other way; failed downloads move nobody. */
  lemma PassedOver(a: Round, b: Round, i: nat, cfg: Config)
    requires DistinctKeys(a.entries) && Follows(a, b, cfg) && i < |a.entries|
    requires forall x :: x in a.entries && x.lastSuccess.Some? ==> x.lastSuccess.value < a.now
    requires Eligible(a.entries[i], a.now, cfg) && !Chosen(a, i, cfg)
    ensures Ahead(b.entries, i) + Successes(a, cfg) == Ahead(a.entries, i)
  {
    PassedOverHasRivals(a, i, cfg);
    var moved := SuccessSet(a, cfg);
    forall j | j in moved ensures j in AheadSet(a.entries, i) {
      assert j in Positions(a.entries, Selected(a.entries, a.now, cfg));
    }
    forall j ensures j in AheadSet(b.entries, i) <==> j in AheadSet(a.entries, i) - moved {
      if 0 <= j < |a.entries| {
        assert a.entries[i] in a.entries;
        assert j in moved ==> b.entries[j].lastSuccess == Some(a.now);
      }
    }
    assert AheadSet(b.entries, i) == AheadSet(a.entries, i) - moved;
  }

  /** Every success on record is in the past. */
  lemma {:induction false} SuccessesInPast(rounds: seq<Round>, n: nat, cfg: Config)
    requires IsRun(rounds, cfg) && n < |rounds|
    ensures forall x :: x in rounds[n].entries && x.lastSuccess.Some? ==> x.lastSuccess.value < rounds[n].now
  {
    if n > 0 {
      SuccessesInPast(rounds, n - 1, cfg);
      assert Follows(rounds[n-1], rounds[n], cfg);
      forall x | x in rounds[n].entries && x.lastSuccess.Some? ensures x.lastSuccess.value < rounds[n].now {
        var j :| 0 <= j < |rounds[n].entries| && rounds[n].entries[j] == x;
        assert rounds[n-1].entries[j] in rounds[n-1].entries;
      }
    }
  }

  /** Downloads that succeeded in the first `n` refreshes. */
  function Total(rounds: seq<Round>, n: nat, cfg: Config): nat
    requires n <= |rounds|
  {
    if n == 0 then 0 else Total(rounds, n - 1, cfg) + Successes(rounds[n-1], cfg)
  }

  /** Proxy `i` is eligible and passed over in the first `n` refreshes. */
  ghost predicate Waits(rounds: seq<Round>, n: nat, i: nat, cfg: Config)
    requires n <= |rounds|
  {
    forall m :: 0 <= m < n ==> |rounds[m].entries| > i && Eligible(rounds[m].entries[i], rounds[m].now, cfg) && !Chosen(rounds[m], i, cfg)
  }

  /** Exact accounting, whatever fails: while a proxy waits, the number of proxies before it
      falls by one for every download that succeeds, and by nothing else. */
  lemma {:induction false} WaitingShrinks(rounds: seq<Round>, n: nat, i: nat, cfg: Config)
    requires IsRun(rounds, cfg) && n < |rounds| && |rounds[n].entries| > i && Waits(rounds, n, i, cfg)
    ensures |rounds[0].entries| > i
    ensures Ahead(rounds[n].entries, i) + Total(rounds, n, cfg) == Ahead(rounds[0].entries, i)
  {
    if n > 0 {
      assert |rounds[n-1].entries| > i;
      WaitingShrinks(rounds, n - 1, i, cfg);
      SuccessesInPast(rounds, n - 1, cfg);
      assert Follows(rounds[n-1], rounds[n], cfg);
      PassedOver(rounds[n-1], rounds[n], i, cfg);
    }
  }

  /** A proxy that has waited through refresh `n` had room for all successes so far and for
      a full budget besides before it. */
  lemma StillWaiting(rounds: seq<Round>, n: nat, i: nat, cfg: Config)
    requires IsRun(rounds, cfg) && n < |rounds| && Waits(rounds, n + 1, i, cfg)
    ensures |rounds[0].entries| > i
    ensures Total(rounds, n, cfg) + cfg.Slots() <= Ahead(rounds[0].entries, i)
  {
    assert |rounds[n].entries| > i;
    WaitingShrinks(rounds, n, i, cfg);
    PassedOverHasRivals(rounds[n], i, cfg);
    SubsetSize(RivalSet(rounds[n], i, cfg), AheadSet(rounds[n].entries, i));
  }

  /** A proxy that stays eligible is chosen no later than in the first refresh by which more
      downloads have succeeded than sort before it beyond the budget; how many others
      fail does not matter. */
  lemma ChosenOnceEnoughSucceed(rounds: seq<Round>, n: nat, i: nat, cfg: Config) returns (m: nat)
    requires IsRun(rounds, cfg) && n < |rounds|
    requires forall k :: 0 <= k <= n ==> |rounds[k].entries| > i && Eligible(rounds[k].entries[i], rounds[k].now, cfg)
    requires Total(rounds, n, cfg) + cfg.Slots() > Ahead(rounds[0].entries, i)
    ensures m <= n && Chosen(rounds[m], i, cfg)
  {
    m := 0;
    while m < n && !Chosen(rounds[m], i, cfg)
      invariant m <= n && Waits(rounds, m, i, cfg)
    {
      m := m + 1;
    }
    if !Chosen(rounds[m], i, cfg) { StillWaiting(rounds, n, i, cfg); }
  }

  /** All downloads of the first `n` refreshes succeed. */
  ghost predicate AllMeasured(rounds: seq<Round>, n: nat, cfg: Config)
    requires n <= |rounds|
  {
    forall k :: 0 <= k < n ==> Measures(rounds[k], cfg)
  }

  predicate Measures(r: Round, cfg: Config)
  {
    forall x :: x in Selected(r.entries, r.now, cfg) ==> x.key in r.measured
  }

  lemma FullRound(r: Round, i: nat, cfg: Config)
    requires DistinctKeys(r.entries) && i < |r.entries| && Measures(r, cfg)
    requires Eligible(r.entries[i], r.now, cfg) && !Chosen(r, i, cfg)
    ensures Successes(r, cfg) == cfg.Slots()
  {
    var s := Selected(r.entries, r.now, cfg);
    PassedOverHasRivals(r, i, cfg);
    SelectionIsLeastPrefix(r.entries, r.now, cfg);
    SelectedDistinct(r.entries, r.now, cfg);
    PositionsCount(r.entries, s);
    assert SuccessSet(r, cfg) == Positions(r.entries, s);
  }

  lemma {:induction false} FullRounds(rounds: seq<Round>, n: nat, i: nat, cfg: Config)
    requires IsRun(rounds, cfg) && n <= |rounds| && AllMeasured(rounds, n, cfg) && Waits(rounds, n, i, cfg)
    ensures Total(rounds, n, cfg) == n * cfg.Slots()
  {
    if n > 0 {
      FullRounds(rounds, n - 1, i, cfg);
      assert |rounds[n-1].entries| > i;
      FullRound(rounds[n-1], i, cfg);
      OneMoreTime(n, cfg.Slots());
    }
  }

  lemma OneMoreTime(n: nat, x: nat)
    requires n > 0
    ensures n * x == (n - 1) * x + x
  {}

  /** Waiting through floor(ahead / slots) refreshes without failures is the most there is. */
  lemma NobodyWaitsLonger(rounds: seq<Round>, i: nat, n: nat, cfg: Config)
    requires IsRun(rounds, cfg) && n < |rounds| && AllMeasured(rounds, n, cfg) && |rounds[0].entries| > i
    requires n == Ahead(rounds[0].entries, i) / cfg.Slots()
    ensures !Waits(rounds, n + 1, i, cfg)
  {
    if Waits(rounds, n + 1, i, cfg) {
      var total, slots, ahead := Total(rounds, n, cfg), cfg.Slots(), Ahead(rounds[0].entries, i);
      FullRounds(rounds, n, i, cfg);
      StillWaiting(rounds, n, i, cfg);
      PastQuotient(ahead, slots);
      assert false;
    }
  }

  /** No starvation: if the downloads of floor(ahead / slots) refreshes succeed, where
      `ahead` counts the proxies that sort before it at the start, a proxy that stays
      eligible is measured by the refresh after them. */
  lemma RotationDoesNotStarve(rounds: seq<Round>, i: nat, n: nat, cfg: Config) returns (m: nat)
    requires IsRun(rounds, cfg) && n < |rounds| && AllMeasured(rounds, n, cfg)
    requires forall k :: 0 <= k <= n ==> |rounds[k].entries| > i && Eligible(rounds[k].entries[i], rounds[k].now, cfg)
    requires n == Ahead(rounds[0].entries, i) / cfg.Slots()
    ensures m <= n && Chosen(rounds[m], i, cfg)
  {
    NobodyWaitsLonger(rounds, i, n, cfg);
    m :| 0 <= m < n + 1 && Chosen(rounds[m], i, cfg);
  }

  lemma PastQuotient(a: nat, b: nat)
    requires b > 0
    ensures a / b * b + b > a
  {}

  lemma {:induction false} SubsetSize(a: set<int>, b: set<int>)
    requires a <= b
    ensures |a| <= |b|
  {
    assert |b| == |a| + |b - a| by { assert b == a + (b - a); }
  }

  lemma FirstOfTwo(a: Runtime, b: Runtime, now: int, cfg: Config)
    requires cfg.Slots() == 1
    requires Eligible(a, now, cfg) && Eligible(b, now, cfg) && Before(a, b) && !Before(b, a)
    ensures Selected([a, b], now, cfg) == [a]
  {
    assert [a, b][..1] == [a] && [a][..0] == [];
    assert EligibleOf([a], now, cfg) == [a];
    assert EligibleOf([a, b], now, cfg) == [a, b];
    assert [a, b][1..] == [b] && [b][1..] == [];
    assert StableSort(Before, [b]) == [b];
    assert StableSort(Before, [a, b]) == [a, b];
  }

  /** One proxy in one refresh that lists it; the refreshes that do not are passed over. */
  datatype Visit = Visit(entry: Runtime, now: int, chosen: bool, measured: bool)

  /** The stamps that the visits of one proxy leave and find. */
  predicate IsTrack(visits: seq<Visit>, cfg: Config) {
    && (forall n :: 0 <= n < |visits| && visits[n].chosen ==> Eligible(visits[n].entry, visits[n].now, cfg))
    && forall n :: 0 < n < |visits| ==> Continues(visits[n-1], visits[n])
  }

  predicate Continues(a: Visit, b: Visit) {
    && a.now <= b.now
    && b.entry.lastAttempt == (if a.chosen then Some(a.now) else a.entry.lastAttempt)
    && b.entry.lastSuccess == (if a.chosen && a.measured then Some(a.now) else a.entry.lastSuccess)
  }

  lemma {:induction false} AttemptRemembered(visits: seq<Visit>, m: nat, n: nat, cfg: Config)
    requires IsTrack(visits, cfg) && m < n < |visits| && visits[m].chosen
    ensures visits[m].now <= visits[n].now
    ensures visits[n].entry.lastAttempt.Some? && visits[n].entry.lastAttempt.value >= visits[m].now
    ensures visits[m].measured ==> visits[n].entry.lastSuccess.Some? && visits[n].entry.lastSuccess.value >= visits[m].now
  {
    assert Continues(visits[n-1], visits[n]);
    if n - 1 > m {
      AttemptRemembered(visits, m, n - 1, cfg);
    }
  }

  /** Whatever other proxies come and go, the same proxy is chosen again no sooner than
      RetryAfter after its last attempt and RefreshAfter after its last success. */
  lemma ChosenAgainNoSooner(visits: seq<Visit>, m: nat, n: nat, cfg: Config)
    requires IsTrack(visits, cfg) && m < n < |visits| && visits[m].chosen && visits[n].chosen
    ensures visits[n].now - visits[m].now >= cfg.retryAfter
    ensures visits[m].measured ==> visits[n].now - visits[m].now >= cfg.refreshAfter
  {
    AttemptRemembered(visits, m, n, cfg);
  }
}
