/** Refetching failed subscriptions through proxies of the pool
    (internal/pipeline/fetch_fallback.go): which proxies are tried, and what becomes of the
    fetched results. */
module FetchFallback {
  import opened Common
  import opened Records
  import opened Snapshot
  import C = Country
  import SC = SourceCache

  function DirectExitCountry(r: C.RouteCountries): string {
    if r.directV4.observedCountry != "" then r.directV4.observedCountry
    else if r.directV4.country != "" then r.directV4.country
    else if r.directV6.observedCountry != "" then r.directV6.observedCountry
    else if r.directV6.country != "" then r.directV6.country
    else "unknown"
  }

  /** A published entry as the choice sees it. */
  datatype Exit = Exit(record: Record, healthy: bool, country: string, id: string)

  function Seen(env: Env, e: CachedEntry): Exit {
    Exit(e.entry.record, e.directHealthy, DirectExitCountry(e.countries), env.identity(e.entry.record))
  }

  function ExitsOf(env: Env, entries: seq<CachedEntry>): (r: seq<Exit>)
    ensures |r| == |entries|
  {
    seq(|entries|, i requires 0 <= i < |entries| => Seen(env, entries[i]))
  }

  predicate Clashes(a: Exit, picked: seq<Exit>) {
    exists b :: b in picked && (b.country == a.country || b.id == a.id)
  }

  /** The healthy entries that bring a new country and a new identity, at most `limit`. */
  function Picked(options: seq<Exit>, limit: nat): seq<Exit> {
    if options == [] then []
    else
      var before, last := Picked(options[..|options|-1], limit), options[|options|-1];
      if |before| < limit && last.healthy && !Clashes(last, before) then before + [last] else before
  }

  function RecordsOf(picked: seq<Exit>): (r: seq<Record>)
    ensures |r| == |picked|
  {
    seq(|picked|, i requires 0 <= i < |picked| => picked[i].record)
  }

  lemma {:induction false} FullStaysFull(options: seq<Exit>, n: nat, limit: nat)
    requires n <= |options| && |Picked(options[..n], limit)| >= limit
    ensures Picked(options, limit) == Picked(options[..n], limit)
  {
    if n == |options| {
      assert options[..n] == options;
    } else {
      var p := options[..|options|-1];
      assert p[..n] == options[..n];
      FullStaysFull(p, n, limit);
    }
  }

  lemma ClashesSnoc(a: Exit, picked: seq<Exit>, b: Exit)
    ensures Clashes(a, picked + [b]) <==> Clashes(a, picked) || b.country == a.country || b.id == a.id
  {
    assert forall x :: x in picked + [b] <==> x in picked || x == b;
  }

  function Ids(picked: seq<Exit>): set<string> { set x | x in picked :: x.id }

  function Countries(picked: seq<Exit>): set<string> { set x | x in picked :: x.country }

  /** One more entry: what the two sets of seen texts say about it. */
  lemma PickedStep(options: seq<Exit>, i: nat, limit: nat)
    requires i < |options| && |Picked(options[..i], limit)| < limit
    ensures var picked, x := Picked(options[..i], limit), options[i];
            var longer := picked + [x];
            && Picked(options[..i+1], limit)
               == (if x.healthy && x.country !in Countries(picked) && x.id !in Ids(picked) then longer else picked)
            && Ids(longer) == Ids(picked) + {x.id} && Countries(longer) == Countries(picked) + {x.country}
            && RecordsOf(longer) == RecordsOf(picked) + [x.record]
  {
    assert options[..i+1][..i] == options[..i];
    var picked, x := Picked(options[..i], limit), options[i];
    assert forall y :: y in picked + [x] <==> y in picked || y == x;
    assert Clashes(x, picked) <==> x.country in Countries(picked) || x.id in Ids(picked);
  }

  method GatewayCandidates(env: Env, cache: Option<CachedData>, limit: nat) returns (records: seq<Record>)
    requires limit > 0
    ensures records == if cache.None? then [] else RecordsOf(Picked(ExitsOf(env, cache.value.entries), limit))
  {
    records := [];
    if cache.None? { return; }
    var options := ExitsOf(env, cache.value.entries);
    ghost var picked: seq<Exit> := [];
    var seenIdentity: set<string>, seenCountry: set<string> := {}, {};
    for i := 0 to |options|
      invariant picked == Picked(options[..i], limit) && records == RecordsOf(picked) && |picked| < limit
      invariant seenIdentity == Ids(picked) && seenCountry == Countries(picked)
    {
      var entry := options[i];
      PickedStep(options, i, limit);
      if !entry.healthy || entry.country in seenCountry || entry.id in seenIdentity {
        continue;
      }
      seenIdentity := seenIdentity + {entry.id};
      seenCountry := seenCountry + {entry.country};
      records := records + [entry.record];
      picked := picked + [entry];
      if |records| >= limit {
        FullStaysFull(options, i + 1, limit);
        return;
      }
    }
    assert options[..|options|] == options;
  }

  /** What the choice guarantees: at most `limit` healthy entries, no two of one country or
      identity; and a healthy entry is left out only for a country or identity already
      chosen, or because the limit was reached. */
  lemma {:induction false} PickedSpansCountries(options: seq<Exit>, limit: nat)
    ensures var picked := Picked(options, limit);
            && |picked| <= limit
            && (forall x :: x in picked ==> x in options && x.healthy)
            && (forall i, j :: 0 <= i < j < |picked| ==> picked[i].country != picked[j].country && picked[i].id != picked[j].id)
            && (forall x :: x in options && x.healthy ==> |picked| == limit || Clashes(x, picked))
  {
    if options != [] {
      var p, last := options[..|options|-1], options[|options|-1];
      PickedSpansCountries(p, limit);
      var before, picked := Picked(p, limit), Picked(options, limit);
      assert forall x :: x in options <==> x in p || x == last;
      if picked != before {
        forall x | x in options && x.healthy ensures |picked| == limit || Clashes(x, picked) { ClashesSnoc(x, before, last); }
      }
    }
  }

  // ---------------------------------------------------------------- the retries

  /** The outcome of the one attempt to fetch result `idx` through the t-th proxy. */
  type Attempts = (nat, nat) -> SC.FetchResult

  /** The first success among the tags, if any. */
  function Recovered(attempt: Attempts, idx: nat, tags: nat): Option<SC.FetchResult> {
    if tags == 0 then None
    else
      var before := Recovered(attempt, idx, tags - 1);
      if before.Some? then before
      else if attempt(idx, tags - 1).status == "ok" then Some(attempt(idx, tags - 1)) else None
  }

  function Retried(attempt: Attempts, idx: nat, r: SC.FetchResult, tags: nat): SC.FetchResult {
    if r.status == "ok" then r
    else match Recovered(attempt, idx, tags)
      case None => r
      case Some(better) => better
  }

  lemma {:induction false} FirstSuccessStays(attempt: Attempts, idx: nat, k: nat, tags: nat)
    requires k <= tags && Recovered(attempt, idx, k).Some?
    ensures Recovered(attempt, idx, tags) == Recovered(attempt, idx, k)
  {
    if k < tags { FirstSuccessStays(attempt, idx, k, tags - 1); }
  }

  /** `tags` is the number of proxies the gateway runs. */
  method RetryFailedFetches(attempt: Attempts, results: seq<SC.FetchResult>, tags: nat) returns (fetched: seq<SC.FetchResult>)
    ensures |fetched| == |results|
    ensures forall i :: 0 <= i < |results| ==> fetched[i] == Retried(attempt, i, results[i], tags)
  {
    fetched := results;
    var failed: seq<nat> := [];
    for i := 0 to |fetched|
      invariant forall j :: j in failed <==> 0 <= j < i && fetched[j].status != "ok"
      invariant forall a :: 0 <= a < |failed| ==> failed[a] < i
      invariant forall a, b :: 0 <= a < b < |failed| ==> failed[a] < failed[b]
    {
      if fetched[i].status != "ok" { failed := failed + [i]; }
    }
    for n := 0 to |failed|
      invariant |fetched| == |results|
      invariant forall j :: 0 <= j < |results| ==>
        fetched[j] == if j in failed[..n] then Retried(attempt, j, results[j], tags) else results[j]
    {
      var idx := failed[n];
      assert idx in failed && failed[..n+1] == failed[..n] + [idx];
      assert idx !in failed[..n];
      for t := 0 to tags
        invariant Recovered(attempt, idx, t).None?
        invariant fetched[idx] == results[idx] && |fetched| == |results|
        invariant forall j :: 0 <= j < |results| ==>
          fetched[j] == if j in failed[..n] then Retried(attempt, j, results[j], tags) else results[j]
      {
        var result := attempt(idx, t);
        if result.status == "ok" {
          FirstSuccessStays(attempt, idx, t + 1, tags);
          fetched := fetched[idx := result];
          break;
        }
      }
    }
    assert failed[..|failed|] == failed;
  }

  lemma {:induction false} RecoveredIs(attempt: Attempts, idx: nat, tags: nat)
    ensures Recovered(attempt, idx, tags).Some? <==> exists t: nat :: t < tags && attempt(idx, t).status == "ok"
    ensures Recovered(attempt, idx, tags).Some? ==>
              exists t: nat :: t < tags && Recovered(attempt, idx, tags) == Some(attempt(idx, t)) && attempt(idx, t).status == "ok"
  {
    if tags > 0 { RecoveredIs(attempt, idx, tags - 1); }
  }

  /** A retry never turns a success into a failure, keeps the source, and succeeds exactly
      when the source or some proxy did. */
  lemma RetryOnlyImproves(attempt: Attempts, idx: nat, r: SC.FetchResult, tags: nat)
    requires forall t: nat :: attempt(idx, t).url == r.url
    ensures Retried(attempt, idx, r, tags).url == r.url
    ensures Retried(attempt, idx, r, tags).status == "ok" <==> r.status == "ok" || exists t: nat :: t < tags && attempt(idx, t).status == "ok"
    ensures r.status == "ok" ==> Retried(attempt, idx, r, tags) == r
  {
    RecoveredIs(attempt, idx, tags);
  }

  /** A retry takes the first attempt that succeeds. */
  lemma {:induction false} FirstSuccess(attempt: Attempts, idx: nat, tags: nat, t: nat)
    requires t < tags && attempt(idx, t).status == "ok" && forall u: nat :: u < t ==> attempt(idx, u).status != "ok"
    ensures Recovered(attempt, idx, tags) == Some(attempt(idx, t))
  {
    if t == tags - 1 {
      RecoveredIs(attempt, idx, t);
    } else {
      FirstSuccess(attempt, idx, tags - 1, t);
    }
  }

  /** The country at which an entry leaves directly: of IPv4, and of IPv6 if IPv4 was never
      observed; what was seen last, and the settled one if nothing was. */
  lemma CountryOfExit(r: C.RouteCountries)
    ensures r.directV4.observedCountry != "" ==> DirectExitCountry(r) == r.directV4.observedCountry
    ensures r.directV4.observedCountry == "" && r.directV4.country != "" ==> DirectExitCountry(r) == r.directV4.country
    ensures r.directV4 == C.EMPTY && r.directV6.observedCountry != "" ==> DirectExitCountry(r) == r.directV6.observedCountry
    ensures r.directV4 == C.EMPTY && r.directV6.observedCountry == "" && r.directV6.country != "" ==> DirectExitCountry(r) == r.directV6.country
    ensures r.directV4 == C.EMPTY && r.directV6 == C.EMPTY ==> DirectExitCountry(r) == "unknown"
  {}

  /** The picked exits are those at these positions, in order. */
  ghost predicate PickedAt(picked: seq<Exit>, places: seq<nat>, options: seq<Exit>) {
    && |places| == |picked|
    && (forall i :: 0 <= i < |places| ==> places[i] < |options| && picked[i] == options[places[i]])
    && forall i, j :: 0 <= i < j < |places| ==> places[i] < places[j]
  }

  lemma PickedAtSnoc(picked: seq<Exit>, places: seq<nat>, p: seq<Exit>, x: Exit)
    requires PickedAt(picked, places, p)
    ensures PickedAt(picked, places, p + [x]) && PickedAt(picked + [x], places + [|p|], p + [x])
  {
    assert (p + [x])[|p|] == x;
    assert forall k :: 0 <= k < |p| ==> (p + [x])[k] == p[k];
  }

  lemma {:induction false} PickedPlaces(options: seq<Exit>, limit: nat) returns (places: seq<nat>)
    ensures PickedAt(Picked(options, limit), places, options)
  {
    places := [];
    if options != [] {
      var p, last := options[..|options|-1], options[|options|-1];
      places := PickedPlaces(p, limit);
      PickedAtSnoc(Picked(p, limit), places, p, last);
      assert options == p + [last];
      if |Picked(p, limit)| < limit && last.healthy && !Clashes(last, Picked(p, limit)) { places := places + [|p|]; }
    }
  }

  /** The proxies tried are records of directly healthy entries, in order, no two of which
      leave in one country or share an identity. */
  lemma CandidatesSpan(env: Env, entries: seq<CachedEntry>, limit: nat) returns (places: seq<nat>)
    ensures var records := RecordsOf(Picked(ExitsOf(env, entries), limit));
            && |places| == |records| <= limit
            && (forall i :: 0 <= i < |places| ==> places[i] < |entries| && entries[places[i]].directHealthy && records[i] == entries[places[i]].entry.record)
            && (forall i, j :: 0 <= i < j < |places| ==>
                  && places[i] < places[j]
                  && DirectExitCountry(entries[places[i]].countries) != DirectExitCountry(entries[places[j]].countries)
                  && env.identity(records[i]) != env.identity(records[j]))
  {
    var options := ExitsOf(env, entries);
    PickedSpansCountries(options, limit);
    places := PickedPlaces(options, limit);
    forall i | 0 <= i < |places| ensures Picked(options, limit)[i] == Seen(env, entries[places[i]]) && Picked(options, limit)[i].healthy {
      assert Picked(options, limit)[i] in Picked(options, limit);
    }
  }
}
