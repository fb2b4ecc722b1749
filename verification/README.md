# Verified model of the subscription aggregator

The program fetches proxy subscriptions, reads and deduplicates share links, probes every
proxy through an embedded xray core, keeps a health and country record per proxy, publishes
the live ones as a ranked snapshot, and answers subscription requests from that snapshot.
This Dafny project models the parts with the most state and branching and proves what they
promise over every run. `dafny verify dfyconfig.toml` checks all of it.

## Layout

- `SlotProtocol`, `XrayCore`: the refresh lock and the one-token core slot, as a state
  machine over any number of concurrent tasks, and the two objects that hold the token.
- `Quality`, `Scoring`, `Country`, `Bandwidth`: the recovery machine, aggregation and score,
  country hysteresis with the fail-closed filter, the budgeted rotation. Each is a machine or
  a function with a history specification.
- `Pipeline`: what a refresh, a WARP re-probe and an enrichment refresh do to the runtime
  store, the country evidence and the published snapshot, as functions of the state before.
  `PipelineService` is the object whose methods and loops are proved to compute exactly that.
  `PipelineLaws`, `Measurements`, `Publication` and `Rotation` prove theorems over whole runs
  of these steps; `Snapshot` is the snapshot and the request renderer with its fast path, and
  `Pages` says line by line what a request is answered with. That steps may be
  taken one at a time is what `SlotProtocol.Exclusion` proves of the lock.
- `SourceCache`, `FetchFallback`, `ParseLines`, `Attribution`: the per-source fallback cache,
  the retries through the pool, reading lines, and the two-level deduplication.
- `Text`, `Base64`, `Shadowsocks`, `VMess`: share links, parsed and printed.
- `EnrichmentCache`, `EnrichmentPlan`, `DnsRace`, `Reputation`: the lifetime cache and the
  batch plan, the race of resolvers, the merge of reputation results.
- `Common`, `Sorting`: options, Go's string order, and the properties of Go's sorts.

## Modelling

- Floats are reals and times are integers (nanoseconds); Go's zero time is `None`. `log1p` is
  any strictly increasing function that is 0 at 0. Text is a sequence of Unicode characters,
  and of bytes in `Text`, `Base64`, `Shadowsocks` and `VMess`, where links are taken apart.
- Probe results, fetch results, downloads, the clock and JSON are inputs of steps. The
  identity hash, the naming of entries, share links of other protocols and configuration
  writers are parameters; nothing is assumed of the identity except where a contract says so.
- State in place is modelled in place: the pipeline, the fallback cache, the enrichment cache
  and the core users are classes with `modifies` clauses; map reads in arbitrary order are
  arbitrary choices (`Publisher.ActiveRuntime`).
- `country.StateStore` is always present, as the service opens one before the first refresh.

## Findings

- A failed download stamps only the attempt, so a proxy whose downloads always fail keeps the
  front of the rotation; `Rotation.FailingProxyStarvesTheRest` shows it on pipeline runs. What
  holds whatever fails is an exact account: a waiting proxy gains one place for every download
  that succeeds and none for any other (`Bandwidth.WaitingShrinks`), so it is measured once
  enough succeed (`Rotation.MeasuredOnceEnoughSucceed`).
- The blackhole counter survives DEAD and RECOVERING, so a first death takes two blackholes
  but a later one may take one (`Quality.OneBlackholeAfterRecoveryKills`). When a sample kills
  is exactly `Quality.DiesIff`, in the observations since a recovery `Quality.DiesAgainIff`;
  one blackhole since then is enough exactly if all else is PARTIAL, a first GOOD aside if a
  PARTIAL follows it (`Quality.OneIsEnoughIff`).
- A successful route scores below 95 for up to 15 samples and no further; the configuration
  allows 10 (internal/config/config.go:230).
- The rebuild after a re-probe leaves entries without a runtime out of the texts but keeps
  their health flags; text and entries agree exactly when no such entry is healthy
  (`Publication.RebuiltPageExact`). That never happens if the first refresh past its probes
  leaves a target alive, as it does when its records have distinct identities
  (`Publication.DistinctOpensWell`). The deduplication key keeps the case of the host and the
  identity does not, so the deduplication alone does not ensure that, and
  `Publication.RepeatedIdentityBreaksSnapshot` is a run that ends in a wrong URL body.
- For the same reason, and against the comment at internal/pipeline/attribution.go:21-23, the
  owner of an identity need not be the first source that contributed it
  (`Attribution.SecondSourceTakesOver`; exact condition: `Attribution.OwnerIsFirstIff`).
- `MergeResult` does not always give the type that merging the longer list gives
  (`Reputation.LateMobileIsLost`; exact condition: `Reputation.AddingKeepsTypeIff`).
- VMess links lose REALITY, the insecure flag and a missing header type when printed, once.
- The third attempt of `base64decode` is commented as unpadded but uses the padded encoding
  (internal/parse/parse.go:457-458). Nothing encoded with either alphabet, padded or not, is
  lost by that (`Shadowsocks.LenientRoundTrip`); a text with line breaks in it can be
  (`Shadowsocks.BrokenLineIsLost`; exact condition: `Shadowsocks.MissingAttemptIff`).
- `IsCode` trims its argument but `Observe` only upper-cases it, so `Observe` on its own would
  store a padded code padded (`Country.PaddedCodeIsStored`; exact condition:
  `Country.StoredIsIsoIff`; internal/country/country.go:70-76 and 178-181). The witnesses that
  make the observations all trim first, so the program never does (`Country.ReportsStoreIso`).

## Model

| member | source | states |
|---|---|---|
| SlotProtocol.InvAlways | internal/exitprobe/exitprobe.go:82-97 | In every interleaving of any number of refreshes, re-probes, service checks and enrichment batches, with any cancelled waits and failed starts: free tokens plus slot holders is 1, and the refresh lock has its one owner |
| SlotProtocol.Exclusion | internal/pipeline/pipeline.go:181-216 | No two tasks have a core starting or running at once, and no two write the runtime store or the snapshot at once |
| SlotProtocol.HolderNeverWaits | internal/pipeline/enrichment.go:103-178 | A slot holder is never at the lock or at the slot, its return of the token cannot block, and the deferred second close of an enrichment gateway has nothing left to return |
| SlotProtocol.ProgramSound | internal/pipeline/fetch_fallback.go:81-86 | Every step of the four task programs changes the task's claims exactly as it changes the lock and the slot, and brings the task nearer to its end |
| SlotProtocol.ProgramFlows | internal/pipeline/pipeline.go:181-364 | Where a task can go next is exactly the flow of its kind: refresh, re-probe, service check and enrichment batch, each stated on its own |
| SlotProtocol.OrdinaryStep | internal/pipeline/enrichment.go:103-178 | Where there is a choice the ordinary step leads to the gateway, to the prober and to publishing; a batch keeps its gateway while it looks up and drops it only if it is of no use; only waits for the slot can be cancelled |
| SlotProtocol.Progress | internal/pipeline/pipeline.go:345-364 | While any task is unfinished, some task can take its ordinary next step without any wait being cancelled |
| SlotProtocol.AllTasksFinish | internal/pipeline/pipeline.go:924-928 | Every schedule has at most 15 steps per task, and one that cannot be continued has finished every task with the token back and the lock free |
| SlotProtocol.CoreStepsAgree | internal/exitprobe/gateway.go:32-75 | The protocol steps that take, start, fail, close and stop do to slot and owner flag what the methods of the two core users do |
| XrayCore.StartStopConserve | internal/exitprobe/exitprobe.go:125-191 | Any start, a stop and a second stop conserve the tokens, and a cancelled or failed restart leaves nothing running and nothing owned |
| XrayCore.ExitProber.StartWithProxiesContext | internal/exitprobe/exitprobe.go:125-178 | Gives back a core still running, then takes the token; keeps it only if the core started |
| XrayCore.ExitProber.Stop | internal/exitprobe/exitprobe.go:180-191 | Returns the token if and only if the prober owns it; the send can never meet a full channel |
| XrayCore.FetchGateway.Close | internal/exitprobe/gateway.go:98-107 | Returns the token if and only if the gateway owns it |
| XrayCore.CloseTwice | internal/pipeline/enrichment.go:103-178 | An explicit close followed by the deferred one returns one token |
| Quality.EntersHealthyIff | internal/quality/state.go:32-80 | HEALTHY is entered from another state exactly on the second of two GOOD observations in a row, outside DEAD |
| Quality.OneStep | internal/quality/state.go:32-80 | The next state and the blackhole counter for every state and observation |
| Quality.LatestDeath | internal/quality/state.go:32-80 | While DEAD, DeadAt is the time of the latest death |
| Quality.LeavesDeadIff | internal/quality/state.go:61-66 | DEAD is left exactly on a GOOD at least the cooldown after the latest death, and then to RECOVERING |
| Quality.BlackholeCounter | internal/quality/state.go:38-59 | ConsecutiveBlackholes is the number of blackholes seen in HEALTHY or DEGRADED since the last GOOD seen there |
| Quality.FirstDeathTakesTwoBlackholes | internal/quality/state.go:32-80 | A proxy was ever DEAD if and only if its history has two blackholes with no GOOD between them |
| Quality.DiesIff | internal/quality/state.go:32-80 | Over every history, a sample kills exactly if it is a blackhole seen in RECOVERING, or in DEGRADED with another one seen in HEALTHY or DEGRADED since the last GOOD seen there; deaths and recoveries in between do not matter |
| Quality.DiesAgainIff | internal/quality/state.go:32-80 | After a recovery, in terms of the observations alone: a blackhole kills exactly if no GOOD came after the first sample since and it is not the one right after a first GOOD, or another blackhole came after the last such GOOD |
| Quality.OneIsEnoughIff | internal/quality/state.go:67-77 | The only blackhole since a recovery kills exactly when every other sample since is PARTIAL, a first GOOD aside if a PARTIAL follows it |
| Quality.OneBlackholeAfterRecoveryKills | internal/quality/state.go:67-77 | Concrete history: after a recovery one new blackhole in DEGRADED kills, because the counter survives DEAD and RECOVERING |
| Quality.NoBlackholeNoDeath | internal/quality/state.go:32-80 | A history without blackholes has no death |
| Scoring.Aggregate | internal/quality/metrics.go:24-63 | The loops compute the extremes, the median sample and the mean neighbour distance of the samples, and the loss and reachability flags |
| Scoring.AggregatedMeans | internal/quality/metrics.go:24-34 | Reachable exactly if a round was requested and geolocation or some sample succeeded, a blackhole if neither did; the loss is failures in percent of requests |
| Scoring.ExtremesAttained | internal/quality/metrics.go:36-51 | Least, greatest and reported latency are samples in milliseconds, and the first two bound all samples |
| Scoring.JitterIsMeanDistance | internal/quality/metrics.go:52-61 | Jitter is the way from sample to sample, counted from the front, over one less than their number |
| Scoring.AggregateOrder | internal/quality/metrics.go:24-63 | The extremes bound the reported latency, jitter never exceeds their distance, one sample has no jitter |
| Scoring.MedianSplits | internal/quality/metrics.go:49-51 | The reported latency is one of the samples and splits the sorted samples in the middle |
| Scoring.SuccessBeatsGeoOnly | internal/quality/scoring.go:12-28 | With at most 15 samples any success scores strictly below the geo-only 95, whatever the latencies and the bandwidth |
| Scoring.SixteenSamplesAreTooMany | internal/quality/scoring.go:12-28 | The bound is exact: from 16 samples on two slow successes can reach 95 |
| Scoring.ScoreBounded | internal/quality/scoring.go:12-45 | Raw and smoothed score stay in 0..100 if the previous ones were |
| Scoring.BetterScoresLower | internal/quality/scoring.go:19-28 | A route at least as good in latency, loss, jitter and fresh speed never scores worse, and scores strictly better if it is better in one of them inside its scale |
| Scoring.PriceList | internal/quality/scoring.go:19-28 | What each measurement costs: 35 points from 100 to 1000 ms, 40 for the loss, 15 for jitter up to 300 ms, 5 for no fresh download, 10 for an empty one; inside its scale every unit costs the same |
| Scoring.ScoreMoves | internal/quality/scoring.go:12-35 | An unreachable route keeps its score, one without a sample scores 95, the first score is the raw one, every later one moves 35 percent of the way |
| Scoring.SmoothingMonotone | internal/quality/scoring.go:30-35 | Pointwise ordered raw scores give ordered smoothed scores |
| Scoring.SmoothingForgets | internal/quality/scoring.go:30-35 | At a steady raw score the old smoothed score keeps exactly the weight 0.65^n after n refreshes |
| Country.TrackMeaning | internal/country/country.go:70-113 | After any observations a family's country is the code of the latest adjacent equal pair, or the first code; status is Confirmed exactly when the last valid observation equals it; the candidate count rests at 0 or 1 |
| Country.TrackSeen | internal/country/country.go:75-79 | A family's address, time and code are those of its last valid observation |
| Country.ConfirmedWhenChanged | internal/country/country.go:81-111 | `confirmedAt` is the time of the observation that last changed the settled country |
| Country.FamiliesIndependent | internal/country/country.go:115-133 | Each of the four families of a route is the machine run over its own observations alone |
| Country.Filter | internal/country/country.go:135-176 | The loop decides exactly as the quantified rule over the observed families of the selected route |
| Country.DecisionMeans | internal/country/country.go:135-176 | What each counter of the decision says of the two families of the route, over any evidence: excluded codes, unknown, conflict, and included if none holds |
| Country.IncludedIff | internal/country/country.go:135-176 | For every history and non-empty exclude set a route is included if and only if some family was observed and each observed family's last report is its settled country and is not excluded |
| Country.ReturnTakesTwo | internal/country/country.go:95-111 | A route with an excluded settled country is served again only after two equal, non-excluded reports in a row, the second one new |
| Country.StoredIsIsoIff | internal/country/country.go:70-79 | What Observe stores of a valid observation is an ISO code exactly when the code it is given has no blanks around it |
| Country.PaddedCodeIsStored | internal/country/country.go:70-88 | Concrete observation: " DE" is valid and becomes the country of a new family, blank included |
| Country.ReportsStoreIso | internal/exitprobe/exitprobe.go:600-639 | The witnesses trim and upper-case what they read, so no family ever holds a country, observed country or candidate that is no ISO code |
| Country.ExcludingMoreNeverIncludes | internal/country/country.go:135-176 | Growing the exclude set never re-includes a route |
| Country.ParseCodes | internal/country/country.go:53-68 | The loops return the set of all codes named, or the first part that is no ISO code once trimmed and upper-cased |
| Country.ParsedCodesAreNamed | internal/country/country.go:53-68 | The set holds the trimmed upper-case codes of the parts that are not blank and no other, all ISO; otherwise the first part that is neither blank nor ISO is reported |
| Country.ParsedCodesAreIso | internal/country/country.go:53-68 | A parsed set holds upper-case ISO codes only, so never the blank one |
| Country.NoReprobeIff | internal/country/state.go:97-106 | A WARP route is left alone by the re-probe if and only if its IPv4 egress was observed and the filter finds neither Unknown nor Conflict |
| Bandwidth.SelectBandwidthCandidates | internal/quality/bandwidth.go:16-42 | The loop, sort and truncation choose what the selection function says |
| Bandwidth.SelectionOrderIndependent | internal/quality/bandwidth.go:16-42 | The choice does not depend on the order of the runtimes |
| Bandwidth.SelectionIsLeastPrefix | internal/quality/bandwidth.go:16-42 | Only eligible proxies are chosen, in order, never beyond the byte budget, and none is left out that sorts before a chosen one or while a slot is free |
| Bandwidth.ChoiceMeans | internal/quality/bandwidth.go:16-42 | In the fields of the proxies: reachable, not DEAD and past both waits; never measured first, then longest ago, then by key; one is left out only if the chosen have waited longer and one more download would exceed the budget |
| Common.StrLessIs | internal/quality/bandwidth.go:28-37 | Go's string order in one formula: after a common beginning the first text ends or goes on with the smaller character |
| Bandwidth.ChosenIff | internal/quality/bandwidth.go:16-42 | A proxy is chosen if and only if it is eligible and fewer eligible proxies than there are slots sort before it |
| Bandwidth.PassedOver | internal/quality/bandwidth.go:16-42 | A refresh that passes over an eligible proxy moves exactly the proxies whose downloads succeed from before it to after it, whatever else fails |
| Bandwidth.WaitingShrinks | internal/quality/bandwidth.go:16-42 | While a proxy waits, the proxies before it at the start are those before it now plus one for every download that succeeded since |
| Bandwidth.ChosenOnceEnoughSucceed | internal/quality/bandwidth.go:16-42 | A proxy that stays eligible is chosen no later than in the first refresh by which more downloads have succeeded than proxies sort before it beyond the budget |
| Bandwidth.RotationDoesNotStarve | internal/quality/bandwidth.go:16-42 | If the downloads of floor(ahead/slots) refreshes succeed, a proxy that stays eligible is chosen by the next one |
| Bandwidth.ChosenAgainNoSooner | internal/quality/bandwidth.go:19-26 | Over the refreshes that list a proxy, whatever other proxies come and go, it is chosen again no sooner than RetryAfter after its last attempt and RefreshAfter after its last success |
| PipelineService.Publisher.UpdateRuntime | internal/pipeline/pipeline.go:427-477 | Changes the store and the evidence for one key as the specification of one probe says, and the snapshot not at all |
| PipelineService.Publisher.UpdateBandwidth | internal/pipeline/pipeline.go:490-501 | Stores a measured download and scores again; a missing key changes nothing |
| PipelineService.Publisher.MarkBandwidthAttempt | internal/pipeline/pipeline.go:503-510 | Stamps the attempt of a stored key and nothing else |
| PipelineService.Publisher.ActiveRuntime | internal/pipeline/pipeline.go:479-488 | Whatever order the map is read in: exactly the stored runtimes of the active keys, each once |
| PipelineService.Publisher.MeasureBandwidth | internal/pipeline/pipeline.go:241-263 | The bandwidth stage with its positions and keys, proved to be independent of the order in which the store, the measurements and the probed keys are read |
| PipelineService.Publisher.OutputEntries | internal/pipeline/pipeline.go:512-599 | The live routes stably sorted by rank and score, and the number with geography |
| PipelineService.Publisher.HasReachabilityWitness | internal/pipeline/pipeline.go:601-608 | True if and only if some probe reached the internet or WARP |
| PipelineService.Publisher.Refresh | internal/pipeline/pipeline.go:181-341 | The whole refresh changes store, evidence and snapshot as the specification says, and reports a publication exactly when it went past its probes and some route is not DEAD |
| PipelineService.Publisher.ReprobeWarpCountries | internal/pipeline/pipeline.go:345-397 | The whole re-probe, including the early exits, changes store, evidence and snapshot as specified |
| PipelineService.Publisher.RebuildCachedCountries | internal/pipeline/pipeline.go:399-425 | Rebuilds entries and both texts from the store; entries without a runtime are kept and left out of the texts |
| PipelineService.Publisher.SelectWarpReprobeCandidates | internal/pipeline/pipeline.go:1109-1117 | Exactly the WARP-healthy entries whose egress country is unresolved, in order |
| PipelineService.Publisher.RefreshCachedEnrichment | internal/pipeline/enrichment.go:326-344 | Replaces the three findings of both routes of every cached entry by those of its exit addresses and nothing else |
| PipelineLaws.ProbeMovesState | internal/pipeline/pipeline.go:437-454 | One probe in its own fields: a HEALTHY proxy stays so exactly if samples were requested and four fifths succeeded; it counts a blackhole exactly if it got through neither way; DEAD is left exactly on such a probe 30 minutes after the death |
| PipelineLaws.HealthIsHistory | internal/pipeline/pipeline.go:427-477 | Over every run a proxy is stored if and only if a proceeding refresh probed it, and its health is the recovery machine run over exactly those probes; each sample is read off its probe, GOOD from four fifths of the requested samples on, otherwise PARTIAL if the probe got through directly or by WARP, else a blackhole |
| PipelineLaws.CountriesAreHistory | internal/pipeline/pipeline.go:456-476 | Over every run from any stored evidence, store and evidence both hold that evidence followed by the hysteresis machine over the proxy's refresh and re-probe sightings |
| PipelineLaws.ReachedNeverDead | internal/pipeline/pipeline.go:427-450 | A proxy with direct or WARP reachability in every refresh that counts is never DEAD |
| PipelineLaws.DeadOnlyAfterDoubleBlackhole | internal/pipeline/pipeline.go:427-450 | A DEAD proxy's probes include two that reached nothing with no GOOD one between |
| PipelineLaws.NoWitnessNoChange | internal/pipeline/pipeline.go:227-229 | A refresh whose prober did not start or whose probes all reached nothing changes neither store nor evidence nor snapshot |
| PipelineLaws.WitnesslessRefreshesVanish | internal/pipeline/pipeline.go:227-229 | A run with any number of such refreshes anywhere leads to the state of the run without them |
| PipelineLaws.ScoresStayInRange | internal/pipeline/pipeline.go:454-462 | Over every run raw and smoothed score of every proxy stay in 0..100 |
| PipelineLaws.StageKeeps | internal/pipeline/pipeline.go:490-510 | Measuring bandwidth adds and removes no proxy and leaves state, health, geography and countries alone |
| Measurements.ProbeStores | internal/pipeline/pipeline.go:455-463 | A probe that got through directly stores its metrics with the speed measured before, fresh while the last success is younger than RefreshAfter; any other keeps metrics and score |
| Measurements.ProbeShows | internal/pipeline/pipeline.go:464-469 | A probe stores its health flags, and the locations it found over the old ones |
| Measurements.DownloadIsLast | internal/pipeline/pipeline.go:228-233 | A proxy listed more than once is measured by the download at its last position |
| Measurements.StageMeasures | internal/pipeline/pipeline.go:256-259 | The stage stores for every chosen proxy whose download succeeded exactly its speed, and leaves all other metrics alone |
| Measurements.ScoreIsHistory | internal/pipeline/pipeline.go:456-501 | Over every run: the published score of a proxy is the smoothed raw scores of all metrics stored for it, by probes that got through directly and by downloads since; the raw score is that of the last |
| Publication.PublishedOrder | internal/pipeline/pipeline.go:512-571 | What is published is exactly the live targets, HEALTHY before RECOVERING before DEGRADED and in one state the lower smoothed score first, equals in input order |
| Publication.PublishedBestFirst | internal/pipeline/pipeline.go:565-570 | In the published snapshot no HEALTHY route stands after a RECOVERING or DEGRADED one, no RECOVERING one after a DEGRADED one, and in one state no lower score after a higher |
| Publication.EntriesSay | internal/pipeline/pipeline.go:572-597 | Direct names come from direct locations and WARP names from WARP locations, and an entry carries the findings of its own target |
| Publication.HeaderCounts | internal/pipeline/pipeline.go:520-541 | The header counts the live routes, the others and the locations known |
| Publication.PublishesIff | internal/pipeline/pipeline.go:264-341 | A refresh that proceeds publishes if and only if some route of it is not DEAD; the snapshot then stands for the ordered live routes and its header counts them and the others |
| Publication.PublishedHealthIsProbed | internal/pipeline/pipeline.go:301-331 | A route is published as healthy directly, or through WARP, exactly when its own probe in that refresh got through that way |
| Publication.PublishedRouteFiltered | internal/country/country.go:135-176 | Whether the filter serves a published route is decided by the whole history of its country observations, those stored before the start included, through every later re-probe, enrichment and refresh |
| Publication.SnapshotFollowsStore | internal/pipeline/pipeline.go:264-425 | Once a refresh has published, and until one finds all its routes DEAD, every published entry has the countries and health that the store has |
| Publication.FirstRefreshPublishes | internal/pipeline/pipeline.go:234-269 | One probe does not kill: the first refresh with a witness after start-up always publishes |
| Publication.RepeatedIdentityBreaksSnapshot | internal/pipeline/pipeline.go:231-425 | A concrete run over a restored snapshot: three records of one identity leave it DEAD in the first refresh, nothing is published, and a re-probe then rebuilds a URL body that is at no time the page of its entries |
| Publication.RebuildExact | internal/pipeline/pipeline.go:399-425 | The rebuilt texts are what the rebuilt entries say if and only if no healthy entry lacks a runtime |
| Publication.RebuiltPageExact | internal/pipeline/pipeline.go:399-425 | The rebuilt URL body is, at some time, the page of the rebuilt entries if and only if no directly healthy entry lacks a runtime |
| Publication.RebuildKeeps | internal/pipeline/pipeline.go:399-425 | A rebuild changes the countries and health of entries that have a runtime, and the two texts; header, time, names and findings stay |
| Publication.EnrichedConsistent | internal/pipeline/enrichment.go:326-344 | Refreshing the findings keeps the texts true to the entries |
| Publication.FindingsFollowAddress | internal/pipeline/enrichment.go:326-370 | An enrichment gives every published entry what the look-ups say of the last IPv4 address its whole history saw it leave at, or IPv6 without one, directly and through WARP, and changes nothing else |
| Publication.CandidatesAreDoubtful | internal/pipeline/pipeline.go:1109-1117 | A re-probe asks, in order, for exactly the WARP-healthy entries whose IPv4 country is not settled, or whose IPv6 country was observed and is not |
| Publication.SnapshotAlwaysConsistent | internal/pipeline/pipeline.go:302-425 | In every state reachable by refreshes, re-probes and enrichments the precomputed texts are what the cached entries say, and either nothing was ever probed or every cached entry has a runtime; over a consistent restored snapshot, provided the first refresh that goes past its probes leaves a target alive |
| Publication.DistinctOpensWell | internal/pipeline/pipeline.go:231-269 | Distinct identities in that refresh are enough for the proviso |
| Publication.PrecomputedBodyIsFaithful | internal/subview/view.go:126-167 | In every reachable state a plain URL request is answered from the precomputed body, which up to the date line is what the slow path writes; the stored JSON is what the slow path writes for the default JSON request |
| Snapshot.Render | internal/subview/view.go:126-167 | The fast path exactly under its conditions, otherwise the accumulated slow path with its counters |
| Pages.PageLines | internal/format/format.go:29-50 | A page is its nine header lines, word for word, and in order one link for each of its routes |
| Pages.RequestLists | internal/subview/view.go:126-167 | Every URL request, on the fast path or not, lists in order the link of every entry that is healthy on the route asked for and lets its country pass, and of no other, and counts them in its header |
| Pages.RequestConfigures | internal/subview/view.go:152-166 | Every other request is answered with the configuration, in the format, for the kind of route and with the profile asked for, of the wanted entries in order |
| Pages.RequestReadBack | internal/format/format.go:29-50 | Split at its line breaks, the body of a request gives these lines, if no link holds a break |
| Pages.EveryRequestLists | internal/subview/view.go:126-167 | The same in every reachable state |
| Snapshot.CountersSplit | internal/subview/view.go:139-158 | Served plus filtered are the healthy entries; filtered are exactly those with an unknown country, a conflict or an excluded country, and Unknown and Conflict count theirs |
| Snapshot.ResponseCounts | internal/subview/view.go:126-150 | The counters a client gets: served plus filtered are the healthy routes of the kind asked for, each counter counts its reason; the fast path counts all entries |
| Snapshot.FastPathServesSlowBody | internal/subview/view.go:126-134 | For a consistent snapshot the fast body is the slow body at some time |
| Snapshot.PagesCount | internal/format/format.go:29-50 | Two pages written at any times agree only if they have the same number of routes |
| Rotation.RoundIsChoice | internal/pipeline/pipeline.go:241-250 | What a refresh measures is what its rotation round selects, in whatever order the proxies are listed |
| Rotation.StageStamps | internal/pipeline/pipeline.go:251-262 | Attempts are stamped for every chosen proxy, successes for the measured ones, and no others |
| Rotation.RefreshesRotate | internal/pipeline/pipeline.go:241-263 | After any run, the choices made from a step on over a fixed set of proxies, re-probes and enrichments in between, are a run in the sense of the rotation laws |
| Rotation.MeasuredOnceEnoughSucceed | internal/pipeline/pipeline.go:241-263 | After any run and whatever fails, a proxy that stays eligible over a fixed set is measured no later than in the first refresh by which more downloads have succeeded than proxies sort before it beyond the budget |
| Rotation.EveryProxyIsMeasured | internal/pipeline/pipeline.go:241-263 | No starvation in the pipeline: after any run, if the downloads of the next floor(ahead/slots) refreshes of the same proxies succeed, a proxy that stays eligible is measured by the one after |
| Rotation.FailingProxyStarvesTheRest | internal/pipeline/pipeline.go:243-263 | On every run with one slot in which the first of two reachable proxies never completes a download, every refresh schedules it again and none tries the second |
| Rotation.MeasuredAgainNoSooner | internal/pipeline/pipeline.go:241-263 | Over any run of the pipeline, with proxies added, dropped and added again, no proxy is measured again sooner than RetryAfter after its last attempt, nor sooner than RefreshAfter after its last success |
| SourceCache.Cache.MergeDetailed | internal/fetch/source_cache.go:42-70 | The loop merges each result against the cache left by the ones before it |
| SourceCache.Cache.Merge | internal/fetch/source_cache.go:33-40 | The concatenation of the merged lines |
| SourceCache.CacheHoldsLastGood | internal/fetch/source_cache.go:42-70 | After any merges the cache holds for a source exactly its last non-empty success not cleared since |
| SourceCache.SourcesIndependent | internal/fetch/source_cache.go:42-70 | What the cache holds for a source is a function of the results of that source alone |
| SourceCache.MergeServesHistory | internal/fetch/source_cache.go:42-74 | After any merges each result is served from the history of its own source: itself if it succeeded, nothing after an authoritative 4xx, otherwise the last non-empty success not cleared since and no older than maxAge; order and count are kept |
| SourceCache.AnswersDecide | internal/fetch/source_cache.go:42-74 | In pages and status codes, after any merges: a page serves itself, a 4xx other than 429 nothing, any other failure the last page with lines if it is no older than maxAge and neither a page nor such a 4xx came since |
| SourceCache.AnswerForgets | internal/fetch/source_cache.go:49-61 | A source is forgotten exactly by an empty page or a status from 400 to 499 other than 429 |
| FetchFallback.GatewayCandidates | internal/pipeline/fetch_fallback.go:114-142 | The loop with its two seen sets picks what the specification picks |
| FetchFallback.PickedSpansCountries | internal/pipeline/fetch_fallback.go:108-142 | At most the limit, all directly healthy, no two of one country or identity; a healthy entry is left out only for a clash or for the limit |
| FetchFallback.CandidatesSpan | internal/pipeline/fetch_fallback.go:114-142 | The proxies tried are records of directly healthy published entries, in order, no two leaving in one country or sharing an identity |
| FetchFallback.CountryOfExit | internal/pipeline/fetch_fallback.go:145-162 | The country of an exit is that of IPv4, of IPv6 if IPv4 was never observed; what was seen last, and the settled one if nothing was |
| FetchFallback.RetryFailedFetches | internal/pipeline/fetch_fallback.go:63-106 | Successes are untouched; each failure becomes the first success among its attempts through the gateway's proxies, or stays |
| FetchFallback.RetryOnlyImproves | internal/pipeline/fetch_fallback.go:87-104 | A retried source keeps its URL and succeeds if and only if it or some proxy succeeded |
| FetchFallback.FirstSuccess | internal/pipeline/fetch_fallback.go:87-104 | A retry takes the first attempt that succeeds |
| ParseLines.ParseAllLines | internal/parse/parse.go:23-81 | The loop returns the first record of every key in order, and the counters |
| ParseLines.AcceptedIff | internal/parse/parse.go:28-66 | A line becomes a record exactly if, trimmed, it is not blank, no comment and a link of one of the six prefixes, which its parser reads, to a host that is no placeholder and a port from 1 to 65535 |
| Common.TrimmedAway | internal/parse/parse.go:29 | What is trimmed is blank, all of it and from the ends only |
| ParseLines.ReadKeepsFirst | internal/parse/parse.go:23-81 | What is read is, in order, the record of the first line of every key, and no other |
| ParseLines.SkippedAre | internal/parse/parse.go:23-81 | As many lines are skipped as give no record |
| ParseLines.ReadIsUnique | internal/parse/parse.go:23-91 | No two records share a key, and each is the accepted candidate of some line |
| ParseLines.ReadKeepsKeys | internal/parse/parse.go:67-75 | Every accepted candidate's key is represented |
| ParseLines.LinesAddUp | internal/parse/parse.go:23-81 | Lines = Skipped + Duplicates + records |
| Attribution.AttributeSources | internal/pipeline/attribution.go:24-48 | The nested loops return the counters of every source and the owners as specified |
| Attribution.ReadAppend | internal/pipeline/attribution.go:21-48 | Reading on after some lines is reading the rest by itself and dropping what was known, counters included |
| Attribution.TwoLevelDedupIsFlat | internal/pipeline/attribution.go:21-48 | Dedup per source and then across sources gives the records of one flat pass in the same order, and Skipped, Duplicates and Unique add up to that pass |
| Attribution.SourceAddsUp | internal/pipeline/attribution.go:29-45 | Per source Lines = Skipped + Duplicates + Unique |
| Attribution.OwnerIsLastContributor | internal/pipeline/attribution.go:34-42 | For any keys and identities: an identity is owned by the last source that contributed a unique record of it |
| Attribution.OwnerIsFirstIff | internal/pipeline/attribution.go:21-48 | The owner is the first source that lists the identity if and only if no later source lists it under a key that the first does not have |
| Attribution.SecondSourceTakesOver | internal/pipeline/attribution.go:34-42 | Concrete sources: two that list one identity under different keys leave it to the second |
| Attribution.OwnerIsFirstListing | internal/pipeline/attribution.go:21-48 | Where keys and identities tell the same records apart, the owner is the first source that lists the record |
| Base64.RawRoundTrip | internal/parse/parse.go:444-448 | Unpadded base64 decoding undoes encoding for every byte string and both alphabets (sections 3.2 and 5 of RFC 4648) |
| Base64.PaddedRoundTrip | internal/parse/parse.go:449-456 | Stripping the padding and filling it up again loses nothing |
| Base64.FoobarEncodes | internal/format/format.go:179 | A test vector of section 10 of RFC 4648, in both alphabets |
| Base64.LastCharacters | internal/format/format.go:179 | The last two characters of either alphabet (sections 4 and 5 of RFC 4648) |
| Base64.PadLoop | internal/parse/parse.go:450-453 | The padding loop fills to a multiple of four |
| Text.AtoiOfItoa | internal/parse/parse.go:479-483 | Printed decimal numbers read back |
| Text.SplitJoined | internal/parse/parse.go:474-484 | A printed host and port split into the same two if and only if the host holds no bracket |
| Text.SplitOfJoin | internal/format/format.go:49 | Lines joined and split again are the same lines, if none holds the separator |
| Text.JoinOfSplit | internal/parse/parse.go:356 | A text split and joined again is the same, and no part holds the separator |
| Shadowsocks.Base64Decode | internal/parse/parse.go:444-471 | The four attempts in the code's order |
| Shadowsocks.LenientRoundTrip | internal/parse/parse.go:443-471 | What either alphabet encodes, with or without its padding, is read back |
| Shadowsocks.MissingAttemptIff | internal/parse/parse.go:457-460 | Of the texts that the unpadded standard encoding reads, exactly those are refused that have a `+` or a `/`, a length without line breaks that is no multiple of 4, and a number of line breaks that is none either; all others are read the same |
| Shadowsocks.BrokenLineIsLost | internal/parse/parse.go:457-460 | Concrete text `+A` and a carriage return: one byte to the unpadded standard encoding, refused by the four attempts |
| Shadowsocks.ParseSS | internal/parse/parse.go:335-441 | The hand-written parser computes what the specification of a link says, refusals included |
| Shadowsocks.ShadowsocksRoundTrip | internal/format/format.go:174-185 | Parsing a printed link gives back host, port, method and password, for any password bytes and any port from 1 to 65535, if and only if the method has no colon and the host is non-empty and free of delimiters |
| Shadowsocks.WholeLinkRoundTrip | internal/parse/parse.go:368-404 | A link that is base64 as a whole, in either alphabet, padded or not, with any query and fragment: it gives back host, port, method and password if and only if the method has no colon and the host no `@` and no bracket |
| Shadowsocks.PlainLinkRoundTrip | internal/parse/parse.go:406-412 | A link with plain credentials gives them back, with host and port, if and only if the method has no colon and the host no delimiter |
| Shadowsocks.QueryIsRead | internal/parse/parse.go:346-361 | A query adds exactly its pairs, the later of one key winning and keys without a value blank, except for the method; what is refused without it is refused with it |
| Shadowsocks.SlashIsIgnored | internal/parse/parse.go:365-366 | A slash behind the address is ignored, with any query and fragment behind it |
| Shadowsocks.DefaultCipher | internal/format/format.go:174-178 | A record without a method is printed with `aes-256-gcm` and read back with it |
| VMess.ParseVMess | internal/parse/parse.go:152-275 | The steps of the parser compute the specified record or refusal, with the port truncated as a float |
| VMess.ReconstructVMess | internal/format/format.go:89-159 | The steps of the printer, with the removal of empty strings, compute the specified object |
| VMess.PrintedMeans | internal/format/format.go:89-159 | Every member of a printed object in terms of the record, defaults included, and none of them blank |
| VMess.ParsedIff | internal/parse/parse.go:163-199 | An object is refused exactly for a string member that is no string, a version other than 2, or an extra without canonical form |
| VMess.ParsedMeans | internal/parse/parse.go:201-275 | Host, port, id, name and every parameter of a parsed link in terms of the members of the object, defaults included |
| VMess.PortIs | internal/parse/parse.go:192-199 | A port that is a number is cut toward zero, a decimal text is read, anything else is 0 |
| VMess.InsecuredMeans | internal/parse/parse.go:486-499 | The three spellings of the insecure flag become one, set if any had a value, and no other parameter changes |
| VMess.AgainIs | internal/format/format.go:89-159 | Printing and parsing keeps host, port, id, name and every parameter except security, headerType and insecure, whose new values are stated |
| VMess.LossyAtMostOnce | internal/format/format.go:89-159 | On any parsed record, printing and parsing twice gives the same record as once |
| VMess.LosslessIff | internal/parse/parse.go:208-275 | Printing and parsing loses nothing if and only if the link is not REALITY, does not allow insecure, and has a header type or the transport none |
| VMess.EnvelopeRoundTrip | internal/format/format.go:155-159 | The unpadded base64 envelope gives back every object that the JSON reader reads back |
| VMess.EitherAlphabet | internal/parse/parse.go:152-163 | An envelope in either base64 alphabet, padded or not, is read as what is in it |
| VMess.LinkRoundTrip | internal/parse/parse.go:152-163 | Parsing the printed link is parsing the printed object |
| EnrichmentCache.SetAt | internal/enrichment/cache.go:43-50 | Stores under a non-blank key of a cache with a lifetime and does nothing otherwise, nil included |
| EnrichmentCache.GetAt | internal/enrichment/cache.go:56-71 | Value and state of a key, nil cache included |
| EnrichmentCache.CacheHoldsLastCheck | internal/enrichment/cache.go:43-50 | After any history a cache holds the last check of every non-blank key, and nothing at all without a lifetime |
| EnrichmentCache.StateIsAge | internal/enrichment/cache.go:56-71 | After any history: missing if blank, never checked or without a lifetime; otherwise stale once the last check is as old as the lifetime, and fresh before |
| EnrichmentCache.StaleKeysAt | internal/enrichment/cache.go:77-121 | The loop, the seen set and the sort compute the due keys |
| EnrichmentCache.StaleKeysAreDue | internal/enrichment/cache.go:77-121 | For any keys with repeats and blanks: exactly the non-blank keys that are not fresh, each once, missing first, then oldest, then by key |
| EnrichmentCache.CoverageAt | internal/enrichment/cache.go:127-150 | The loop counts the states of the distinct non-blank keys |
| EnrichmentCache.CoverageIs | internal/enrichment/cache.go:127-150 | Each counter is the number of different non-blank keys in that state |
| EnrichmentCache.CoverageCountsDue | internal/enrichment/cache.go:77-150 | As many keys are due as are counted Stale or Missing, and Eligible = Fresh + Stale + Missing |
| EnrichmentCache.DueOrderIndependent | internal/enrichment/cache.go:77-121 | Order and multiplicity of the keys asked for do not matter |
| EnrichmentPlan.PlanBatch | internal/pipeline/enrichment.go:74-102 | Each address is planned once, exactly when some cache in use has no fresh finding for it, for exactly those look-ups; CachedHits is the rest; the plan is in the order in which the three due lists first name the addresses, and the batch is a prefix of it |
| DnsRace.NeverCrashes | internal/dns/racing.go:40-66 | In no interleaving is anything sent on the closed channel, the channel closed twice, or the wait group below zero |
| DnsRace.RaceResult | internal/dns/racing.go:32-71 | The lookup fails if and only if every racer failed, and otherwise returns some successful racer's answer |
| DnsRace.EverybodyTerminates | internal/dns/racing.go:53-71 | Every schedule is finite, and one that cannot go on has every racer gone, the channel closed and the caller returned |
| Reputation.Merge | internal/ipintel/ipintel.go:195-252 | The loops compute the merged flags, type, level, score, sources and texts |
| Reputation.RiskIs | internal/ipintel/ipintel.go:307-320 | No data without results; risky exactly if a provider says abuser or TOR; suspicious if not, but one says proxy, VPN or data centre; clean otherwise |
| Reputation.ScoreIs | internal/ipintel/ipintel.go:322-348 | 40 points for abuser, 35 for TOR, 25 each for proxy and VPN, 10 for data centre, 5 for crawler, each once and at most 100 in all, or the highest score given if that is higher |
| Reputation.TypeIs | internal/ipintel/ipintel.go:254-305 | Hosting exactly if a provider says so or a data centre; otherwise the first of mobile, CDN, business, education and government that one says; otherwise residential |
| Reputation.PlaceIsFirst | internal/ipintel/ipintel.go:234-250 | Each text of the place is that of the first result that has one |
| Reputation.SourcesInOrder | internal/ipintel/ipintel.go:215-218 | Sources stand in the order in which they were first named |
| Reputation.MergeResult | internal/ipintel/ipintel.go:351-398 | The steps of adding one result |
| Reputation.ArrivalOrderIrrelevant | internal/ipintel/ipintel.go:195-296 | Neither order nor repetition of the providers' results matters for flags, type, level, score and the set of sources |
| Reputation.AddingIsMerging | internal/ipintel/ipintel.go:351-398 | Adding one result to what was looked up, the zero value included, agrees with merging the longer list in flags, level, score, sources and texts if and only if the result names its source or a nameless one is listed |
| Reputation.AddingAllIsMerging | internal/ipintel/ipintel.go:157-398 | However named results are divided between the first look-up and later additions, those fields are the same |
| Reputation.AddingKeepsTypeIff | internal/ipintel/ipintel.go:254-398 | The type agrees too if and only if the result says hosting, or: over the zero value the new type is listed or residential; over residential it is listed, residential or blank; over any other it does not outrank the old one |
| Reputation.LateMobileIsLost | internal/ipintel/ipintel.go:362-368 | Concrete input: a business address of which a later provider says mobile stays business, while merging both says mobile |

## Left out

- HTTP, xray, DNS clients, SOCKS5, files, and JSON and YAML encoding: foreign code or I/O.
- VLESS, Trojan and Hysteria2 links: they delegate to Go's `net/url`.
- Xray, sing-box and Clash writers, metrics rendering, service checkers and name filters: field copying and string matching.
- SHA-256 and the naming of entries: parameters; uniqueness of names is not claimed and is false in general.
- The enrichment look-ups themselves (`enrichExitIntel`, `startCheckPlaceViaPool`, `startProxyCheckViaPool`), the service-check cache and the DNS cache.
- Float rounding, integer overflow of counters, and the compare-and-swap guards in main: the protocol already allows more tasks than they do.
- Panics of a task, and the prober's own mutex: each prober and gateway object is local to one task.
- Result counters of a refresh other than the published header, `Labels`, and the record of the last provider outcomes.
- XrayCore.ExitProber.StartWithProxiesContext: the outcome of the wait and of the start is an input; tags and configuration are not modelled.
- XrayCore.FetchGateway.constructor: models a successful start only; a cancelled or failed one creates no object and is a step of `SlotProtocol`.
- PipelineService.Publisher.Refresh: fetching, merging, parsing and resolving end in the list of resolved records, which is an input; reputation, port and service findings of a record are opaque inputs.
- PipelineService.Publisher.RefreshCachedEnrichment: the look-up of an address in each of the three caches is a parameter, and findings are opaque texts.
- Publication.PrecomputedBodyIsFaithful: says nothing of `EntryCount`, which on the fast path counts all cached entries, healthy or not (`Snapshot.Render` states both counts).
- Country.ParseCodes: a character whose upper case is not one of A to Z is left alone, which no ISO code can show; a text that is not valid UTF-8 does not occur.
- Shadowsocks.ShadowsocksRoundTrip: the fragment is not compared, since it is printed escaped and not unescaped on reading; the escape function is a parameter.
- VMess.ParseVMess: parameters and JSON members that the code names are enumerations, all others are one case; a port number is a real, without infinities; the original line is not kept.
- VMess.LossyAtMostOnce: the canonical form of an xHTTP `extra` object is a parameter that is idempotent and never empty or `null`.
- VMess.EnvelopeRoundTrip: that the JSON reader reads back what the writer wrote is an assumption on the object at hand.
- ParseLines.ParseAllLines: the five link parsers, the deduplication key and the identity are parameters.
- DnsRace.RaceResult: what each racer finds is fixed beforehand, cancellation included; the private-address flag and the shortcut for literal addresses are left out.
- Reputation.Merge: the address and the time of the check are left out.
