/** The published snapshot and how a request is answered from it
    (internal/subview/view.go, internal/format/format.go). */
module Snapshot {
  import opened Common
  import opened Sorting
  import opened ProxyRuntime
  import opened Records
  import Text
  import C = Country
  import Q = Quality
  import S = Scoring

  datatype RenamedEntry = RenamedEntry(record: Record, name: string)

  datatype Meta = Meta(
    fetched: int, parsed: int, skipped: int, duplicates: int, alive: int, dead: int,
    sourcesOK: int, sourcesFailed: int, geoAvailable: int, geoTotal: int)

  /** Reputation, port and DNSBL findings for one exit address, as opaque texts. */
  datatype Findings = Findings(intel: string, ports: string, dnsbl: string)

  /** The look-ups of one address in the reputation, port and DNSBL caches. */
  datatype Finders = Finders(intel: C.Address -> string, ports: C.Address -> string, dnsbl: C.Address -> string) {
    function At(ip: C.Address): Findings { Findings(intel(ip), ports(ip), dnsbl(ip)) }
  }

  datatype CachedEntry = CachedEntry(
    entry: RenamedEntry, warpEntry: RenamedEntry, countries: C.RouteCountries,
    directHealthy: bool, warpHealthy: bool,
    direct: Findings, warp: Findings, services: string, warpServices: string)

  datatype CachedData = CachedData(
    output: string, json: string, entries: seq<CachedEntry>, meta: Meta, lastRefresh: int)

  /** A formatted time: one line. */
  type Date = s: string | '\n' !in s

  datatype Format = Url | Json | Singbox | Clash

  datatype Profile = NoneGiven | Russia | Plain

  datatype Options = Options(format: Format, warp: bool, profile: Profile, exclude: set<string>)

  datatype Response = Response(body: string, filtered: nat, unknown: nat, conflict: nat, entryCount: nat)

  /** Code that is not modelled: the hash identity of a record, the naming of the i-th of
      a list of routes, the share link of a record, the configuration writers, log1p. */
  datatype Env = Env(
    identity: Record -> string,
    naming: (seq<(Record, Option<Geo>, bool)>, nat) -> string,
    link: (Record, string) -> string,
    config: (Format, seq<RenamedEntry>, Meta, bool, Profile) -> string,
    log1p: S.Log1p)

  // ---------------------------------------------------------------- rendering

  function Links(env: Env, entries: seq<RenamedEntry>): seq<string> {
    if entries == [] then [] else [env.link(entries[0].record, entries[0].name)] + Links(env, entries[1..])
  }

  const TITLE := "# profile-title: Proxy Subscription Parser"
  const UPDATE := "# profile-update-interval: 1"
  const DATE_LABEL := "# Date/Time: "
  const COUNT_LABEL := "# Количество: "

  function Header(date: Date, meta: Meta): seq<string> {
    [TITLE,
     UPDATE,
     DATE_LABEL + date,
     COUNT_LABEL + Text.FormatInt(meta.alive),
     "# Sources: " + Text.FormatInt(meta.sourcesOK) + " ok, " + Text.FormatInt(meta.sourcesFailed) + " failed",
     "# Parsed: " + Text.FormatInt(meta.parsed) + " valid, " + Text.FormatInt(meta.skipped) + " skipped, "
     + Text.FormatInt(meta.duplicates) + " duplicates",
     "# Probed: " + Text.FormatInt(meta.alive + meta.dead) + " total, " + Text.FormatInt(meta.alive) + " alive, "
     + Text.FormatInt(meta.dead) + " dead",
     "# Geo: available for " + Text.FormatInt(meta.geoAvailable) + "/" + Text.FormatInt(meta.geoTotal),
     "---"]
  }

  /** `FormatOutput`; `date` is the clock when it runs. */
  function FormatOutput(env: Env, date: Date, entries: seq<RenamedEntry>, meta: Meta): string {
    Text.Join(Header(date, meta) + Links(env, entries), "\n")
  }

  /** `FormatXrayJSON`. */
  function FormatXrayJSON(env: Env, entries: seq<RenamedEntry>, meta: Meta): string {
    env.config(Json, entries, meta, true, Russia)
  }

  /** The entry under which a route is written. */
  function Shown(e: CachedEntry, warp: bool): RenamedEntry {
    if warp && e.warpEntry.record.protocol != "" then e.warpEntry else e.entry
  }

  function Healthy(e: CachedEntry, warp: bool): bool {
    if warp then e.warpHealthy else e.directHealthy
  }

  /** What the slow path writes, with its counters. */
  function Chosen(entries: seq<CachedEntry>, warp: bool, exclude: set<string>): (seq<RenamedEntry>, nat, nat, nat) {
    if entries == [] then ([], 0, 0, 0)
    else
      var e := entries[|entries|-1];
      var (shown, filtered, unknown, conflict) := Chosen(entries[..|entries|-1], warp, exclude);
      if !Healthy(e, warp) then (shown, filtered, unknown, conflict)
      else
        var d := C.Decide(C.Families(e.countries, warp), exclude);
        if d.included then (shown + [Shown(e, warp)], filtered, unknown + d.unknown, conflict + d.conflict)
        else (shown, filtered + 1, unknown + d.unknown, conflict + d.conflict)
  }

  function Body(env: Env, date: Date, entries: seq<RenamedEntry>, meta: Meta, options: Options): string {
    if options.format.Url? then FormatOutput(env, date, entries, meta)
    else env.config(options.format, entries, meta, options.warp, options.profile)
  }

  /** `Render` without the precomputed body. */
  function SlowRender(env: Env, date: Date, data: CachedData, options: Options): Response {
    var (shown, filtered, unknown, conflict) := Chosen(data.entries, options.warp, options.exclude);
    Response(Body(env, date, shown, data.meta.(alive := |shown|), options), filtered, unknown, conflict, |shown|)
  }

  predicate Fast(data: CachedData, options: Options) {
    && options.exclude == {} && (options.profile.NoneGiven? || options.profile.Russia?)
    && options.format.Url? && !options.warp && data.output != ""
  }

  /** The answer to a request. */
  function Rendered(env: Env, date: Date, data: CachedData, options: Options): Response {
    if Fast(data, options) then Response(data.output, 0, 0, 0, |data.entries|) else SlowRender(env, date, data, options)
  }

  lemma ChosenNext(all: seq<CachedEntry>, i: nat, warp: bool, exclude: set<string>)
    requires i < |all|
    ensures var (shown, filtered, unknown, conflict) := Chosen(all[..i], warp, exclude);
            Chosen(all[..i+1], warp, exclude)
            == if !Healthy(all[i], warp) then (shown, filtered, unknown, conflict)
               else
                 var d := C.Decide(C.Families(all[i].countries, warp), exclude);
                 if d.included then (shown + [Shown(all[i], warp)], filtered, unknown + d.unknown, conflict + d.conflict)
                 else (shown, filtered + 1, unknown + d.unknown, conflict + d.conflict)
  {
    assert all[..i+1][..i] == all[..i];
  }

  /** The routes to serve and the counters. */
  method Choose(all: seq<CachedEntry>, warp: bool, exclude: set<string>)
    returns (entries: seq<RenamedEntry>, filtered: nat, unknown: nat, conflict: nat)
    ensures (entries, filtered, unknown, conflict) == Chosen(all, warp, exclude)
  {
    entries, filtered, unknown, conflict := [], 0, 0, 0;
    for i := 0 to |all|
      invariant (entries, filtered, unknown, conflict) == Chosen(all[..i], warp, exclude)
    {
      var cached := all[i];
      ChosenNext(all, i, warp, exclude);
      if (warp && !cached.warpHealthy) || (!warp && !cached.directHealthy) {
        continue;
      }
      var decision := C.Filter(cached.countries, warp, exclude);
      unknown := unknown + decision.unknown;
      conflict := conflict + decision.conflict;
      if !decision.included {
        filtered := filtered + 1;
        continue;
      }
      var entry := cached.entry;
      if warp && cached.warpEntry.record.protocol != "" {
        entry := cached.warpEntry;
      }
      entries := entries + [entry];
    }
    assert all[..|all|] == all;
  }

  method Render(env: Env, date: Date, data: CachedData, options: Options) returns (response: Response)
    ensures response == Rendered(env, date, data, options)
  {
    if options.exclude == {} && (options.profile.NoneGiven? || options.profile.Russia?) {
      if options.format.Url? && !options.warp && data.output != "" {
        return Response(data.output, 0, 0, 0, |data.entries|);
      }
    }
    var entries, filtered, unknown, conflict := Choose(data.entries, options.warp, options.exclude);
    var meta := data.meta.(alive := |entries|);
    var body := if options.format.Url? then FormatOutput(env, date, entries, meta)
                else env.config(options.format, entries, meta, options.warp, options.profile);
    response := Response(body, filtered, unknown, conflict, |entries|);
  }

  // ---------------------------------------------------------------- counters

  /** The positions of the entries that have a property. */
  function Places(entries: seq<CachedEntry>, p: CachedEntry -> bool): set<int> {
    set i | 0 <= i < |entries| && p(entries[i])
  }

  lemma PlacesInit(entries: seq<CachedEntry>, p: CachedEntry -> bool)
    requires entries != []
    ensures var n := |entries| - 1;
            Places(entries, p) == Places(entries[..n], p) + (if p(entries[n]) then {n} else {})
    ensures |Places(entries, p)| == |Places(entries[..|entries|-1], p)| + if p(entries[|entries|-1]) then 1 else 0
  {
    var n := |entries| - 1;
    assert Places(entries, p) == Places(entries[..n], p) + (if p(entries[n]) then {n} else {});
    assert n !in Places(entries[..n], p);
  }

  function Verdict(e: CachedEntry, warp: bool, exclude: set<string>): C.Decision {
    C.Decide(C.Families(e.countries, warp), exclude)
  }

  predicate IsUnknown(e: CachedEntry, warp: bool, exclude: set<string>) { Healthy(e, warp) && Verdict(e, warp, exclude).unknown > 0 }

  predicate IsConflict(e: CachedEntry, warp: bool, exclude: set<string>) { Healthy(e, warp) && Verdict(e, warp, exclude).conflict > 0 }

  predicate IsExcluded(e: CachedEntry, warp: bool, exclude: set<string>) { Healthy(e, warp) && Verdict(e, warp, exclude).filtered }

  /** Turned away for one reason or several. */
  predicate IsTurnedAway(e: CachedEntry, warp: bool, exclude: set<string>) {
    IsUnknown(e, warp, exclude) || IsConflict(e, warp, exclude) || IsExcluded(e, warp, exclude)
  }

  lemma VerdictSplits(e: CachedEntry, warp: bool, exclude: set<string>)
    ensures var d := Verdict(e, warp, exclude);
            && d.unknown <= 1 && d.conflict <= 1
            && (d.included <==> d.unknown == 0 && d.conflict == 0 && !d.filtered)
  {}

  lemma {:induction false} ServedAndFiltered(entries: seq<CachedEntry>, warp: bool, exclude: set<string>)
    ensures var (shown, filtered, _, _) := Chosen(entries, warp, exclude);
            |shown| + filtered == |Places(entries, e => Healthy(e, warp))|
  {
    if entries != [] {
      ServedAndFiltered(entries[..|entries|-1], warp, exclude);
      PlacesInit(entries, e => Healthy(e, warp));
    }
  }

  lemma {:induction false} FilteredCounts(entries: seq<CachedEntry>, warp: bool, exclude: set<string>)
    ensures Chosen(entries, warp, exclude).1 == |Places(entries, e => IsTurnedAway(e, warp, exclude))|
  {
    if entries != [] {
      FilteredCounts(entries[..|entries|-1], warp, exclude);
      VerdictSplits(entries[|entries|-1], warp, exclude);
      PlacesInit(entries, e => IsTurnedAway(e, warp, exclude));
    }
  }

  lemma {:induction false} UnknownCounts(entries: seq<CachedEntry>, warp: bool, exclude: set<string>)
    ensures Chosen(entries, warp, exclude).2 == |Places(entries, e => IsUnknown(e, warp, exclude))|
  {
    if entries != [] {
      UnknownCounts(entries[..|entries|-1], warp, exclude);
      VerdictSplits(entries[|entries|-1], warp, exclude);
      PlacesInit(entries, e => IsUnknown(e, warp, exclude));
    }
  }

  lemma {:induction false} ConflictCounts(entries: seq<CachedEntry>, warp: bool, exclude: set<string>)
    ensures Chosen(entries, warp, exclude).3 == |Places(entries, e => IsConflict(e, warp, exclude))|
  {
    if entries != [] {
      ConflictCounts(entries[..|entries|-1], warp, exclude);
      VerdictSplits(entries[|entries|-1], warp, exclude);
      PlacesInit(entries, e => IsConflict(e, warp, exclude));
    }
  }

  /** The counters of a response: what is served and what is filtered are the healthy
      entries; an entry is filtered exactly for an unknown country, a conflict or an excluded
      country; Unknown and Conflict count theirs, so each is part of Filtered and an entry
      can be in both. */
  lemma CountersSplit(entries: seq<CachedEntry>, warp: bool, exclude: set<string>)
    ensures var (shown, filtered, unknown, conflict) := Chosen(entries, warp, exclude);
            && |shown| + filtered == |Places(entries, e => Healthy(e, warp))|
            && filtered == |Places(entries, e => IsTurnedAway(e, warp, exclude))|
            && unknown == |Places(entries, e => IsUnknown(e, warp, exclude))|
            && conflict == |Places(entries, e => IsConflict(e, warp, exclude))|
  {
    ServedAndFiltered(entries, warp, exclude);
    FilteredCounts(entries, warp, exclude);
    UnknownCounts(entries, warp, exclude);
    ConflictCounts(entries, warp, exclude);
  }

  // ---------------------------------------------------------------- consistency

  /** The entries of the healthy routes, in order. */
  function Selection(entries: seq<CachedEntry>, warp: bool): seq<RenamedEntry> {
    if entries == [] then []
    else Selection(entries[..|entries|-1], warp)
         + if Healthy(entries[|entries|-1], warp) then [Shown(entries[|entries|-1], warp)] else []
  }

  function Page(env: Env, date: Date, entries: seq<CachedEntry>, meta: Meta): string {
    var shown := Selection(entries, false);
    FormatOutput(env, date, shown, meta.(alive := |shown|))
  }

  function Configs(env: Env, entries: seq<CachedEntry>, meta: Meta): string {
    var shown := Selection(entries, true);
    FormatXrayJSON(env, shown, meta.(alive := |shown|))
  }

  /** The precomputed texts are what the entries say, at some time. */
  ghost predicate Consistent(env: Env, data: CachedData) {
    && (exists date: Date :: data.output == Page(env, date, data.entries, data.meta))
    && data.json == Configs(env, data.entries, data.meta)
  }

  lemma {:induction false} ChosenWithoutExclusion(entries: seq<CachedEntry>, warp: bool)
    ensures Chosen(entries, warp, {}) == (Selection(entries, warp), 0, 0, 0)
  {
    if entries != [] {
      ChosenWithoutExclusion(entries[..|entries|-1], warp);
      assert Selection(entries[..|entries|-1], warp) + [] == Selection(entries[..|entries|-1], warp);
    }
  }

  lemma {:induction false} JoinNonEmpty(lines: seq<string>, sep: string)
    requires |lines| > 1 && sep != ""
    ensures Text.Join(lines, sep) != ""
  {}

  /** The precomputed URL body of a consistent snapshot is, up to the date line, what the
      slow path writes for the same request, and it is always used; and the stored JSON is
      what the slow path writes for the default JSON request. */
  lemma FastPathServesSlowBody(env: Env, data: CachedData, profile: Profile)
    requires Consistent(env, data) && !profile.Plain?
    ensures var options := Options(Url, false, profile, {});
            && Fast(data, options)
            && exists date: Date :: data.output == SlowRender(env, date, data, options).body
    ensures forall date: Date :: data.json == SlowRender(env, date, data, Options(Json, true, Russia, {})).body
  {
    var options := Options(Url, false, profile, {});
    ChosenWithoutExclusion(data.entries, false);
    ChosenWithoutExclusion(data.entries, true);
    var date: Date :| data.output == Page(env, date, data.entries, data.meta);
    assert data.output == SlowRender(env, date, data, options).body;
    var shown := Selection(data.entries, false);
    JoinNonEmpty(Header(date, data.meta.(alive := |shown|)) + Links(env, shown), "\n");
  }

  // ---------------------------------------------------------------- reading a page

  /** The first line of a text and the rest. */
  lemma FirstLine(x: string, t: string, y: string, u: string)
    requires '\n' !in x && '\n' !in y && x + "\n" + t == y + "\n" + u
    ensures x == y && t == u
  {
    var s := x + "\n" + t;
    assert s[..|x|] == x && s[|x|] == '\n' && s[|x|+1..] == t;
    assert s == y + "\n" + u && s[..|y|] == y && s[|y|] == '\n' && s[|y|+1..] == u;
    Text.IndexAt(s, '\n', |x|);
    Text.IndexAt(s, '\n', |y|);
  }

  lemma JoinFirst(line: string, rest: seq<string>, text: string)
    requires rest != []
    ensures Text.Join([line] + rest, "\n") == line + "\n" + Text.Join(rest, "\n")
  {
    assert ([line] + rest)[1..] == rest;
  }

  /** Two joined texts agree only if their first lines do, and then so do the rests. */
  lemma JoinedFirst(x: string, a: seq<string>, y: string, b: seq<string>)
    requires '\n' !in x && '\n' !in y && a != [] && b != []
    requires Text.Join([x] + a, "\n") == Text.Join([y] + b, "\n")
    ensures x == y && Text.Join(a, "\n") == Text.Join(b, "\n")
  {
    JoinFirst(x, a, Text.Join([x] + a, "\n"));
    JoinFirst(y, b, Text.Join([y] + b, "\n"));
    FirstLine(x, Text.Join(a, "\n"), y, Text.Join(b, "\n"));
  }

  /** A text of at least five lines. */
  function Opening(first: string, second: string, third: string, fourth: string, tail: seq<string>): string {
    Text.Join([first] + ([second] + ([third] + ([fourth] + tail))), "\n")
  }

  lemma OpeningsAgree(first: string, second: string, c: string, d: string, t: seq<string>, e: string, f: string, u: seq<string>)
    requires '\n' !in first && '\n' !in second && '\n' !in c && '\n' !in d && '\n' !in e && '\n' !in f && t != [] && u != []
    requires Opening(first, second, c, d, t) == Opening(first, second, e, f, u)
    ensures d == f
  {
    var p, q := [c] + ([d] + t), [e] + ([f] + u);
    JoinedFirst(first, [second] + p, first, [second] + q);
    JoinedFirst(second, p, second, q);
    JoinedFirst(c, [d] + t, e, [f] + u);
    JoinedFirst(d, t, f, u);
  }

  /** A page, with its first four lines taken apart. */
  lemma PageOpens(env: Env, date: Date, entries: seq<RenamedEntry>, meta: Meta) returns (tail: seq<string>)
    ensures tail != []
    ensures FormatOutput(env, date, entries, meta)
            == Opening(TITLE, UPDATE, DATE_LABEL + date, COUNT_LABEL + Text.FormatInt(meta.alive), tail)
  {
    var h, links := Header(date, meta), Links(env, entries);
    tail := h[4..] + links;
    assert h + links == [h[0]] + ([h[1]] + ([h[2]] + ([h[3]] + tail)));
  }

  lemma LabelsAreLines()
    ensures '\n' !in TITLE && '\n' !in UPDATE && '\n' !in DATE_LABEL && '\n' !in COUNT_LABEL
  {}

  lemma NumberLine(text: string, n: nat)
    requires '\n' !in text
    ensures '\n' !in text + Text.FormatInt(n)
  {
    assert forall c :: c in Text.Itoa(n) ==> Text.IsDigit(c);
  }

  lemma SameNumber(text: string, m: nat, n: nat)
    requires text + Text.FormatInt(m) == text + Text.FormatInt(n)
    ensures m == n
  {
    var x, y := text + Text.FormatInt(m), text + Text.FormatInt(n);
    assert x[|text|..] == Text.FormatInt(m) && y[|text|..] == Text.FormatInt(n);
    Text.ValueOfItoa(m);
    Text.ValueOfItoa(n);
  }

  /** The fourth line of a page gives the number of its routes away, so two pages agree, at
      whatever times they were written, only if they have the same number of routes. */
  lemma PagesCount(env: Env, d: Date, a: seq<RenamedEntry>, m: Meta, e: Date, b: seq<RenamedEntry>, n: Meta)
    requires m.alive >= 0 && n.alive >= 0 && FormatOutput(env, d, a, m) == FormatOutput(env, e, b, n)
    ensures m.alive == n.alive
  {
    var t := PageOpens(env, d, a, m);
    var u := PageOpens(env, e, b, n);
    LabelsAreLines();
    NumberLine(COUNT_LABEL, m.alive);
    NumberLine(COUNT_LABEL, n.alive);
    OpeningsAgree(TITLE, UPDATE, DATE_LABEL + d, COUNT_LABEL + Text.FormatInt(m.alive), t,
                  DATE_LABEL + e, COUNT_LABEL + Text.FormatInt(n.alive), u);
    SameNumber(COUNT_LABEL, m.alive, n.alive);
  }

  /** The counters that a client gets: routes served and routes turned away are the healthy
      ones of the kind asked for, and each counter counts its reason; the fast path counts all
      entries and turns nobody away. */
  lemma ResponseCounts(env: Env, date: Date, data: CachedData, options: Options)
    ensures var r, es, warp, exclude := Rendered(env, date, data, options), data.entries, options.warp, options.exclude;
            if Fast(data, options) then r.entryCount == |es| && r.filtered == 0 && r.unknown == 0 && r.conflict == 0
            else
              && r.entryCount + r.filtered == |Places(es, e => Healthy(e, warp))|
              && r.filtered == |Places(es, e => IsTurnedAway(e, warp, exclude))|
              && r.unknown == |Places(es, e => IsUnknown(e, warp, exclude))|
              && r.conflict == |Places(es, e => IsConflict(e, warp, exclude))|
  {
    CountersSplit(data.entries, options.warp, options.exclude);
  }
}
