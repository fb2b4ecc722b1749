/** What a subscription page says, line by line: its header, and the link of every route that
    a request asks for and no other. */
module Pages {
  import opened Common
  import opened Records
  import opened Snapshot
  import opened Pipeline
  import opened PipelineLaws
  import opened Publication
  import Text
  import C = Country

  /** The nine lines that open a page. */
  predicate Opens(lines: seq<string>, date: Date, m: Meta) {
    && |lines| >= 9
    && lines[0] == "# profile-title: Proxy Subscription Parser"
    && lines[1] == "# profile-update-interval: 1"
    && lines[2] == "# Date/Time: " + date
    && lines[3] == "# Количество: " + Text.FormatInt(m.alive)
    && lines[4] == "# Sources: " + Text.FormatInt(m.sourcesOK) + " ok, " + Text.FormatInt(m.sourcesFailed) + " failed"
    && lines[5] == "# Parsed: " + Text.FormatInt(m.parsed) + " valid, " + Text.FormatInt(m.skipped) + " skipped, "
                   + Text.FormatInt(m.duplicates) + " duplicates"
    && lines[6] == "# Probed: " + Text.FormatInt(m.alive + m.dead) + " total, " + Text.FormatInt(m.alive) + " alive, "
                   + Text.FormatInt(m.dead) + " dead"
    && lines[7] == "# Geo: available for " + Text.FormatInt(m.geoAvailable) + "/" + Text.FormatInt(m.geoTotal)
    && lines[8] == "---"
  }

  lemma {:induction false} LinksAre(env: Env, entries: seq<RenamedEntry>)
    ensures |Links(env, entries)| == |entries|
    ensures forall i :: 0 <= i < |entries| ==> Links(env, entries)[i] == env.link(entries[i].record, entries[i].name)
  {
    if entries != [] { LinksAre(env, entries[1..]); }
  }

  /** A page is its header and, in order, one link for each of its routes. */
  lemma PageLines(env: Env, date: Date, entries: seq<RenamedEntry>, meta: Meta) returns (lines: seq<string>)
    ensures FormatOutput(env, date, entries, meta) == Text.Join(lines, "\n")
    ensures Opens(lines, date, meta) && |lines| == 9 + |entries|
    ensures forall i :: 0 <= i < |entries| ==> lines[9 + i] == env.link(entries[i].record, entries[i].name)
  {
    LinksAre(env, entries);
    lines := Header(date, meta) + Links(env, entries);
  }

  // ---------------------------------------------------------------- one request

  /** An observed family lets its route pass: its country is settled and known, and none of
      its codes is excluded. */
  predicate Lets(f: C.FamilyResult, exclude: set<string>) {
    && f.status == C.Confirmed && f.country != ""
    && f.country !in exclude && f.observedCountry !in exclude && f.candidateCountry !in exclude
  }

  /** The request asks for this entry: it is healthy on the kind of route requested and, if
      countries are excluded, some family of that route was observed and all observed ones
      let it pass. */
  predicate Wanted(e: CachedEntry, warp: bool, exclude: set<string>) {
    var a, b := if warp then e.countries.warpV4 else e.countries.directV4, if warp then e.countries.warpV6 else e.countries.directV6;
    && (if warp then e.warpHealthy else e.directHealthy)
    && (exclude != {} ==> (a.available || b.available) && (a.available ==> Lets(a, exclude)) && (b.available ==> Lets(b, exclude)))
  }

  /** The link of an entry: under its WARP name and record on a WARP route that has one. */
  function LinkOf(env: Env, e: CachedEntry, warp: bool): string {
    if warp && e.warpEntry.record.protocol != "" then env.link(e.warpEntry.record, e.warpEntry.name)
    else env.link(e.entry.record, e.entry.name)
  }

  lemma WantedIs(e: CachedEntry, warp: bool, exclude: set<string>)
    ensures Wanted(e, warp, exclude) <==> Healthy(e, warp) && C.Decide(C.Families(e.countries, warp), exclude).included
  {
    C.DecisionMeans(e.countries, warp, exclude);
  }

  lemma ChosenSnoc(p: seq<CachedEntry>, e: CachedEntry, warp: bool, exclude: set<string>)
    ensures Chosen(p + [e], warp, exclude).0
            == Chosen(p, warp, exclude).0 + if Wanted(e, warp, exclude) then [Shown(e, warp)] else []
  {
    WantedIs(e, warp, exclude);
    assert (p + [e])[..|p|] == p;
  }

  /** The routes are those of the entries at these positions. */
  ghost predicate StandAt(shown: seq<RenamedEntry>, places: seq<nat>, entries: seq<CachedEntry>, warp: bool) {
    |shown| == |places| && forall i :: 0 <= i < |places| ==> places[i] < |entries| && shown[i] == Shown(entries[places[i]], warp)
  }

  /** The positions of the wanted entries, and the routes there. */
  ghost predicate Picks(shown: seq<RenamedEntry>, places: seq<nat>, entries: seq<CachedEntry>, warp: bool, exclude: set<string>) {
    Selects(places, entries, (e: CachedEntry) => Wanted(e, warp, exclude)) && StandAt(shown, places, entries, warp)
  }

  lemma StandAtSnoc(shown: seq<RenamedEntry>, places: seq<nat>, p: seq<CachedEntry>, e: CachedEntry, warp: bool)
    requires StandAt(shown, places, p, warp)
    ensures StandAt(shown, places, p + [e], warp) && StandAt(shown + [Shown(e, warp)], places + [|p|], p + [e], warp)
  {
    var entries := p + [e];
    assert entries[|p|] == e;
    assert forall k :: 0 <= k < |p| ==> entries[k] == p[k];
  }

  lemma PicksSnoc(shown: seq<RenamedEntry>, places: seq<nat>, p: seq<CachedEntry>, e: CachedEntry, warp: bool, exclude: set<string>)
    requires Picks(shown, places, p, warp, exclude)
    ensures if Wanted(e, warp, exclude) then Picks(shown + [Shown(e, warp)], places + [|p|], p + [e], warp, exclude)
            else Picks(shown, places, p + [e], warp, exclude)
  {
    SelectsSnoc(places, p, e, (e: CachedEntry) => Wanted(e, warp, exclude));
    StandAtSnoc(shown, places, p, e, warp);
  }

  lemma {:induction false} ChosenPlaces(entries: seq<CachedEntry>, warp: bool, exclude: set<string>) returns (places: seq<nat>)
    ensures Picks(Chosen(entries, warp, exclude).0, places, entries, warp, exclude)
  {
    places := [];
    if entries != [] {
      var p, e := entries[..|entries|-1], entries[|entries|-1];
      places := ChosenPlaces(p, warp, exclude);
      ChosenSnoc(p, e, warp, exclude);
      PicksSnoc(Chosen(p, warp, exclude).0, places, p, e, warp, exclude);
      assert entries == p + [e] && Chosen(p, warp, exclude).0 + [] == Chosen(p, warp, exclude).0;
      if Wanted(e, warp, exclude) { places := places + [|p|]; }
    }
  }

  /** A page that lists exactly the wanted entries. */
  ghost predicate Lists(env: Env, body: string, date: Date, data: CachedData, warp: bool, exclude: set<string>,
                        lines: seq<string>, places: seq<nat>) {
    && body == Text.Join(lines, "\n")
    && |lines| == 9 + |places| && Opens(lines, date, data.meta.(alive := |places|))
    && Selects(places, data.entries, (e: CachedEntry) => Wanted(e, warp, exclude))
    && forall i :: 0 <= i < |places| ==> lines[9 + i] == LinkOf(env, data.entries[places[i]], warp)
  }

  lemma ChosenPage(env: Env, date: Date, data: CachedData, warp: bool, exclude: set<string>) returns (lines: seq<string>, places: seq<nat>)
    ensures var shown := Chosen(data.entries, warp, exclude).0;
            Lists(env, FormatOutput(env, date, shown, data.meta.(alive := |shown|)), date, data, warp, exclude, lines, places)
  {
    var shown := Chosen(data.entries, warp, exclude).0;
    places := ChosenPlaces(data.entries, warp, exclude);
    lines := PageLines(env, date, shown, data.meta.(alive := |shown|));
  }

  /** Every URL request, on the fast path or not: the body is the header, which counts the
      routes listed, and in order the link of every wanted entry and of no other. */
  lemma RequestLists(env: Env, now: Date, data: CachedData, options: Options) returns (date: Date, lines: seq<string>, places: seq<nat>)
    requires options.format.Url? && (Fast(data, options) ==> Consistent(env, data))
    ensures Lists(env, Rendered(env, now, data, options).body, date, data, options.warp, options.exclude, lines, places)
    ensures !Fast(data, options) ==> date == now
  {
    if Fast(data, options) {
      ChosenWithoutExclusion(data.entries, false);
      date :| data.output == Page(env, date, data.entries, data.meta);
      lines, places := ChosenPage(env, date, data, false, {});
    } else {
      date := now;
      lines, places := ChosenPage(env, date, data, options.warp, options.exclude);
    }
  }

  /** Every other request is answered with the configuration, in the format, for the kind of
      route and with the profile asked for, of the wanted entries in order. */
  lemma RequestConfigures(env: Env, now: Date, data: CachedData, options: Options) returns (routes: seq<RenamedEntry>, places: seq<nat>)
    requires !options.format.Url?
    ensures Picks(routes, places, data.entries, options.warp, options.exclude)
    ensures forall i :: 0 <= i < |places| ==>
              var e := data.entries[places[i]];
              routes[i] == if options.warp && e.warpEntry.record.protocol != "" then e.warpEntry else e.entry
    ensures var r := Rendered(env, now, data, options);
            r.body == env.config(options.format, routes, data.meta.(alive := |routes|), options.warp, options.profile) && r.entryCount == |routes|
  {
    routes := Chosen(data.entries, options.warp, options.exclude).0;
    places := ChosenPlaces(data.entries, options.warp, options.exclude);
  }

  /** A client that reads the body line by line gets these lines, as long as no link breaks. */
  lemma RequestReadBack(env: Env, now: Date, data: CachedData, options: Options) returns (date: Date, lines: seq<string>, places: seq<nat>)
    requires options.format.Url? && (Fast(data, options) ==> Consistent(env, data))
    requires forall e :: e in data.entries ==> '\n' !in LinkOf(env, e, options.warp)
    ensures Lists(env, Rendered(env, now, data, options).body, date, data, options.warp, options.exclude, lines, places)
    ensures Split(Rendered(env, now, data, options).body, '\n') == lines
  {
    date, lines, places := RequestLists(env, now, data, options);
    forall i | 0 <= i < |lines| ensures '\n' !in lines[i] {
      if i < 9 {
        HeaderBreaksNowhere(lines, date, data.meta.(alive := |places|), i);
      } else {
        assert lines[9 + (i - 9)] == LinkOf(env, data.entries[places[i - 9]], options.warp);
        assert data.entries[places[i - 9]] in data.entries;
      }
    }
    Text.SplitOfJoin(lines, '\n');
  }

  lemma NumberUnbroken(n: int)
    ensures '\n' !in Text.FormatInt(n)
  {
    assert forall c :: c in Text.Itoa(if n < 0 then -n else n) ==> Text.IsDigit(c);
  }

  lemma SourceLabels()
    ensures '\n' !in "# Sources: " && '\n' !in " ok, " && '\n' !in " failed"
  {}

  lemma ParsedLabels()
    ensures '\n' !in "# Parsed: " && '\n' !in " valid, " && '\n' !in " skipped, " && '\n' !in " duplicates"
  {}

  lemma ProbedLabels()
    ensures '\n' !in "# Probed: " && '\n' !in " total, " && '\n' !in " alive, " && '\n' !in " dead"
  {}

  lemma GeoLabels()
    ensures '\n' !in "# Geo: available for " && '\n' !in "/" && '\n' !in "---"
  {}

  lemma ThreeParts(a: string, b: string, c: string)
    requires '\n' !in a && '\n' !in b && '\n' !in c
    ensures '\n' !in a + b + c
  {}

  /** Three labels, each with a number before it. */
  lemma ThreeNumbers(head: string, x: int, a: string, y: int, b: string, z: int, c: string)
    requires '\n' !in head && '\n' !in a && '\n' !in b && '\n' !in c
    ensures '\n' !in head + Text.FormatInt(x) + a + Text.FormatInt(y) + b + Text.FormatInt(z) + c
  {
    NumberUnbroken(x);
    NumberUnbroken(y);
    NumberUnbroken(z);
    ThreeParts(head, Text.FormatInt(x), a);
    ThreeParts(head + Text.FormatInt(x) + a, Text.FormatInt(y), b);
    ThreeParts(head + Text.FormatInt(x) + a + Text.FormatInt(y) + b, Text.FormatInt(z), c);
  }

  lemma TwoNumbers(head: string, x: int, a: string, y: int, b: string)
    requires '\n' !in head && '\n' !in a && '\n' !in b
    ensures '\n' !in head + Text.FormatInt(x) + a + Text.FormatInt(y) + b
  {
    NumberUnbroken(x);
    NumberUnbroken(y);
    ThreeParts(head, Text.FormatInt(x), a);
    ThreeParts(head + Text.FormatInt(x) + a, Text.FormatInt(y), b);
  }

  lemma HeaderBreaksNowhere(lines: seq<string>, date: Date, m: Meta, i: nat)
    requires Opens(lines, date, m) && i < 9
    ensures '\n' !in lines[i]
  {
    if i < 4 {
      LabelsAreLines();
      NumberUnbroken(m.alive);
    } else if i == 4 {
      SourceLabels();
      TwoNumbers("# Sources: ", m.sourcesOK, " ok, ", m.sourcesFailed, " failed");
    } else if i == 5 {
      ParsedLabels();
      ThreeNumbers("# Parsed: ", m.parsed, " valid, ", m.skipped, " skipped, ", m.duplicates, " duplicates");
    } else if i == 6 {
      ProbedLabels();
      ThreeNumbers("# Probed: ", m.alive + m.dead, " total, ", m.alive, " alive, ", m.dead, " dead");
    } else {
      GeoLabels();
      TwoNumbers("# Geo: available for ", m.geoAvailable, "/", m.geoTotal, "");
    }
  }

  /** In every reachable state every URL request is answered so. */
  lemma EveryRequestLists(env: Env, cfg: Config, evidence: map<string, C.RouteCountries>, restored: Option<CachedData>, ops: seq<Op>,
                          now: Date, options: Options) returns (date: Date, lines: seq<string>, places: seq<nat>)
    requires options.format.Url?
    requires restored.Some? ==> Consistent(env, restored.value)
    requires forall op :: op in ops ==> Proper(op)
    requires restored.Some? ==> forall i :: 0 <= i < |ops| ==> OpensWell(env, cfg, Exec(env, cfg, evidence, restored, ops[..i]), ops[i])
    requires Exec(env, cfg, evidence, restored, ops).cache.Some?
    ensures var data := Exec(env, cfg, evidence, restored, ops).cache.value;
            Lists(env, Rendered(env, now, data, options).body, date, data, options.warp, options.exclude, lines, places)
  {
    SnapshotAlwaysConsistent(env, cfg, evidence, restored, ops);
    date, lines, places := RequestLists(env, now, Exec(env, cfg, evidence, restored, ops).cache.value, options);
  }
}
