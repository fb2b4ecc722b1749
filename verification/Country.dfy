/** Route-country evidence with hysteresis and the fail-closed country filter
    (internal/country/country.go, internal/country/state.go). */
module Country {
  import opened Common

  datatype Status = NoStatus | Unknown | Confirmed | Conflict

  datatype Address = NoAddress | V4(bits: nat) | V6(bits: nat)

  datatype Observation = Observation(ip: Address, country: string) {
    predicate Valid() { !ip.NoAddress? && IsCode(country) }
  }

  datatype FamilyResult = FamilyResult(
    available: bool, ip: Address, country: string, observedCountry: string, status: Status,
    candidateCountry: string, candidateCount: nat, confirmedAt: Option<int>, observedAt: Option<int>)

  /** Go's zero `FamilyResult{}`. */
  const EMPTY := FamilyResult(false, NoAddress, "", "", NoStatus, "", 0, None, None)

  datatype RouteCountries = RouteCountries(
    directV4: FamilyResult, directV6: FamilyResult, warpV4: FamilyResult, warpV6: FamilyResult)

  const NO_ROUTE := RouteCountries(EMPTY, EMPTY, EMPTY, EMPTY)

  datatype Decision = Decision(included: bool, filtered: bool, unknown: nat, conflict: nat)

  datatype Codes = Parsed(codes: set<string>) | Invalid(part: string)

  /** The second letters of the ISO 3166-1 alpha-2 codes that start with `first`. */
  function SecondLetters(first: char): string {
    match first
    case 'A' => "DEFGILMOQRSTUWXZ"
    case 'B' => "ABDEFGHIJLMNOQRSTVWYZ"
    case 'C' => "ACDFGHIKLMNORUVWXYZ"
    case 'D' => "EJKMOZ"
    case 'E' => "CEGHRST"
    case 'F' => "IJKMOR"
    case 'G' => "ABDEFGHILMNPQRSTUWY"
    case 'H' => "KMNRTU"
    case 'I' => "DELMNOQRST"
    case 'J' => "EMOP"
    case 'K' => "EGHIMNPRWYZ"
    case 'L' => "ABCIKRSTUVY"
    case 'M' => "ACDEFGHKLMNOPQRSTUVWXYZ"
    case 'N' => "ACEFGILOPRUZ"
    case 'O' => "M"
    case 'P' => "AEFGHKLMNRSTWY"
    case 'Q' => "A"
    case 'R' => "EOSUW"
    case 'S' => "ABCDEGHIJKLMNORSTVXYZ"
    case 'T' => "CDFGHJKLMNORTVWZ"
    case 'U' => "AGMSYZ"
    case 'V' => "ACEGINU"
    case 'W' => "FS"
    case 'Y' => "ET"
    case 'Z' => "AMW"
    case _ => ""
  }

  predicate IsIso(code: string) {
    |code| == 2 && code[1] in SecondLetters(code[0])
  }

  predicate IsCode(code: string) { IsIso(ToUpper(TrimSpace(code))) }

  function Observe(previous: FamilyResult, o: Observation, now: int): FamilyResult {
    if !o.Valid() then previous
    else
      var code := ToUpper(o.country);
      var next := previous.(available := true, ip := o.ip, observedCountry := code, observedAt := Some(now));
      if next.country == "" || next.status.Unknown? then
        next.(country := code, status := Confirmed, confirmedAt := Some(now), candidateCountry := "", candidateCount := 0)
      else if code == next.country then
        next.(status := Confirmed, candidateCountry := "", candidateCount := 0)
      else
        var next := if next.candidateCountry == code then next.(candidateCount := next.candidateCount + 1)
                    else next.(candidateCountry := code, candidateCount := 1);
        if next.candidateCount >= 2 then
          next.(country := code, status := Confirmed, confirmedAt := Some(now), candidateCountry := "", candidateCount := 0)
        else next.(status := Conflict)
  }

  function Apply(route: RouteCountries, warp: bool, o: Observation, now: int): RouteCountries {
    if !o.Valid() then route
    else if warp then
      if o.ip.V4? then route.(warpV4 := Observe(route.warpV4, o, now))
      else route.(warpV6 := Observe(route.warpV6, o, now))
    else
      if o.ip.V4? then route.(directV4 := Observe(route.directV4, o, now))
      else route.(directV6 := Observe(route.directV6, o, now))
  }

  // ---------------------------------------------------------------- one family

  datatype Seen = Seen(warp: bool, what: Observation, at: int)

  /** One address family after a history of observations, oldest first. */
  function Track(h: seq<Seen>): FamilyResult {
    if h == [] then EMPTY else Observe(Track(h[..|h|-1]), h[|h|-1].what, h[|h|-1].at)
  }

  /** The codes of the valid observations, oldest first. */
  function ValidCodes(h: seq<Seen>): seq<string> {
    if h == [] then []
    else ValidCodes(h[..|h|-1]) + if h[|h|-1].what.Valid() then [ToUpper(h[|h|-1].what.country)] else []
  }

  /** Positions `i-1` and `i` hold the same code. */
  predicate Pair(codes: seq<string>, i: nat)
    requires 0 < i < |codes|
  {
    codes[i-1] == codes[i]
  }

  /** `code` stands at position `i`, which is the most recent position that repeats its
      predecessor, or 0 if there is none. */
  ghost predicate SettledAt(codes: seq<string>, code: string, i: nat)
    requires i < |codes|
  {
    codes[i] == code && (i > 0 ==> Pair(codes, i)) && forall j :: i < j < |codes| ==> !Pair(codes, j)
  }

  /** `code` is that of the most recent adjacent equal pair, or the first code if there
      is no such pair. */
  ghost predicate Settled(codes: seq<string>, code: string) {
    exists i :: 0 <= i < |codes| && SettledAt(codes, code, i)
  }

  lemma SettledStep(codes: seq<string>, code: string, last: string)
    requires codes != [] && Settled(codes, code)
    ensures Settled(codes + [last], if last == codes[|codes|-1] then last else code)
  {
    var longer, n := codes + [last], |codes|;
    var i :| 0 <= i < n && SettledAt(codes, code, i);
    if last == codes[n-1] {
      assert Pair(longer, n);
      assert SettledAt(longer, last, n);
    } else {
      forall j | i < j < |longer| ensures !Pair(longer, j) {
        if j < n { assert !Pair(codes, j); }
      }
      assert SettledAt(longer, code, i);
    }
  }

  lemma {:induction false} ValidCodesAreNamed(h: seq<Seen>)
    ensures forall i :: 0 <= i < |ValidCodes(h)| ==> ValidCodes(h)[i] != ""
  {
    if h != [] {
      ValidCodesAreNamed(h[..|h|-1]);
      var o := h[|h|-1].what;
    }
  }

  /** What a family state says about the valid codes seen. */
  ghost predicate Means(f: FamilyResult, codes: seq<string>) {
    && (f.available <==> codes != [])
    && (codes == [] ==> f == EMPTY)
    && (codes != [] ==>
          && Settled(codes, f.country)
          && f.country != ""
          && f.observedCountry == codes[|codes|-1]
          && f.status == (if codes[|codes|-1] == f.country then Confirmed else Conflict)
          && f.candidateCountry == (if f.status.Confirmed? then "" else f.observedCountry)
          && f.candidateCount == (if f.status.Confirmed? then 0 else 1))
  }

  lemma ObserveMeaning(f: FamilyResult, codes: seq<string>, o: Observation, now: int)
    requires Means(f, codes) && o.Valid() && ToUpper(o.country) != ""
    ensures Means(Observe(f, o, now), codes + [ToUpper(o.country)])
  {
    var code := ToUpper(o.country);
    if codes == [] {
      assert SettledAt(codes + [code], code, 0);
    } else {
      SettledStep(codes, f.country, code);
    }
  }

  /** The whole family state is a function of the valid codes seen: the country is the
      settled one, the status says whether the last observation agrees with it, and the
      candidate counter never rests above 1. */
  lemma {:induction false} TrackMeaning(h: seq<Seen>)
    ensures Means(Track(h), ValidCodes(h))
  {
    if h != [] {
      var p, last := h[..|h|-1], h[|h|-1];
      TrackMeaning(p);
      if last.what.Valid() {
        ValidCodesAreNamed(h);
        assert ValidCodes(h)[|ValidCodes(p)|] == ToUpper(last.what.country);
        ObserveMeaning(Track(p), ValidCodes(p), last.what, last.at);
      } else {
        assert ValidCodes(h) == ValidCodes(p);
      }
    }
  }

  // ---------------------------------------------------------------- addresses and times

  /** Observation `i` is the last valid one. */
  ghost predicate LastValid(h: seq<Seen>, i: int) {
    0 <= i < |h| && h[i].what.Valid() && forall j :: i < j < |h| ==> !h[j].what.Valid()
  }

  lemma LastValidSnoc(p: seq<Seen>, x: Seen, i: int)
    ensures LastValid(p + [x], i) <==> if x.what.Valid() then i == |p| else LastValid(p, i)
  {
    var h := p + [x];
    assert h[|p|] == x;
    assert forall j :: 0 <= j < |p| ==> h[j] == p[j];
    if LastValid(p, i) && !x.what.Valid() { assert forall j :: i < j < |p| ==> !p[j].what.Valid(); }
    if LastValid(h, i) && !x.what.Valid() { assert forall j :: i < j < |p| ==> !h[j].what.Valid(); }
  }

  lemma ObserveSeen(f: FamilyResult, o: Observation, now: int)
    ensures var g := Observe(f, o, now);
            if o.Valid() then g.available && g.ip == o.ip && g.observedAt == Some(now) && g.observedCountry == ToUpper(o.country)
            else g == f
  {}

  /** What a family says of its last valid observation. */
  predicate Tells(f: FamilyResult, x: Seen) {
    f.available && f.ip == x.what.ip && f.observedAt == Some(x.at) && f.observedCountry == ToUpper(x.what.country)
  }

  /** A family's address, time and code are those of its last valid observation. */
  lemma {:induction false} TrackSeen(h: seq<Seen>)
    ensures forall i :: LastValid(h, i) ==> Tells(Track(h), h[i])
    ensures (forall i :: !LastValid(h, i)) ==> Track(h) == EMPTY
  {
    if h != [] {
      var p, x := h[..|h|-1], h[|h|-1];
      assert h == p + [x];
      TrackSeen(p);
      ObserveSeen(Track(p), x.what, x.at);
      forall i ensures LastValid(h, i) <==> if x.what.Valid() then i == |p| else LastValid(p, i) { LastValidSnoc(p, x, i); }
      if x.what.Valid() { assert LastValid(h, |p|); }
    }
  }

  /** The settled country at the start and after each observation. */
  function CountriesOver(h: seq<Seen>): (r: seq<string>)
    ensures |r| == |h| + 1 && r[|h|] == Track(h).country
  {
    if h == [] then [""] else CountriesOver(h[..|h|-1]) + [Track(h).country]
  }

  /** The settled country came with observation `i` and has stood since. */
  predicate SettledSince(countries: seq<string>, i: nat) {
    && i + 1 < |countries| && countries[i] != countries[i+1]
    && forall j :: i < j < |countries| ==> countries[j] == countries[|countries|-1]
  }

  lemma ConfirmedStep(f: FamilyResult, o: Observation, now: int)
    requires f.available ==> f.country != "" && !f.status.Unknown?
    requires !f.available ==> f == EMPTY
    ensures var g := Observe(f, o, now);
            && (g.available && g.country != f.country ==> g.confirmedAt == Some(now))
            && (g.country == f.country ==> g.confirmedAt == f.confirmedAt || f.country == "")
  {}

  lemma SettledStays(before: seq<string>, i: nat)
    requires before != [] && SettledSince(before, i)
    ensures SettledSince(before + [before[|before|-1]], i)
  {}

  /** `confirmedAt` is the time of the observation that last changed the settled country. */
  lemma {:induction false} ConfirmedWhenChanged(h: seq<Seen>) returns (i: nat)
    requires Track(h).available
    ensures i < |h| && SettledSince(CountriesOver(h), i) && Track(h).confirmedAt == Some(h[i].at)
  {
    var p, x := h[..|h|-1], h[|h|-1];
    TrackMeaning(p);
    TrackMeaning(h);
    ConfirmedStep(Track(p), x.what, x.at);
    if Track(p).country == Track(h).country {
      i := ConfirmedWhenChanged(p);
      SettledStays(CountriesOver(p), i);
    } else {
      i := |p|;
    }
  }

  // ---------------------------------------------------------------- padded codes

  predicate Trimmed(code: string) { TrimSpace(code) == code }

  /** `Valid` ignores blanks around a code and `Observe` keeps them: what it stores of a
      valid observation is an ISO code exactly when the code reported has none. */
  lemma StoredIsIsoIff(f: FamilyResult, o: Observation, now: int)
    requires o.Valid()
    ensures IsIso(Observe(f, o, now).observedCountry) <==> Trimmed(o.country)
  {
    assert Observe(f, o, now).observedCountry == ToUpper(o.country);
  }

  /** A padded code becomes the country of a new family, blank included. */
  lemma PaddedCodeIsStored(ip: Address, now: int)
    requires !ip.NoAddress?
    ensures var o := Observation(ip, " DE");
            o.Valid() && Observe(EMPTY, o, now).country == " DE" && !IsIso(" DE")
  {
    assert " DE"[1..] == "DE";
    assert TrimSpace("DE") == "DE" && ToUpper("DE") == "DE" && ToUpper(" DE") == " DE";
  }

  /** The observation that the witnesses make of the raw fields of an answer. */
  function Report(ip: Address, raw: string): Observation { Observation(ip, ToUpper(TrimSpace(raw))) }

  lemma ReportIsTrimmed(ip: Address, raw: string)
    ensures Trimmed(Report(ip, raw).country)
  {
    assert forall c :: !IsSpace(c) ==> !IsSpace(UpperChar(c));
  }

  predicate IsoOnly(f: FamilyResult) {
    && (f.country == "" || IsIso(f.country)) && (f.observedCountry == "" || IsIso(f.observedCountry))
    && (f.candidateCountry == "" || IsIso(f.candidateCountry))
  }

  /** The witnesses all report so, and then no family ever holds anything but ISO codes. */
  lemma {:induction false} ReportsStoreIso(h: seq<Seen>, raw: seq<string>)
    requires |raw| == |h| && forall i :: 0 <= i < |h| ==> h[i].what == Report(h[i].what.ip, raw[i])
    ensures IsoOnly(Track(h))
  {
    if h != [] {
      var n := |h| - 1;
      ReportsStoreIso(h[..n], raw[..n]);
      ReportIsTrimmed(h[n].what.ip, raw[n]);
      if h[n].what.Valid() { StoredIsIsoIff(Track(h[..n]), h[n].what, h[n].at); }
    }
  }

  // ---------------------------------------------------------------- four families

  /** A route after a history of direct and WARP observations. */
  function RouteRun(h: seq<Seen>): RouteCountries {
    if h == [] then NO_ROUTE else Apply(RouteRun(h[..|h|-1]), h[|h|-1].warp, h[|h|-1].what, h[|h|-1].at)
  }

  /** A route that starts from what was stored before. */
  function RouteFrom(start: RouteCountries, h: seq<Seen>): RouteCountries {
    if h == [] then start else Apply(RouteFrom(start, h[..|h|-1]), h[|h|-1].warp, h[|h|-1].what, h[|h|-1].at)
  }

  /** What was stored after one history goes on as if the two histories were one. */
  lemma {:induction false} RouteGoesOn(past: seq<Seen>, h: seq<Seen>)
    ensures RouteFrom(RouteRun(past), h) == RouteRun(past + h)
  {
    if h == [] {
      assert past + h == past;
    } else {
      assert (past + h)[..|past + h|-1] == past + h[..|h|-1];
      RouteGoesOn(past, h[..|h|-1]);
    }
  }

  /** The part of a history that concerns one family. */
  function OfFamily(h: seq<Seen>, warp: bool, v4: bool): seq<Seen> {
    if h == [] then []
    else OfFamily(h[..|h|-1], warp, v4)
         + if h[|h|-1].warp == warp && h[|h|-1].what.ip.V4? == v4 then [h[|h|-1]] else []
  }

  function Family(route: RouteCountries, warp: bool, v4: bool): FamilyResult {
    if warp then (if v4 then route.warpV4 else route.warpV6) else if v4 then route.directV4 else route.directV6
  }

  lemma ApplyOneFamily(route: RouteCountries, seen: Seen, warp: bool, v4: bool)
    ensures Family(Apply(route, seen.warp, seen.what, seen.at), warp, v4)
            == if seen.warp == warp && seen.what.ip.V4? == v4 then Observe(Family(route, warp, v4), seen.what, seen.at)
               else Family(route, warp, v4)
  {}

  /** The four families do not disturb each other. */
  lemma {:induction false} FamiliesIndependent(h: seq<Seen>, warp: bool, v4: bool)
    ensures Family(RouteRun(h), warp, v4) == Track(OfFamily(h, warp, v4))
  {
    if h != [] {
      var p, last := h[..|h|-1], h[|h|-1];
      FamiliesIndependent(p, warp, v4);
      ApplyOneFamily(RouteRun(p), last, warp, v4);
      if last.warp == warp && last.what.ip.V4? == v4 {
        TrackSnoc(OfFamily(p, warp, v4), last);
        assert OfFamily(h, warp, v4) == OfFamily(p, warp, v4) + [last];
      } else {
        assert OfFamily(h, warp, v4) == OfFamily(p, warp, v4);
      }
    }
  }

  lemma TrackSnoc(h: seq<Seen>, last: Seen)
    ensures Track(h + [last]) == Observe(Track(h), last.what, last.at)
  {
    assert (h + [last])[..|h|] == h;
  }

  lemma {:induction false} OfFamilyAppend(a: seq<Seen>, b: seq<Seen>, warp: bool, v4: bool)
    ensures OfFamily(a + b, warp, v4) == OfFamily(a, warp, v4) + OfFamily(b, warp, v4)
  {
    if b == [] {
      assert a + b == a;
    } else {
      assert (a + b)[..|a + b|-1] == a + b[..|b|-1];
      OfFamilyAppend(a, b[..|b|-1], warp, v4);
    }
  }

  // ---------------------------------------------------------------- the filter

  predicate Excluded(f: FamilyResult, excluded: set<string>) {
    f.country in excluded || f.observedCountry in excluded || f.candidateCountry in excluded
  }

  predicate Unresolved(f: FamilyResult) {
    if f.status.Confirmed? then f.country == "" else !f.status.Conflict?
  }

  predicate AnyObserved(families: seq<FamilyResult>) {
    exists f :: f in families && f.available
  }

  predicate AnyExcluded(families: seq<FamilyResult>, excluded: set<string>) {
    exists f :: f in families && f.available && Excluded(f, excluded)
  }

  predicate AnyUnresolved(families: seq<FamilyResult>) {
    exists f :: f in families && f.available && Unresolved(f)
  }

  predicate AnyConflict(families: seq<FamilyResult>) {
    exists f :: f in families && f.available && f.status.Conflict?
  }

  lemma OneMoreFamily(families: seq<FamilyResult>, i: nat, excluded: set<string>)
    requires i < |families|
    ensures var f := families[i];
            && (AnyObserved(families[..i+1]) <==> AnyObserved(families[..i]) || f.available)
            && (AnyExcluded(families[..i+1], excluded) <==> AnyExcluded(families[..i], excluded) || (f.available && Excluded(f, excluded)))
            && (AnyUnresolved(families[..i+1]) <==> AnyUnresolved(families[..i]) || (f.available && Unresolved(f)))
            && (AnyConflict(families[..i+1]) <==> AnyConflict(families[..i]) || (f.available && f.status.Conflict?))
  {
    assert families[..i+1] == families[..i] + [families[i]];
    assert forall f :: f in families[..i+1] <==> f in families[..i] || f == families[i];
  }

  /** The decision over the families of the selected route. */
  function Decide(families: seq<FamilyResult>, excluded: set<string>): Decision {
    if excluded == {} then Decision(true, false, 0, 0)
    else
      var filtered := AnyExcluded(families, excluded);
      var unknown := !AnyObserved(families) || AnyUnresolved(families);
      var conflict := AnyConflict(families);
      Decision(!filtered && !unknown && !conflict, filtered, if unknown then 1 else 0, if conflict then 1 else 0)
  }

  function Families(route: RouteCountries, warp: bool): seq<FamilyResult> {
    if warp then [route.warpV4, route.warpV6] else [route.directV4, route.directV6]
  }

  method Filter(route: RouteCountries, warp: bool, excluded: set<string>) returns (decision: Decision)
    ensures decision == Decide(Families(route, warp), excluded)
  {
    if excluded == {} { return Decision(true, false, 0, 0); }
    var families := Families(route, warp);
    var available := 0;
    decision := Decision(false, false, 0, 0);
    for i := 0 to |families|
      invariant available >= 0 && !decision.included
      invariant available > 0 <==> AnyObserved(families[..i])
      invariant decision.filtered <==> AnyExcluded(families[..i], excluded)
      invariant decision.unknown == if AnyUnresolved(families[..i]) then 1 else 0
      invariant decision.conflict == if AnyConflict(families[..i]) then 1 else 0
    {
      var family := families[i];
      OneMoreFamily(families, i, excluded);
      if family.available {
        available := available + 1;
        if family.country in excluded { decision := decision.(filtered := true); }
        if family.observedCountry in excluded { decision := decision.(filtered := true); }
        if family.candidateCountry in excluded { decision := decision.(filtered := true); }
        match family.status {
          case Confirmed => if family.country == "" { decision := decision.(unknown := 1); }
          case Conflict => decision := decision.(conflict := 1);
          case _ => decision := decision.(unknown := 1);
        }
      }
    }
    assert families[..|families|] == families;
    if available == 0 { decision := decision.(unknown := 1); }
    decision := decision.(included := !decision.filtered && decision.unknown == 0 && decision.conflict == 0);
  }

  /** Nothing is known of the country: no status that settles it, or no code. */
  predicate Unsettled(status: Status, country: string) {
    status == NoStatus || status == Unknown || (status == Confirmed && country == "")
  }

  /** The decision on a route, family by family: an unobserved family does not matter; an
      observed one filters the route if the set names its settled, observed or candidate
      country, makes it unknown if its country is not known and a conflict if that is its
      status; so does a route without any observed family; it is included if none of this
      holds, and always if nothing is excluded. */
  lemma DecisionMeans(route: RouteCountries, warp: bool, excluded: set<string>)
    ensures var d := Decide(Families(route, warp), excluded);
            var a, b := if warp then route.warpV4 else route.directV4, if warp then route.warpV6 else route.directV6;
            && (excluded == {} ==> d.included && !d.filtered && d.unknown == 0 && d.conflict == 0)
            && (excluded != {} ==>
                  && (d.filtered <==>
                        || (a.available && (a.country in excluded || a.observedCountry in excluded || a.candidateCountry in excluded))
                        || (b.available && (b.country in excluded || b.observedCountry in excluded || b.candidateCountry in excluded)))
                  && d.unknown == (if (!a.available && !b.available) || (a.available && Unsettled(a.status, a.country))
                                      || (b.available && Unsettled(b.status, b.country)) then 1 else 0)
                  && d.conflict == (if (a.available && a.status == Conflict) || (b.available && b.status == Conflict) then 1 else 0)
                  && (d.included <==> !d.filtered && d.unknown == 0 && d.conflict == 0))
  {
    var families := Families(route, warp);
    assert families[0] in families && families[1] in families;
    assert forall f :: f in families ==> f == families[0] || f == families[1];
  }

  /** The codes a list of comma-separated values names; the first bad part otherwise. */
  function CodesOf(parts: seq<string>): Codes {
    if parts == [] then Parsed({})
    else
      var part := parts[|parts|-1];
      match CodesOf(parts[..|parts|-1])
      case Invalid(p) => Invalid(p)
      case Parsed(codes) =>
        var code := ToUpper(TrimSpace(part));
        if code == "" then Parsed(codes) else if IsCode(code) then Parsed(codes + {code}) else Invalid(part)
  }

  function AllParts(values: seq<string>): seq<string> {
    if values == [] then [] else AllParts(values[..|values|-1]) + Split(values[|values|-1], ',')
  }

  lemma {:induction false} CodesOfPrefix(a: seq<string>, b: seq<string>)
    requires CodesOf(a).Invalid?
    ensures CodesOf(a + b) == CodesOf(a)
  {
    if b == [] {
      assert a + b == a;
    } else {
      assert (a + b)[..|a + b|-1] == a + b[..|b|-1];
      CodesOfPrefix(a, b[..|b|-1]);
    }
  }

  lemma {:induction false} AllPartsSplit(values: seq<string>, i: nat)
    requires i <= |values|
    ensures AllParts(values[..i]) <= AllParts(values)
  {
    if i == |values| {
      assert values[..i] == values;
    } else {
      var p := values[..|values|-1];
      AllPartsSplit(p, i);
      assert p[..i] == values[..i];
    }
  }

  lemma BadPart(all: seq<string>, before: seq<string>, part: string)
    requires before + [part] <= all && CodesOf(before).Parsed?
    requires var code := ToUpper(TrimSpace(part)); code != "" && !IsCode(code)
    ensures CodesOf(all) == Invalid(part)
  {
    CodesOfSnoc(before, part);
    CodesOfPrefix(before + [part], all[|before| + 1..]);
    assert before + [part] + all[|before| + 1..] == all;
  }

  lemma PrefixSnoc<T>(s: seq<T>, i: nat)
    requires i < |s|
    ensures s[..i+1] == s[..i] + [s[i]]
  {}

  lemma AllPartsSnoc(before: seq<string>, last: string)
    ensures AllParts(before + [last]) == AllParts(before) + Split(last, ',')
  {
    assert (before + [last])[..|before|] == before;
  }

  lemma PartsRead(values: seq<string>, i: nat)
    requires i < |values|
    ensures AllParts(values[..i+1]) == AllParts(values[..i]) + Split(values[i], ',')
    ensures AllParts(values[..i]) + Split(values[i], ',') <= AllParts(values)
  {
    PrefixSnoc(values, i);
    AllPartsSnoc(values[..i], values[i]);
    AllPartsSplit(values, i + 1);
  }

  lemma PartReached(before: seq<string>, parts: seq<string>, all: seq<string>, j: nat)
    requires before + parts <= all && j < |parts|
    ensures (before + parts[..j]) + [parts[j]] <= all
    ensures (before + parts[..j]) + [parts[j]] == before + parts[..j+1]
  {
    assert before + parts[..j+1] <= before + parts;
  }

  method ParseCodes(values: seq<string>) returns (r: Codes)
    ensures r == CodesOf(AllParts(values))
  {
    var result: set<string> := {};
    ghost var all := AllParts(values);
    ghost var read: seq<string> := [];
    for i := 0 to |values|
      invariant read == AllParts(values[..i])
      invariant CodesOf(read) == Parsed(result)
    {
      var parts := Split(values[i], ',');
      ghost var done := read;
      PartsRead(values, i);
      for j := 0 to |parts|
        invariant read == done + parts[..j]
        invariant CodesOf(read) == Parsed(result)
      {
        var part := parts[j];
        PartReached(done, parts, all, j);
        CodesOfSnoc(read, part);
        var code := ToUpper(TrimSpace(part));
        if code != "" {
          if !IsCode(code) {
            BadPart(all, read, part);
            return Invalid(part);
          }
          result := result + {code};
        }
        read := read + [part];
      }
      assert parts[..|parts|] == parts;
    }
    assert values[..|values|] == values;
    return Parsed(result);
  }

  lemma CodesOfSnoc(parts: seq<string>, part: string)
    requires CodesOf(parts).Parsed?
    ensures var code := ToUpper(TrimSpace(part));
            CodesOf(parts + [part]) == if code == "" then CodesOf(parts)
                                       else if IsCode(code) then Parsed(CodesOf(parts).codes + {code}) else Invalid(part)
  {
    assert (parts + [part])[..|parts|] == parts;
  }

  lemma PartCode(part: string)
    ensures var code := ToUpper(TrimSpace(part)); IsCode(code) <==> IsIso(code)
  {
    var code := ToUpper(TrimSpace(part));
    ReportIsTrimmed(NoAddress, part);
    assert ToUpper(code) == code;
  }

  /** What the parts name: every part that is not blank is an ISO code once trimmed and
      upper-cased, and the set holds those and no other; or the first part that is neither
      is reported. */
  ghost predicate Names(parts: seq<string>, r: Codes) {
    match r
    case Parsed(codes) =>
      && (forall i :: 0 <= i < |parts| ==> var code := ToUpper(TrimSpace(parts[i])); code == "" || (IsIso(code) && code in codes))
      && forall c :: c in codes ==> c != "" && exists i :: 0 <= i < |parts| && ToUpper(TrimSpace(parts[i])) == c
    case Invalid(part) =>
      exists i :: BadAt(parts, i) && parts[i] == part
  }

  /** Part `i` is the first that is neither blank nor a code. */
  ghost predicate BadAt(parts: seq<string>, i: int) {
    && 0 <= i < |parts|
    && ToUpper(TrimSpace(parts[i])) != "" && !IsIso(ToUpper(TrimSpace(parts[i])))
    && forall j :: 0 <= j < i ==> var code := ToUpper(TrimSpace(parts[j])); code == "" || IsIso(code)
  }

  lemma {:induction false} ParsedCodesAreNamed(parts: seq<string>)
    ensures Names(parts, CodesOf(parts))
  {
    if parts != [] {
      var p, part := parts[..|parts|-1], parts[|parts|-1];
      ParsedCodesAreNamed(p);
      assert parts == p + [part];
      PartCode(part);
      NamesSnoc(p, CodesOf(p), part);
    }
  }

  lemma NamesSnoc(p: seq<string>, r: Codes, part: string)
    requires Names(p, r)
    ensures var code := ToUpper(TrimSpace(part));
            Names(p + [part], match r
                              case Invalid(bad) => r
                              case Parsed(codes) => if code == "" then r else if IsIso(code) then Parsed(codes + {code}) else Invalid(part))
  {
    var parts, code := p + [part], ToUpper(TrimSpace(part));
    assert parts[|p|] == part;
    assert forall j :: 0 <= j < |p| ==> parts[j] == p[j];
    match r
    case Invalid(bad) =>
      var i :| BadAt(p, i) && p[i] == bad;
      assert BadAt(parts, i);
    case Parsed(codes) =>
      if code != "" && !IsIso(code) {
        assert BadAt(parts, |p|);
      } else {
        forall c | c in codes ensures exists i :: 0 <= i < |parts| && ToUpper(TrimSpace(parts[i])) == c {
          var i :| 0 <= i < |p| && ToUpper(TrimSpace(p[i])) == c;
          assert ToUpper(TrimSpace(parts[i])) == c;
        }
      }
  }

  /** A parsed set is made of upper-case ISO codes; in particular it lacks "". */
  lemma {:induction false} ParsedCodesAreIso(parts: seq<string>)
    ensures CodesOf(parts).Parsed? ==> forall c :: c in CodesOf(parts).codes ==> IsCode(c) && c != "" && ToUpper(c) == c
  {
    if parts != [] {
      ParsedCodesAreIso(parts[..|parts|-1]);
      var code := ToUpper(TrimSpace(parts[|parts|-1]));
      assert ToUpper(code) == code;
    }
  }

  /** A family that does not stand in the way of its route. */
  predicate Passes(f: FamilyResult, excluded: set<string>) {
    !Excluded(f, excluded) && !Unresolved(f) && !f.status.Conflict?
  }

  lemma DecideBoth(a: FamilyResult, b: FamilyResult, excluded: set<string>)
    requires excluded != {}
    ensures var d := Decide([a, b], excluded);
            && (d.included <==> (a.available || b.available) && (a.available ==> Passes(a, excluded)) && (b.available ==> Passes(b, excluded)))
            && (d.unknown == 0 <==> (a.available || b.available) && (a.available ==> !Unresolved(a)) && (b.available ==> !Unresolved(b)))
            && (d.conflict == 0 <==> (a.available ==> !a.status.Conflict?) && (b.available ==> !b.status.Conflict?))
  {
    assert a in [a, b] && b in [a, b];
    assert forall f :: f in [a, b] ==> f == a || f == b;
  }

  /** The valid codes one family of a route reported, oldest first. */
  function Reported(h: seq<Seen>, warp: bool, v4: bool): seq<string> {
    ValidCodes(OfFamily(h, warp, v4))
  }

  /** The family was observed, and its last report is its settled country and is allowed. */
  predicate Agrees(h: seq<Seen>, warp: bool, v4: bool, excluded: set<string>) {
    var codes := Reported(h, warp, v4);
    && codes != []
    && codes[|codes|-1] == Family(RouteRun(h), warp, v4).country
    && codes[|codes|-1] !in excluded
  }

  lemma FamilyPasses(h: seq<Seen>, warp: bool, v4: bool, excluded: set<string>)
    requires "" !in excluded
    ensures var f := Family(RouteRun(h), warp, v4);
            && (f.available <==> Reported(h, warp, v4) != [])
            && (f.available ==> (Passes(f, excluded) <==> Agrees(h, warp, v4, excluded)))
  {
    FamiliesIndependent(h, warp, v4);
    TrackMeaning(OfFamily(h, warp, v4));
  }

  /** Some family of the route was observed, and the last observation of each observed
      family equals its settled country and is not excluded. */
  predicate Admitted(h: seq<Seen>, warp: bool, excluded: set<string>) {
    && (Reported(h, warp, true) != [] || Reported(h, warp, false) != [])
    && (Reported(h, warp, true) != [] ==> Agrees(h, warp, true, excluded))
    && (Reported(h, warp, false) != [] ==> Agrees(h, warp, false, excluded))
  }

  /** Over every history and every non-empty parsed exclude set, a route is included
      exactly when its history admits it. */
  lemma IncludedIff(h: seq<Seen>, warp: bool, excluded: set<string>)
    requires excluded != {} && "" !in excluded
    ensures Decide(Families(RouteRun(h), warp), excluded).included <==> Admitted(h, warp, excluded)
  {
    FamilyPasses(h, warp, true, excluded);
    FamilyPasses(h, warp, false, excluded);
    DecideBoth(Family(RouteRun(h), warp, true), Family(RouteRun(h), warp, false), excluded);
  }

  lemma {:induction false} ValidCodesAppend(a: seq<Seen>, b: seq<Seen>)
    ensures ValidCodes(a + b) == ValidCodes(a) + ValidCodes(b)
  {
    if b == [] {
      assert a + b == a;
    } else {
      assert (a + b)[..|a + b|-1] == a + b[..|b|-1];
      ValidCodesAppend(a, b[..|b|-1]);
    }
  }

  lemma SettledMoved(before: seq<string>, x: string, later: seq<string>, y: string) returns (i: nat)
    requires before != [] && Settled(before, x) && Settled(before + later, y) && x != y
    ensures |before| <= i < |before + later| && SettledAt(before + later, y, i)
  {
    var codes := before + later;
    i :| 0 <= i < |codes| && SettledAt(codes, y, i);
    var k :| 0 <= k < |before| && SettledAt(before, x, k);
    assert forall j :: 0 < j < |before| ==> Pair(before, j) == Pair(codes, j);
    if i < |before| { assert false; }
  }

  /** A route whose settled country was excluded is served again only after that family
      reported some other, non-excluded country twice in a row, the second time after
      the exclusion was seen. */
  lemma ReturnTakesTwo(h: seq<Seen>, more: seq<Seen>, warp: bool, v4: bool, excluded: set<string>) returns (i: nat)
    requires excluded != {} && "" !in excluded
    requires Family(RouteRun(h), warp, v4).country in excluded
    requires Decide(Families(RouteRun(h + more), warp), excluded).included
    ensures var codes := Reported(h + more, warp, v4);
            && 0 < i < |codes| && |Reported(h, warp, v4)| <= i
            && codes[i-1] == codes[i] && codes[i] !in excluded
  {
    var own, later := OfFamily(h, warp, v4), OfFamily(more, warp, v4);
    OfFamilyAppend(h, more, warp, v4);
    ValidCodesAppend(own, later);
    FamiliesIndependent(h, warp, v4);
    FamiliesIndependent(h + more, warp, v4);
    TrackMeaning(own);
    TrackMeaning(own + later);
    IncludedIff(h + more, warp, excluded);
    assert Agrees(h + more, warp, v4, excluded);
    i := SettledMoved(Reported(h, warp, v4), Track(own).country, ValidCodes(later), Track(own + later).country);
  }

  /** Asking to exclude more never brings a route back. */
  lemma ExcludingMoreNeverIncludes(route: RouteCountries, warp: bool, less: set<string>, more: set<string>)
    requires less <= more
    ensures Decide(Families(route, warp), more).included ==> Decide(Families(route, warp), less).included
  {
    var families := Families(route, warp);
    assert forall f :: Excluded(f, less) ==> Excluded(f, more);
  }

  // ---------------------------------------------------------------- re-probing

  predicate FamilyNeedsReprobe(primary: FamilyResult, secondary: FamilyResult) {
    if primary.available && primary.status.Confirmed? && primary.country != "" then
      secondary.available && (!secondary.status.Confirmed? || secondary.country == "")
    else true
  }

  predicate NeedsWarpReprobe(route: RouteCountries) {
    FamilyNeedsReprobe(route.warpV4, route.warpV6)
  }

  /** A WARP route is left alone by the re-probe exactly when its IPv4 egress is known
      and the filter reports neither Unknown nor Conflict for it. */
  lemma NoReprobeIff(route: RouteCountries, excluded: set<string>)
    requires excluded != {}
    ensures var d := Decide(Families(route, true), excluded);
            !NeedsWarpReprobe(route) <==> route.warpV4.available && d.unknown == 0 && d.conflict == 0
  {
    DecideBoth(route.warpV4, route.warpV6, excluded);
  }
}
