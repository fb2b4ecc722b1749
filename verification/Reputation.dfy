/** Merging what reputation providers say about one address (internal/ipintel/ipintel.go). */
module Reputation {
  import opened Common

  /** The type texts; `Unlisted` is any other text. */
  datatype Type =
    | Blank | Residential | Mobile | Hosting | Business | Cdn | Education | Government | Other | Unknown
    | Unlisted(name: string)

  /** The level texts; `Unset` is the empty one of Go's zero value. */
  datatype Risk = Unset | Clean | Suspicious | Risky | NoData

  datatype Flags = Flags(proxy: bool, vpn: bool, tor: bool, abuser: bool, datacenter: bool, crawler: bool)

  const NO_FLAGS := Flags(false, false, false, false, false, false)

  datatype Place = Place(asn: string, organization: string, isp: string, countryCode: string, city: string)

  const NOWHERE := Place("", "", "", "", "")

  datatype Result = Result(source: string, place: Place, kind: Type, flags: Flags, riskScore: real, hasScore: bool)

  datatype Intel = Intel(kind: Type, risk: Risk, score: real, flags: Flags, sources: seq<string>, place: Place)

  function Or(a: Flags, b: Flags): Flags {
    Flags(a.proxy || b.proxy, a.vpn || b.vpn, a.tor || b.tor, a.abuser || b.abuser, a.datacenter || b.datacenter, a.crawler || b.crawler)
  }

  function AllFlags(results: seq<Result>): Flags {
    if results == [] then NO_FLAGS else Or(AllFlags(results[..|results|-1]), results[|results|-1].flags)
  }

  /** The highest score given, at least 0. */
  function TopScore(results: seq<Result>): real {
    if results == [] then 0.0
    else
      var top, last := TopScore(results[..|results|-1]), results[|results|-1];
      if last.hasScore && last.riskScore > top then last.riskScore else top
  }

  function Sources(results: seq<Result>): seq<string> {
    if results == [] then []
    else
      var before, last := Sources(results[..|results|-1]), results[|results|-1].source;
      if last in before then before else before + [last]
  }

  function Fill(a: Place, b: Place): Place {
    Place(if a.asn == "" then b.asn else a.asn,
          if a.organization == "" then b.organization else a.organization,
          if a.isp == "" then b.isp else a.isp,
          if a.countryCode == "" then b.countryCode else a.countryCode,
          if a.city == "" then b.city else a.city)
  }

  /** The first text that each provider field has. */
  function FirstPlace(results: seq<Result>): Place {
    if results == [] then NOWHERE else Fill(FirstPlace(results[..|results|-1]), results[|results|-1].place)
  }

  predicate HasType(results: seq<Result>, t: Type) { exists r :: r in results && r.kind == t }

  function NormalizeType(results: seq<Result>, flags: Flags): Type {
    if flags.datacenter || HasType(results, Hosting) then Hosting
    else if HasType(results, Mobile) then Mobile
    else if HasType(results, Cdn) then Cdn
    else if HasType(results, Business) then Business
    else if HasType(results, Education) then Education
    else if HasType(results, Government) then Government
    else if results != [] then Residential
    else Unknown
  }

  function ClassifyRisk(flags: Flags, hasData: bool): Risk {
    if !hasData then NoData
    else if flags.abuser || flags.tor then Risky
    else if flags.proxy || flags.vpn || flags.datacenter then Suspicious
    else Clean
  }

  function CompositeScore(flags: Flags): real {
    var score := (if flags.proxy then 25.0 else 0.0) + (if flags.vpn then 25.0 else 0.0) + (if flags.datacenter then 10.0 else 0.0)
                 + (if flags.abuser then 40.0 else 0.0) + (if flags.tor then 35.0 else 0.0) + (if flags.crawler then 5.0 else 0.0);
    if score > 100.0 then 100.0 else score
  }

  function Max(a: real, b: real): real { if a > b then a else b }

  /** `merge` of all providers' results. */
  function Merged(results: seq<Result>): Intel {
    var flags := AllFlags(results);
    Intel(NormalizeType(results, flags), ClassifyRisk(flags, results != []), Max(TopScore(results), CompositeScore(flags)),
          flags, Sources(results), FirstPlace(results))
  }

  /** Go's zero `Intel{}`. */
  const NO_INTEL := Intel(Blank, Unset, 0.0, NO_FLAGS, [], NOWHERE)

  /** What `Lookup` returns for the providers that answered, and what is added to later:
      the merged results, but the zero value if there are none. */
  function Looked(results: seq<Result>): Intel { if results == [] then NO_INTEL else Merged(results) }

  function NextType(kind: Type, r: Result): Type {
    if r.flags.datacenter || r.kind.Hosting? then Hosting
    else if (kind.Blank? || kind.Residential?) && !r.kind.Blank? then r.kind
    else kind
  }

  /** `MergeResult`: one more result on top of what was merged before. */
  function Added(intel: Intel, r: Result): Intel {
    var flags := Or(intel.flags, r.flags);
    Intel(NextType(intel.kind, r), ClassifyRisk(flags, true),
          Max(if r.hasScore then Max(r.riskScore, intel.score) else intel.score, CompositeScore(flags)),
          flags, if r.source == "" || r.source in intel.sources then intel.sources else intel.sources + [r.source],
          Fill(intel.place, r.place))
  }

  method HasProviderType(results: seq<Result>, t: Type) returns (found: bool)
    ensures found == HasType(results, t)
  {
    for i := 0 to |results|
      invariant forall j :: 0 <= j < i ==> results[j].kind != t
    {
      if results[i].kind == t { return true; }
    }
    return false;
  }

  lemma HasTypeSnoc(results: seq<Result>, i: nat, t: Type)
    requires i < |results|
    ensures HasType(results[..i+1], t) <==> HasType(results[..i], t) || results[i].kind == t
  {
    assert results[..i+1] == results[..i] + [results[i]];
    assert results[i] in results[..i+1];
  }

  method NormalizedType(results: seq<Result>, flags: Flags) returns (t: Type)
    ensures t == NormalizeType(results, flags)
  {
    var mobile, business, education, government, cdn := false, false, false, false, false;
    for i := 0 to |results|
      invariant mobile == HasType(results[..i], Mobile) && cdn == HasType(results[..i], Cdn)
      invariant business == HasType(results[..i], Business)
      invariant education == HasType(results[..i], Education) && government == HasType(results[..i], Government)
    {
      HasTypeSnoc(results, i, Mobile);
      HasTypeSnoc(results, i, Cdn);
      HasTypeSnoc(results, i, Business);
      HasTypeSnoc(results, i, Education);
      HasTypeSnoc(results, i, Government);
      match results[i].kind {
        case Mobile => mobile := true;
        case Business => business := true;
        case Education => education := true;
        case Government => government := true;
        case Cdn => cdn := true;
        case _ =>
      }
    }
    assert results[..|results|] == results;
    var hosting := HasProviderType(results, Hosting);
    if flags.datacenter || hosting { return Hosting; }
    if mobile { return Mobile; }
    if cdn { return Cdn; }
    if business { return Business; }
    if education { return Education; }
    if government { return Government; }
    if |results| > 0 { return Residential; }
    return Unknown;
  }

  method MergePlaces(results: seq<Result>) returns (place: Place)
    ensures place == FirstPlace(results)
  {
    place := NOWHERE;
    for i := 0 to |results|
      invariant place == FirstPlace(results[..i])
    {
      var p := results[i].place;
      assert results[..i+1][..i] == results[..i];
      if place.asn == "" && p.asn != "" { place := place.(asn := p.asn); }
      if place.organization == "" && p.organization != "" { place := place.(organization := p.organization); }
      if place.isp == "" && p.isp != "" { place := place.(isp := p.isp); }
      if place.countryCode == "" && p.countryCode != "" { place := place.(countryCode := p.countryCode); }
      if place.city == "" && p.city != "" { place := place.(city := p.city); }
    }
    assert results[..|results|] == results;
  }

  method Merge(results: seq<Result>) returns (intel: Intel)
    ensures intel == Merged(results)
  {
    var flags := NO_FLAGS;
    var sources: seq<string> := [];
    var maxScore, hasScore := 0.0, false;
    var seen: set<string> := {};
    for i := 0 to |results|
      invariant flags == AllFlags(results[..i])
      invariant sources == Sources(results[..i]) && seen == set s | s in sources
      invariant maxScore == TopScore(results[..i]) >= 0.0 && (!hasScore ==> maxScore == 0.0)
    {
      var r := results[i];
      assert results[..i+1][..i] == results[..i];
      flags := Or(flags, r.flags);
      if r.hasScore {
        hasScore := true;
        if r.riskScore > maxScore { maxScore := r.riskScore; }
      }
      if r.source !in seen {
        seen := seen + {r.source};
        sources := sources + [r.source];
      }
    }
    var kind := NormalizedType(results, flags);
    assert results[..|results|] == results;
    var score := CompositeScore(flags);
    if hasScore && maxScore > score { score := maxScore; }
    var place := MergePlaces(results);
    intel := Intel(kind, ClassifyRisk(flags, |results| > 0), score, flags, sources, place);
  }

  method MergeResult(before: Intel, r: Result) returns (intel: Intel)
    ensures intel == Added(before, r)
  {
    intel := before.(flags := Or(before.flags, r.flags));
    if r.hasScore && r.riskScore > intel.score { intel := intel.(score := r.riskScore); }
    if r.flags.datacenter || r.kind.Hosting? {
      intel := intel.(kind := Hosting);
    } else if intel.kind.Blank? && !r.kind.Blank? {
      intel := intel.(kind := r.kind);
    } else if intel.kind.Residential? && !r.kind.Blank? && !r.kind.Residential? {
      intel := intel.(kind := r.kind);
    }
    intel := intel.(place := Fill(intel.place, r.place));
    if r.source != "" {
      var seen := false;
      for i := 0 to |intel.sources|
        invariant !seen && r.source !in intel.sources[..i]
      {
        if intel.sources[i] == r.source {
          seen := true;
          break;
        }
        assert intel.sources[..i+1] == intel.sources[..i] + [intel.sources[i]];
      }
      assert intel.sources[..|intel.sources|] == intel.sources;
      if !seen { intel := intel.(sources := intel.sources + [r.source]); }
    }
    intel := intel.(risk := ClassifyRisk(intel.flags, true));
    intel := intel.(score := Max(intel.score, CompositeScore(intel.flags)));
  }

  // ---------------------------------------------------------------- what the merge says

  predicate Raised(results: seq<Result>, p: Flags -> bool) { exists r :: r in results && p(r.flags) }

  /** The points that one kind of flag gives, once, if any provider raises it. */
  function Points(raised: bool, points: real): real { if raised then points else 0.0 }

  lemma RaisedAre(results: seq<Result>)
    ensures var f := AllFlags(results);
            && (f.proxy <==> Raised(results, (g: Flags) => g.proxy)) && (f.vpn <==> Raised(results, (g: Flags) => g.vpn))
            && (f.tor <==> Raised(results, (g: Flags) => g.tor)) && (f.abuser <==> Raised(results, (g: Flags) => g.abuser))
            && (f.datacenter <==> Raised(results, (g: Flags) => g.datacenter)) && (f.crawler <==> Raised(results, (g: Flags) => g.crawler))
  {
    FlagsAre(results);
  }

  /** The level: no data without results; risky if any provider says abuser or TOR; suspicious
      if not, but any says proxy, VPN or data centre; clean otherwise, crawlers included. */
  lemma RiskIs(results: seq<Result>)
    ensures var risk := Merged(results).risk;
            && (risk == NoData <==> results == [])
            && (risk == Risky <==> exists r :: r in results && (r.flags.abuser || r.flags.tor))
            && (risk == Suspicious <==>
                  && (forall r :: r in results ==> !r.flags.abuser && !r.flags.tor)
                  && exists r :: r in results && (r.flags.proxy || r.flags.vpn || r.flags.datacenter))
            && (risk == Clean <==>
                  && results != []
                  && forall r :: r in results ==> !r.flags.abuser && !r.flags.tor && !r.flags.proxy && !r.flags.vpn && !r.flags.datacenter)
  {
    FlagsAre(results);
    if results == [] {
      assert forall r :: r !in results;
    } else {
      assert results[0] in results;
    }
  }

  /** The score: the points of the flags raised, each kind once and no more than 100 in all,
      or the highest score given if that is higher. */
  lemma ScoreIs(results: seq<Result>)
    ensures var score := Merged(results).score;
            var sum := Points(Raised(results, (f: Flags) => f.abuser), 40.0) + Points(Raised(results, (f: Flags) => f.tor), 35.0)
                       + Points(Raised(results, (f: Flags) => f.proxy), 25.0) + Points(Raised(results, (f: Flags) => f.vpn), 25.0)
                       + Points(Raised(results, (f: Flags) => f.datacenter), 10.0) + Points(Raised(results, (f: Flags) => f.crawler), 5.0);
            var flagged := if sum <= 100.0 then sum else 100.0;
            && score >= flagged
            && (forall r :: r in results && r.hasScore ==> score >= r.riskScore)
            && (score == flagged || exists r :: r in results && r.hasScore && r.riskScore == score)
  {
    RaisedAre(results);
    TopScoreIs(results);
  }

  /** One text of the place: that of the first result that has one, and blank if none has. */
  ghost predicate FirstText(texts: seq<string>, text: string) {
    if text == "" then forall i :: 0 <= i < |texts| ==> texts[i] == ""
    else exists i :: 0 <= i < |texts| && texts[i] == text && forall j :: 0 <= j < i ==> texts[j] == ""
  }

  lemma FirstTextSnoc(texts: seq<string>, text: string, x: string)
    requires FirstText(texts, text)
    ensures FirstText(texts + [x], if text == "" then x else text)
  {
    var longer := texts + [x];
    assert longer[|texts|] == x;
    if text != "" {
      var i :| 0 <= i < |texts| && texts[i] == text && forall j :: 0 <= j < i ==> texts[j] == "";
      assert longer[i] == text && forall j :: 0 <= j < i ==> longer[j] == texts[j];
    } else {
      assert forall j :: 0 <= j < |texts| ==> longer[j] == "";
    }
  }

  function Texts(results: seq<Result>, field: Place -> string): (r: seq<string>)
    ensures |r| == |results|
  {
    seq(|results|, i requires 0 <= i < |results| => field(results[i].place))
  }

  lemma TextsSnoc(p: seq<Result>, x: Result, field: Place -> string)
    ensures Texts(p + [x], field) == Texts(p, field) + [field(x.place)]
  {}

  /** A field of the merged place, as `Fill` fills it. */
  lemma {:induction false} FieldIsFirst(results: seq<Result>, field: Place -> string)
    requires field(NOWHERE) == ""
    requires forall a, b :: field(Fill(a, b)) == if field(a) == "" then field(b) else field(a)
    ensures FirstText(Texts(results, field), field(FirstPlace(results)))
  {
    if results != [] {
      var p, x := results[..|results|-1], results[|results|-1];
      FieldIsFirst(p, field);
      assert results == p + [x];
      TextsSnoc(p, x, field);
      FirstTextSnoc(Texts(p, field), field(FirstPlace(p)), field(x.place));
    }
  }

  /** Each of the five texts is the first one given. */
  lemma PlaceIsFirst(results: seq<Result>)
    ensures var place := Merged(results).place;
            && FirstText(Texts(results, (p: Place) => p.asn), place.asn)
            && FirstText(Texts(results, (p: Place) => p.organization), place.organization)
            && FirstText(Texts(results, (p: Place) => p.isp), place.isp)
            && FirstText(Texts(results, (p: Place) => p.countryCode), place.countryCode)
            && FirstText(Texts(results, (p: Place) => p.city), place.city)
  {
    FieldIsFirst(results, (p: Place) => p.asn);
    FieldIsFirst(results, (p: Place) => p.organization);
    FieldIsFirst(results, (p: Place) => p.isp);
    FieldIsFirst(results, (p: Place) => p.countryCode);
    FieldIsFirst(results, (p: Place) => p.city);
  }

  predicate NobodySays(results: seq<Result>, types: set<Type>) { forall r :: r in results ==> r.kind !in types }

  lemma HostingIs(results: seq<Result>)
    ensures Merged(results).kind == Hosting <==> exists r :: r in results && (r.flags.datacenter || r.kind == Hosting)
    ensures results == [] ==> Merged(results).kind == Unknown
  {
    FlagsAre(results);
    assert HasType(results, Hosting) <==> exists r :: r in results && r.kind == Hosting;
    if results == [] { assert forall r :: r !in results; }
  }

  lemma NobodyIs(results: seq<Result>, t: Type)
    ensures !HasType(results, t) <==> forall r :: r in results ==> r.kind != t
  {}

  /** The type: hosting if a provider says so or a data centre; otherwise the first of mobile,
      CDN, business, education and government that a provider says; otherwise residential. */
  lemma TypeIs(results: seq<Result>)
    requires results != []
    ensures var kind := Merged(results).kind;
            && kind in {Hosting, Mobile, Cdn, Business, Education, Government, Residential}
            && (kind == Hosting <==> exists r :: r in results && (r.flags.datacenter || r.kind == Hosting))
            && (kind == Mobile ==> HasType(results, Mobile))
            && (kind == Cdn ==> HasType(results, Cdn) && NobodySays(results, {Mobile}))
            && (kind == Business ==> HasType(results, Business) && NobodySays(results, {Mobile, Cdn}))
            && (kind == Education ==> HasType(results, Education) && NobodySays(results, {Mobile, Cdn, Business}))
            && (kind == Government ==> HasType(results, Government) && NobodySays(results, {Mobile, Cdn, Business, Education}))
            && (kind == Residential ==> NobodySays(results, {Mobile, Cdn, Business, Education, Government}))
  {
    HostingIs(results);
    NobodyIs(results, Mobile);
    NobodyIs(results, Cdn);
    NobodyIs(results, Business);
    NobodyIs(results, Education);
    NobodyIs(results, Government);
  }

  /** Sources are listed in the order in which they were first named. */
  lemma {:induction false} SourcesInOrder(results: seq<Result>, n: nat)
    requires n <= |results|
    ensures Merged(results[..n]).sources <= Merged(results).sources
  {
    if n == |results| {
      assert results[..n] == results;
    } else {
      var p := results[..|results|-1];
      assert p[..n] == results[..n];
      SourcesInOrder(p, n);
    }
  }

  // ---------------------------------------------------------------- arrival order

  lemma {:induction false} FlagsAre(results: seq<Result>)
    ensures var f := AllFlags(results);
            && (f.proxy <==> exists r :: r in results && r.flags.proxy)
            && (f.vpn <==> exists r :: r in results && r.flags.vpn)
            && (f.tor <==> exists r :: r in results && r.flags.tor)
            && (f.abuser <==> exists r :: r in results && r.flags.abuser)
            && (f.datacenter <==> exists r :: r in results && r.flags.datacenter)
            && (f.crawler <==> exists r :: r in results && r.flags.crawler)
  {
    if results != [] {
      var p, last := results[..|results|-1], results[|results|-1];
      FlagsAre(p);
      assert forall r :: r in results <==> r in p || r == last;
    }
  }

  /** The top score is a bound, and a score that was given unless it is 0. */
  lemma {:induction false} TopScoreIs(results: seq<Result>)
    ensures var top := TopScore(results);
            && top >= 0.0
            && (forall r :: r in results && r.hasScore ==> r.riskScore <= top)
            && (top == 0.0 || exists r :: r in results && r.hasScore && r.riskScore == top)
  {
    if results != [] {
      var p, last := results[..|results|-1], results[|results|-1];
      TopScoreIs(p);
      assert forall r :: r in results <==> r in p || r == last;
    }
  }

  lemma {:induction false} SourcesAre(results: seq<Result>)
    ensures forall s :: s in Sources(results) <==> exists r :: r in results && r.source == s
    ensures forall i, j :: 0 <= i < j < |Sources(results)| ==> Sources(results)[i] != Sources(results)[j]
  {
    if results != [] {
      var p, last := results[..|results|-1], results[|results|-1];
      SourcesAre(p);
      assert forall r :: r in results <==> r in p || r == last;
    }
  }

  ghost predicate SameResults(a: seq<Result>, b: seq<Result>) { forall r :: r in a <==> r in b }

  lemma SameFlags(a: seq<Result>, b: seq<Result>)
    requires SameResults(a, b)
    ensures AllFlags(a) == AllFlags(b)
  {
    FlagsAre(a);
    FlagsAre(b);
  }

  lemma SameTopScore(a: seq<Result>, b: seq<Result>)
    requires SameResults(a, b)
    ensures TopScore(a) == TopScore(b)
  {
    TopScoreIs(a);
    TopScoreIs(b);
  }

  lemma SameType(a: seq<Result>, b: seq<Result>, flags: Flags)
    requires SameResults(a, b)
    ensures NormalizeType(a, flags) == NormalizeType(b, flags) && (a == [] <==> b == [])
  {
    forall t ensures HasType(a, t) <==> HasType(b, t) {}
    if a != [] { assert a[0] in b; }
    if b != [] { assert b[0] in a; }
  }

  /** Neither the order in which providers answer nor a repeated answer matters for flags,
      type, risk level, score, and the set of named sources. */
  lemma ArrivalOrderIrrelevant(a: seq<Result>, b: seq<Result>)
    requires SameResults(a, b)
    ensures var x, y := Merged(a), Merged(b);
            && x.flags == y.flags && x.kind == y.kind && x.risk == y.risk && x.score == y.score
            && forall s :: s in x.sources <==> s in y.sources
  {
    SameFlags(a, b);
    SameTopScore(a, b);
    SameType(a, b, AllFlags(a));
    SourcesAre(a);
    SourcesAre(b);
  }

  // ---------------------------------------------------------------- one more result

  lemma AddedFlag(f: Flags, g: Flags)
    ensures CompositeScore(f) <= CompositeScore(Or(f, g))
  {}

  lemma MergedSnoc(results: seq<Result>, r: Result)
    ensures AllFlags(results + [r]) == Or(AllFlags(results), r.flags)
    ensures TopScore(results + [r]) == if r.hasScore && r.riskScore > TopScore(results) then r.riskScore else TopScore(results)
    ensures Sources(results + [r]) == if r.source in Sources(results) then Sources(results) else Sources(results) + [r.source]
    ensures FirstPlace(results + [r]) == Fill(FirstPlace(results), r.place)
    ensures forall t :: HasType(results + [r], t) <==> HasType(results, t) || r.kind == t
  {
    assert (results + [r])[..|results|] == results;
    assert r in results + [r];
  }

  /** What an addition builds on, besides the type. */
  predicate SameBase(a: Intel, b: Intel) {
    a.flags == b.flags && a.score == b.score && a.sources == b.sources && a.place == b.place
  }

  /** Everything but the type. */
  predicate Agree(a: Intel, b: Intel) { SameBase(a, b) && a.risk == b.risk }

  lemma AddedAgrees(a: Intel, b: Intel, r: Result)
    requires SameBase(a, b)
    ensures Agree(Added(a, r), Added(b, r))
  {}

  lemma LookedBase(results: seq<Result>)
    ensures SameBase(Looked(results), Merged(results))
  {}

  lemma AddedScore(results: seq<Result>, r: Result)
    ensures Added(Merged(results), r).score == Merged(results + [r]).score
  {
    MergedSnoc(results, r);
    AddedFlag(AllFlags(results), r.flags);
    TopScoreIs(results);
  }

  lemma AddingToMerged(results: seq<Result>, r: Result)
    ensures Agree(Added(Merged(results), r), Merged(results + [r])) <==> r.source != "" || "" in Sources(results)
  {
    MergedSnoc(results, r);
    AddedScore(results, r);
  }

  /** Adding one result to what was looked up, nothing included, agrees, in all but the type,
      with merging the longer list exactly when the result names its source or a nameless
      one is listed. */
  lemma AddingIsMerging(results: seq<Result>, r: Result)
    ensures Agree(Added(Looked(results), r), Merged(results + [r])) <==> r.source != "" || "" in Sources(results)
  {
    LookedBase(results);
    AddedAgrees(Looked(results), Merged(results), r);
    AddingToMerged(results, r);
  }

  function AddedAll(intel: Intel, more: seq<Result>): Intel {
    if more == [] then intel else Added(AddedAll(intel, more[..|more|-1]), more[|more|-1])
  }

  lemma AddedAllSnoc(intel: Intel, more: seq<Result>, r: Result)
    ensures AddedAll(intel, more + [r]) == Added(AddedAll(intel, more), r)
  {
    assert (more + [r])[..|more|] == more;
  }

  /** However the results are divided between the first look-up and later additions, flags,
      level, score, sources and place are those of one merge of all. */
  lemma {:induction false} AddingAllIsMerging(results: seq<Result>, more: seq<Result>)
    requires forall r :: r in more ==> r.source != ""
    ensures Agree(AddedAll(Looked(results), more), Looked(results + more))
  {
    if more == [] {
      assert results + more == results;
    } else {
      var p, last := more[..|more|-1], more[|more|-1];
      assert more == p + [last] && last in more;
      AddingAllIsMerging(results, p);
      AddedAllSnoc(Looked(results), p, last);
      AddingOneMore(AddedAll(Looked(results), p), results + p, last);
      assert results + more == (results + p) + [last];
    }
  }

  lemma AddingOneMore(intel: Intel, results: seq<Result>, r: Result)
    requires Agree(intel, Looked(results)) && r.source != ""
    ensures Agree(Added(intel, r), Looked(results + [r]))
  {
    AddedAgrees(intel, Looked(results), r);
    AddingIsMerging(results, r);
  }

  /** A listed type outranks those after it. */
  function Rank(t: Type): nat {
    match t
    case Hosting => 6
    case Mobile => 5
    case Cdn => 4
    case Business => 3
    case Education => 2
    case Government => 1
    case _ => 0
  }

  /** The merged type is residential or the type of highest rank. */
  lemma TypeRank(results: seq<Result>, flags: Flags)
    requires results != []
    ensures var t := NormalizeType(results, flags);
            && (Rank(t) > 0 || t.Residential?)
            && (Rank(t) == 6 <==> flags.datacenter || HasType(results, Hosting))
            && (forall u :: HasType(results, u) ==> Rank(u) <= Rank(t))
            && (0 < Rank(t) < 6 ==> HasType(results, t))
  {}

  /** One more result replaces the type by its own if that has a higher rank. */
  lemma TypeSnoc(results: seq<Result>, r: Result, before: Flags, after: Flags)
    requires results != [] && !r.flags.datacenter && after == Or(before, r.flags)
    ensures var t := NormalizeType(results, before);
            NormalizeType(results + [r], after) == if Rank(r.kind) > Rank(t) then r.kind else t
  {
    MergedSnoc(results, r);
    var t, u := NormalizeType(results, before), NormalizeType(results + [r], after);
    TypeRank(results, before);
    TypeRank(results + [r], after);
    assert HasType(results + [r], r.kind);
  }

  lemma TypeOfOne(r: Result)
    ensures Merged([r]).kind == if r.flags.datacenter then Hosting else if Rank(r.kind) > 0 then r.kind else Residential
  {
    MergedSnoc([], r);
    assert [] + [r] == [r];
    assert forall t :: HasType([r], t) <==> r.kind == t;
  }

  lemma FirstType(r: Result)
    ensures Added(NO_INTEL, r).kind == Merged([r]).kind <==>
              r.flags.datacenter || r.kind.Hosting? || Rank(r.kind) > 0 || r.kind.Residential?
  {
    TypeOfOne(r);
  }

  /** The types that may be added to a known type. */
  predicate Compatible(t: Type, u: Type) {
    if t.Residential? then Rank(u) > 0 || u.Residential? || u.Blank? else Rank(u) <= Rank(t)
  }

  lemma NextTypeIs(t: Type, r: Result)
    requires Rank(t) > 0 || t.Residential?
    requires !r.flags.datacenter && !r.kind.Hosting?
    ensures NextType(t, r) == (if Rank(r.kind) > Rank(t) then r.kind else t) <==> Compatible(t, r.kind)
  {}

  lemma LaterType(results: seq<Result>, r: Result)
    requires results != []
    ensures !Merged(results).kind.Blank?
    ensures var t := Merged(results).kind;
            Added(Merged(results), r).kind == Merged(results + [r]).kind <==>
              r.flags.datacenter || r.kind.Hosting? || Compatible(t, r.kind)
  {
    var flags, t := AllFlags(results), Merged(results).kind;
    TypeRank(results, flags);
    MergedSnoc(results, r);
    if !r.flags.datacenter {
      TypeSnoc(results, r, flags, AllFlags(results + [r]));
      if !r.kind.Hosting? { NextTypeIs(t, r); }
    }
  }

  /** The type after adding one result is that of merging the longer list exactly when the
      result says hosting, or: over nothing, the new type is a listed one or residential;
      over a residential address, it is a listed one, residential or blank; over any other,
      it does not outrank the old one. */
  lemma AddingKeepsTypeIff(results: seq<Result>, r: Result)
    ensures var intel := Looked(results);
            Added(intel, r).kind == Merged(results + [r]).kind <==>
              || r.flags.datacenter || r.kind.Hosting?
              || if intel.kind.Blank? then Rank(r.kind) > 0 || r.kind.Residential? else Compatible(intel.kind, r.kind)
  {
    if results == [] {
      FirstType(r);
      assert results + [r] == [r];
    } else {
      LaterType(results, r);
    }
  }

  /** A business address of which a later provider says mobile stays business, while merging
      both answers at once says mobile. */
  lemma LateMobileIsLost(first: Result, later: Result)
    requires first.kind.Business? && later.kind.Mobile? && !first.flags.datacenter && !later.flags.datacenter
    ensures Added(Looked([first]), later).kind == Business && Merged([first, later]).kind == Mobile
  {
    TypeOfOne(first);
    MergedSnoc([first], later);
    TypeSnoc([first], later, AllFlags([first]), AllFlags([first] + [later]));
    assert [first] + [later] == [first, later];
  }
}
