/** The per-subscription fallback cache (internal/fetch/source_cache.go): what it serves is
    a function of the fetch history. */
module SourceCache {
  import opened Common
  import Text

  datatype FetchResult = FetchResult(url: string, status: string, lines: seq<string>, error: string, via: string)

  datatype Kept = Kept(lines: seq<string>, lastSuccess: int)

  datatype Merged = Merged(url: string, lines: seq<string>, fetchOK: bool, stale: bool, viaProxy: bool)

  /** A client error other than "too many requests" ends a source. */
  predicate IsAuthoritativeFailure(err: string) {
    HasPrefix(err, "HTTP 4") && !HasPrefix(err, "HTTP 429")
  }

  predicate Stores(r: FetchResult) { r.status == "ok" && r.lines != [] }

  predicate Clears(r: FetchResult) {
    if r.status == "ok" then r.lines == [] else IsAuthoritativeFailure(r.error)
  }

  /** The cache after one result. */
  function Updated(snapshots: map<string, Kept>, now: int, r: FetchResult): map<string, Kept> {
    if Stores(r) then snapshots[r.url := Kept(r.lines, now)]
    else if Clears(r) then snapshots - {r.url}
    else snapshots
  }

  /** What one result is merged to, given the cache before it. */
  function Served(snapshots: map<string, Kept>, now: int, r: FetchResult, maxAge: int): Merged {
    if r.status == "ok" then Merged(r.url, r.lines, true, false, r.lines != [] && r.via != "")
    else if IsAuthoritativeFailure(r.error) then Merged(r.url, [], false, false, false)
    else if r.url in snapshots && now - snapshots[r.url].lastSuccess <= maxAge
    then Merged(r.url, snapshots[r.url].lines, false, true, false)
    else Merged(r.url, [], false, false, false)
  }

  /** The cache after a list of results, merged one after the other. */
  function UpdatedBy(snapshots: map<string, Kept>, now: int, results: seq<FetchResult>): map<string, Kept> {
    if results == [] then snapshots
    else Updated(UpdatedBy(snapshots, now, results[..|results|-1]), now, results[|results|-1])
  }

  function MergedBy(snapshots: map<string, Kept>, now: int, results: seq<FetchResult>, maxAge: int): (m: seq<Merged>)
    ensures |m| == |results|
  {
    if results == [] then []
    else
      var p := results[..|results|-1];
      MergedBy(snapshots, now, p, maxAge) + [Served(UpdatedBy(snapshots, now, p), now, results[|results|-1], maxAge)]
  }

  function Concat(m: seq<Merged>): seq<string> {
    if m == [] then [] else Concat(m[..|m|-1]) + m[|m|-1].lines
  }

  class Cache {
    var snapshots: map<string, Kept>

    constructor ()
      ensures snapshots == map[]
    {
      snapshots := map[];
    }

    method MergeDetailed(now: int, results: seq<FetchResult>, maxAge: int) returns (merged: seq<Merged>)
      modifies this
      ensures merged == MergedBy(old(snapshots), now, results, maxAge)
      ensures snapshots == UpdatedBy(old(snapshots), now, results)
    {
      merged := [];
      for i := 0 to |results|
        invariant merged == MergedBy(old(snapshots), now, results[..i], maxAge)
        invariant snapshots == UpdatedBy(old(snapshots), now, results[..i])
      {
        var result := results[i];
        assert results[..i+1][..i] == results[..i];
        if result.status == "ok" {
          if |result.lines| == 0 {
            snapshots := snapshots - {result.url};
            merged := merged + [Merged(result.url, [], true, false, false)];
            continue;
          }
          snapshots := snapshots[result.url := Kept(result.lines, now)];
          merged := merged + [Merged(result.url, result.lines, true, false, result.via != "")];
          continue;
        }
        if IsAuthoritativeFailure(result.error) {
          snapshots := snapshots - {result.url};
          merged := merged + [Merged(result.url, [], false, false, false)];
          continue;
        }
        if result.url in snapshots && now - snapshots[result.url].lastSuccess <= maxAge {
          merged := merged + [Merged(result.url, snapshots[result.url].lines, false, true, false)];
          continue;
        }
        merged := merged + [Merged(result.url, [], false, false, false)];
      }
      assert results[..|results|] == results;
    }

    method Merge(now: int, results: seq<FetchResult>, maxAge: int) returns (lines: seq<string>)
      modifies this
      ensures lines == Concat(MergedBy(old(snapshots), now, results, maxAge))
      ensures snapshots == UpdatedBy(old(snapshots), now, results)
    {
      var detailed := MergeDetailed(now, results, maxAge);
      lines := [];
      for i := 0 to |detailed|
        invariant lines == Concat(detailed[..i])
      {
        assert detailed[..i+1][..i] == detailed[..i];
        lines := lines + detailed[i].lines;
      }
      assert detailed[..|detailed|] == detailed;
    }
  }

  // ---------------------------------------------------------------- histories

  /** One fetched result and the time of the merge that took it in. */
  datatype Event = Event(result: FetchResult, at: int)

  /** One call of MergeDetailed. */
  datatype Batch = Batch(results: seq<FetchResult>, now: int, maxAge: int)

  function EventsOf(results: seq<FetchResult>, now: int): (r: seq<Event>)
    ensures |r| == |results|
  {
    seq(|results|, i requires 0 <= i < |results| => Event(results[i], now))
  }

  /** All results taken in by the merges so far, oldest first. */
  function Events(batches: seq<Batch>): seq<Event> {
    if batches == [] then []
    else Events(batches[..|batches|-1]) + EventsOf(batches[|batches|-1].results, batches[|batches|-1].now)
  }

  /** A new cache after these merges. */
  function After(batches: seq<Batch>): map<string, Kept> {
    if batches == [] then map[]
    else UpdatedBy(After(batches[..|batches|-1]), batches[|batches|-1].now, batches[|batches|-1].results)
  }

  /** Event `i` is the last non-empty success of this source, and nothing has cleared it. */
  ghost predicate LastGood(h: seq<Event>, url: string, i: int) {
    && 0 <= i < |h| && h[i].result.url == url && Stores(h[i].result)
    && forall j :: i < j < |h| && h[j].result.url == url ==> !Stores(h[j].result) && !Clears(h[j].result)
  }

  /** What the cache holds for a source is its last non-empty success not cleared since. */
  ghost predicate Holds(snapshots: map<string, Kept>, h: seq<Event>, url: string) {
    && (url in snapshots ==> exists i :: LastGood(h, url, i) && snapshots[url] == Kept(h[i].result.lines, h[i].at))
    && (url !in snapshots ==> forall i :: !LastGood(h, url, i))
  }

  lemma LastGoodUnique(h: seq<Event>, url: string, i: int, j: int)
    requires LastGood(h, url, i) && LastGood(h, url, j)
    ensures i == j
  {}

  lemma UpdatedHolds(snapshots: map<string, Kept>, h: seq<Event>, e: Event, url: string)
    requires Holds(snapshots, h, url)
    ensures Holds(Updated(snapshots, e.at, e.result), h + [e], url)
  {
    var longer := h + [e];
    var n := |h|;
    if e.result.url == url && Stores(e.result) {
      assert LastGood(longer, url, n);
    } else if e.result.url == url && Clears(e.result) {
      forall i ensures !LastGood(longer, url, i) {
        if i < n { assert longer[n].result.url == url; }
      }
    } else {
      forall i ensures LastGood(longer, url, i) <==> LastGood(h, url, i) {
        if LastGood(longer, url, i) {
          assert i < n;
          assert forall j :: i < j < n ==> longer[j] == h[j];
        }
      }
      if url in snapshots {
        var i :| LastGood(h, url, i) && snapshots[url] == Kept(h[i].result.lines, h[i].at);
        assert LastGood(longer, url, i);
      }
    }
  }

  lemma {:induction false} UpdatedByHolds(snapshots: map<string, Kept>, h: seq<Event>, now: int, results: seq<FetchResult>, url: string)
    requires Holds(snapshots, h, url)
    ensures Holds(UpdatedBy(snapshots, now, results), h + EventsOf(results, now), url)
  {
    if results == [] {
      assert h + EventsOf([], now) == h;
    } else {
      var p, last := results[..|results|-1], results[|results|-1];
      UpdatedByHolds(snapshots, h, now, p, url);
      UpdatedHolds(UpdatedBy(snapshots, now, p), h + EventsOf(p, now), Event(last, now), url);
      assert h + EventsOf(results, now) == (h + EventsOf(p, now)) + [Event(last, now)];
    }
  }

  lemma {:induction false} CacheHoldsLastGood(batches: seq<Batch>, url: string)
    ensures Holds(After(batches), Events(batches), url)
  {
    if batches != [] {
      var p, last := batches[..|batches|-1], batches[|batches|-1];
      CacheHoldsLastGood(p, url);
      UpdatedByHolds(After(p), Events(p), last.now, last.results, url);
    }
  }

  /** What must be served for a result, from the history of its source alone: the result
      itself if it succeeded, nothing after an authoritative failure, otherwise the last
      non-empty success not cleared since if it is no older than maxAge. */
  ghost predicate ServedFromHistory(m: Merged, h: seq<Event>, now: int, r: FetchResult, maxAge: int) {
    && m.url == r.url
    && (m.fetchOK <==> r.status == "ok")
    && (m.viaProxy <==> Stores(r) && r.via != "")
    && (r.status == "ok" ==> m.lines == r.lines && !m.stale)
    && (r.status != "ok" && IsAuthoritativeFailure(r.error) ==> m.lines == [] && !m.stale)
    && (r.status != "ok" && !IsAuthoritativeFailure(r.error) ==>
          && (m.stale ==> exists i :: LastGood(h, r.url, i) && now - h[i].at <= maxAge && m.lines == h[i].result.lines)
          && (!m.stale ==> m.lines == [] && forall i :: LastGood(h, r.url, i) ==> now - h[i].at > maxAge))
  }

  lemma ServedHolds(snapshots: map<string, Kept>, h: seq<Event>, now: int, r: FetchResult, maxAge: int)
    requires Holds(snapshots, h, r.url)
    ensures ServedFromHistory(Served(snapshots, now, r, maxAge), h, now, r, maxAge)
  {
    if r.url in snapshots {
      var i :| LastGood(h, r.url, i) && snapshots[r.url] == Kept(h[i].result.lines, h[i].at);
      forall j | LastGood(h, r.url, j) ensures j == i { LastGoodUnique(h, r.url, i, j); }
    }
  }

  lemma {:induction false} MergedByAt(snapshots: map<string, Kept>, now: int, results: seq<FetchResult>, maxAge: int, k: nat)
    requires k < |results|
    ensures MergedBy(snapshots, now, results, maxAge)[k] == Served(UpdatedBy(snapshots, now, results[..k]), now, results[k], maxAge)
  {
    var p := results[..|results|-1];
    if k < |p| {
      MergedByAt(snapshots, now, p, maxAge, k);
      assert p[..k] == results[..k];
    }
  }

  /** After any sequence of merges, each result of the next merge is served from the history
      of its own source, which includes the results before it in the same merge; order and
      count of the results are kept. */
  lemma MergeServesHistory(batches: seq<Batch>, next: Batch, k: nat)
    requires k < |next.results|
    ensures |MergedBy(After(batches), next.now, next.results, next.maxAge)| == |next.results|
    ensures ServedFromHistory(MergedBy(After(batches), next.now, next.results, next.maxAge)[k],
                              Events(batches) + EventsOf(next.results[..k], next.now), next.now, next.results[k], next.maxAge)
  {
    var r, before := next.results[k], next.results[..k];
    MergedByAt(After(batches), next.now, next.results, next.maxAge, k);
    CacheHoldsLastGood(batches, r.url);
    UpdatedByHolds(After(batches), Events(batches), next.now, before, r.url);
    ServedHolds(UpdatedBy(After(batches), next.now, before), Events(batches) + EventsOf(before, next.now), next.now, r, next.maxAge);
  }

  /** The events of one source. */
  function Own(h: seq<Event>, url: string): seq<Event> {
    if h == [] then []
    else Own(h[..|h|-1], url) + if h[|h|-1].result.url == url then [h[|h|-1]] else []
  }

  /** What the events of one source leave of it. */
  function Left(own: seq<Event>): Option<Kept> {
    if own == [] then None
    else
      var last := own[|own|-1];
      if Stores(last.result) then Some(Kept(last.result.lines, last.at))
      else if Clears(last.result) then None
      else Left(own[..|own|-1])
  }

  function KeptOf(snapshots: map<string, Kept>, url: string): Option<Kept> {
    if url in snapshots then Some(snapshots[url]) else None
  }

  lemma {:induction false} OwnAppend(a: seq<Event>, b: seq<Event>, url: string)
    ensures Own(a + b, url) == Own(a, url) + Own(b, url)
  {
    if b == [] {
      assert a + b == a;
    } else {
      assert (a + b)[..|a + b|-1] == a + b[..|b|-1];
      OwnAppend(a, b[..|b|-1], url);
    }
  }

  lemma LeftSnoc(own: seq<Event>, e: Event)
    ensures Left(own + [e]) == if Stores(e.result) then Some(Kept(e.result.lines, e.at)) else if Clears(e.result) then None else Left(own)
  {
    assert (own + [e])[..|own|] == own;
  }

  lemma {:induction false} UpdatedByOwn(snapshots: map<string, Kept>, h: seq<Event>, now: int, results: seq<FetchResult>, url: string)
    requires KeptOf(snapshots, url) == Left(Own(h, url))
    ensures KeptOf(UpdatedBy(snapshots, now, results), url) == Left(Own(h + EventsOf(results, now), url))
  {
    if results == [] {
      assert h + EventsOf([], now) == h;
    } else {
      var p, last := results[..|results|-1], results[|results|-1];
      var before, e := h + EventsOf(p, now), Event(last, now);
      UpdatedByOwn(snapshots, h, now, p, url);
      assert h + EventsOf(results, now) == before + [e];
      OwnAppend(before, [e], url);
      assert Own([e], url) == if last.url == url then [e] else [] by { assert [e][..0] == []; }
      LeftSnoc(Own(before, url), e);
      assert Own(before, url) + [] == Own(before, url);
    }
  }

  /** What the cache holds of a source after any merges is a function of the results of that
      source alone: other sources do not matter. */
  lemma {:induction false} SourcesIndependent(batches: seq<Batch>, url: string)
    ensures KeptOf(After(batches), url) == Left(Own(Events(batches), url))
  {
    if batches != [] {
      var p, last := batches[..|batches|-1], batches[|batches|-1];
      SourcesIndependent(p, url);
      UpdatedByOwn(After(p), Events(p), last.now, last.results, url);
    }
  }

  // ---------------------------------------------------------------- in terms of the answers

  /** How one fetch ended: with the lines of a page, with an HTTP status, or before that. */
  datatype Answer = Page(lines: seq<string>) | Status(code: nat) | Broken(step: string)

  /** A status has three digits, and no other failure reads like one. */
  predicate Possible(a: Answer) {
    match a
    case Page(_) => true
    case Status(code) => 100 <= code <= 999
    case Broken(step) => !HasPrefix(step, "HTTP ")
  }

  /** What `fetchSingle` reports of it. */
  function Reported(url: string, a: Answer, via: string): FetchResult {
    match a
    case Page(lines) => FetchResult(url, "ok", lines, "", via)
    case Status(code) => FetchResult(url, "error", [], "HTTP " + Text.FormatInt(code), "")
    case Broken(step) => FetchResult(url, "error", [], step, "")
  }

  /** The source says that it has nothing: a 4xx, but not "too many requests". */
  predicate Refuses(a: Answer) { a.Status? && 400 <= a.code <= 499 && a.code != 429 }

  lemma ThreeDigits(code: nat)
    requires 100 <= code <= 999
    ensures Text.Itoa(code) == [Text.Digit(code / 100), Text.Digit(code / 10 % 10), Text.Digit(code % 10)]
  {
    assert code / 10 / 10 == code / 100;
    assert Text.Itoa(code / 100) == [Text.Digit(code / 100)];
    assert Text.Itoa(code / 10) == Text.Itoa(code / 100) + [Text.Digit(code / 10 % 10)];
  }

  lemma DigitsApart(m: nat, n: nat)
    requires m < 10 && n < 10
    ensures Text.Digit(m) == Text.Digit(n) <==> m == n
  {}

  lemma PrefixOfCode(code: nat)
    requires 100 <= code <= 999
    ensures HasPrefix("HTTP " + Text.Itoa(code), "HTTP 4") <==> code / 100 == 4
    ensures HasPrefix("HTTP " + Text.Itoa(code), "HTTP 429") <==> code == 429
  {
    var err := "HTTP " + Text.Itoa(code);
    ThreeDigits(code);
    DigitsApart(code / 100, 4);
    DigitsApart(code / 10 % 10, 2);
    DigitsApart(code % 10, 9);
    assert Text.Digit(4) == '4' && Text.Digit(2) == '2' && Text.Digit(9) == '9';
    assert err[..5] == "HTTP " && err[5..] == Text.Itoa(code);
    assert err[..6] == "HTTP " + [err[5]] && err[..8] == "HTTP " + [err[5], err[6], err[7]];
  }

  lemma NoCodeAtAll(step: string)
    ensures HasPrefix(step, "HTTP 4") ==> HasPrefix(step, "HTTP ")
  {
    if HasPrefix(step, "HTTP 4") {
      assert step[..6] == "HTTP 4";
      assert step[..5] == step[..6][..5];
    }
  }

  /** What an answer does to the cache: a page replaces or clears, a 4xx other than 429
      clears, and nothing else touches it. */
  lemma AnswerMeans(url: string, a: Answer, via: string)
    requires Possible(a)
    ensures var r := Reported(url, a, via);
            && (r.status == "ok" <==> a.Page?)
            && (Stores(r) <==> a.Page? && a.lines != [])
            && (Clears(r) <==> (a.Page? && a.lines == []) || Refuses(a))
            && (!a.Page? ==> (IsAuthoritativeFailure(r.error) <==> Refuses(a)))
  {
    match a
    case Page(_) =>
    case Status(code) => PrefixOfCode(code);
    case Broken(step) =>
      NoCodeAtAll(step);
  }

  /** The fetch history behind a list of events. */
  ghost predicate FromAnswers(h: seq<Event>, answers: seq<Answer>) {
    && |answers| == |h|
    && forall i :: 0 <= i < |h| ==>
         Possible(answers[i]) && h[i].result == Reported(h[i].result.url, answers[i], h[i].result.via)
  }

  /** Answer `i` is the last page with lines of this source; since then it gave neither a
      page nor a 4xx other than 429. */
  ghost predicate LastPage(h: seq<Event>, answers: seq<Answer>, url: string, i: int)
    requires |answers| == |h|
  {
    && 0 <= i < |h| && h[i].result.url == url && answers[i].Page? && answers[i].lines != []
    && forall j :: i < j < |h| && h[j].result.url == url ==> !answers[j].Page? && !Refuses(answers[j])
  }

  lemma LastPageIsLastGood(h: seq<Event>, answers: seq<Answer>, url: string, i: int)
    requires FromAnswers(h, answers)
    ensures LastGood(h, url, i) <==> LastPage(h, answers, url, i)
    ensures LastPage(h, answers, url, i) ==> h[i].result.lines == answers[i].lines
  {
    forall j | 0 <= j < |h|
      ensures (Stores(h[j].result) <==> answers[j].Page? && answers[j].lines != [])
              && (Clears(h[j].result) <==> (answers[j].Page? && answers[j].lines == []) || Refuses(answers[j]))
    {
      AnswerMeans(h[j].result.url, answers[j], h[j].result.via);
    }
  }

  /** What is served after an answer, given the answers before it: a page serves itself; a
      4xx other than 429 serves nothing; any other failure serves the last page with lines,
      if it is no older than maxAge and no page or such 4xx came since. */
  ghost predicate ServedAfter(m: Merged, h: seq<Event>, answers: seq<Answer>, now: int, url: string, answer: Answer, maxAge: int)
    requires |answers| == |h|
  {
    match answer
    case Page(lines) => m.lines == lines && m.fetchOK && !m.stale
    case _ =>
      && !m.fetchOK
      && (Refuses(answer) ==> m.lines == [] && !m.stale)
      && (!Refuses(answer) && (exists i :: LastPage(h, answers, url, i) && now - h[i].at <= maxAge) ==>
            m.stale && exists i :: LastPage(h, answers, url, i) && m.lines == answers[i].lines)
      && (!Refuses(answer) && (forall i :: LastPage(h, answers, url, i) ==> now - h[i].at > maxAge) ==> m.lines == [] && !m.stale)
  }

  /** In status codes and pages: after any merges every result is served as its answer and the
      answers of its source before it say. */
  lemma AnswersDecide(batches: seq<Batch>, next: Batch, k: nat, answers: seq<Answer>, answer: Answer)
    requires k < |next.results| && Possible(answer)
    requires next.results[k] == Reported(next.results[k].url, answer, next.results[k].via)
    requires FromAnswers(Events(batches) + EventsOf(next.results[..k], next.now), answers)
    ensures ServedAfter(MergedBy(After(batches), next.now, next.results, next.maxAge)[k],
                        Events(batches) + EventsOf(next.results[..k], next.now), answers, next.now, next.results[k].url, answer, next.maxAge)
  {
    var h, r := Events(batches) + EventsOf(next.results[..k], next.now), next.results[k];
    MergeServesHistory(batches, next, k);
    AnswerMeans(r.url, answer, r.via);
    forall i ensures LastGood(h, r.url, i) <==> LastPage(h, answers, r.url, i) { LastPageIsLastGood(h, answers, r.url, i); }
    forall i | LastPage(h, answers, r.url, i) ensures h[i].result.lines == answers[i].lines { LastPageIsLastGood(h, answers, r.url, i); }
  }

  /** A source is forgotten exactly by an empty page or a 4xx other than 429. */
  lemma AnswerForgets(snapshots: map<string, Kept>, now: int, url: string, answer: Answer, via: string)
    requires Possible(answer) && url in snapshots
    ensures url !in Updated(snapshots, now, Reported(url, answer, via)) <==>
              answer == Page([]) || (answer.Status? && 400 <= answer.code <= 499 && answer.code != 429)
  {
    AnswerMeans(url, answer, via);
  }
}
