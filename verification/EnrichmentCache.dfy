/** The cache of reputation, port and DNSBL findings (internal/enrichment/cache.go): which
    keys are due for a check, and how many are covered. */
module EnrichmentCache {
  import opened Common
  import opened Sorting

  datatype State = Fresh | Stale | Missing

  datatype Coverage = Coverage(eligible: nat, good: nat, stale: nat, missing: nat)

  datatype Entry<T> = Entry(value: T, checkedAt: int)

  /** What a cache holds; `Absent` is Go's nil pointer, on which every method works. */
  datatype Store<T> = Absent | Store(ttl: int, entries: map<string, Entry<T>>)
  {
    /** A cache that never stored anything under a blank key or without a lifetime. */
    predicate Valid() {
      Store? ==> "" !in entries && (ttl <= 0 ==> entries == map[])
    }
  }

  function StateOf<T>(s: Store<T>, key: string, now: int): State {
    if s.Absent? || s.ttl <= 0 || key == "" || key !in s.entries then Missing
    else if now - s.entries[key].checkedAt >= s.ttl then Stale
    else Fresh
  }

  function Found<T>(s: Store<T>, key: string): Option<T> {
    if s.Absent? || s.ttl <= 0 || key == "" || key !in s.entries then None else Some(s.entries[key].value)
  }

  function Put<T>(s: Store<T>, key: string, value: T, at: int): Store<T> {
    if s.Absent? || s.ttl <= 0 || key == "" then s else s.(entries := s.entries[key := Entry(value, at)])
  }

  /** The keys that are not blank, each at its first place. */
  function Distinct(keys: seq<string>): seq<string> {
    if keys == [] then []
    else
      var before, last := Distinct(keys[..|keys|-1]), keys[|keys|-1];
      if last == "" || last in before then before else before + [last]
  }

  datatype Candidate = Candidate(key: string, missing: bool, checkedAt: int)

  function CandidateFor<T>(s: Store<T>, key: string): Candidate
    requires s.Store?
  {
    if key in s.entries then Candidate(key, false, s.entries[key].checkedAt) else Candidate(key, true, 0)
  }

  predicate IsDue<T>(s: Store<T>, key: string, now: int)
    requires s.Store?
  {
    key in s.entries ==> now - s.entries[key].checkedAt >= s.ttl
  }

  function Candidates<T>(s: Store<T>, keys: seq<string>, now: int): seq<Candidate>
    requires s.Store?
  {
    if keys == [] then []
    else
      var before, last := Candidates(s, keys[..|keys|-1], now), keys[|keys|-1];
      if IsDue(s, last, now) then before + [CandidateFor(s, last)] else before
  }

  predicate Before(a: Candidate, b: Candidate) {
    if a.missing != b.missing then a.missing
    else if a.checkedAt != b.checkedAt then a.checkedAt < b.checkedAt
    else StrLess(a.key, b.key)
  }

  function KeysOf(candidates: seq<Candidate>): (r: seq<string>)
    ensures |r| == |candidates|
  {
    seq(|candidates|, i requires 0 <= i < |candidates| => candidates[i].key)
  }

  function DueKeys<T>(s: Store<T>, keys: seq<string>, now: int): seq<string> {
    if s.Absent? then StableSort(StrLess, Distinct(keys))
    else KeysOf(StableSort(Before, Candidates(s, Distinct(keys), now)))
  }

  /** One more eligible key. */
  function Tally(c: Coverage, state: State): Coverage {
    var c := c.(eligible := c.eligible + 1);
    match state
    case Fresh => c.(good := c.good + 1)
    case Stale => c.(stale := c.stale + 1)
    case Missing => c.(missing := c.missing + 1)
  }

  function Count<T>(s: Store<T>, keys: seq<string>, now: int): Coverage {
    if keys == [] then Coverage(0, 0, 0, 0)
    else Tally(Count(s, keys[..|keys|-1], now), StateOf(s, keys[|keys|-1], now))
  }

  // ---------------------------------------------------------------- the cache object

  class Cache<T> {
    const ttl: int
    var entries: map<string, Entry<T>>

    constructor (ttl: int)
      ensures this.ttl == ttl && entries == map[]
    {
      this.ttl, this.entries := ttl, map[];
    }
  }

  function View<T>(c: Cache?<T>): Store<T>
    reads c
  {
    if c == null then Absent else Store(c.ttl, c.entries)
  }

  method SetAt<T>(c: Cache?<T>, key: string, value: T, at: int)
    modifies c
    ensures View(c) == Put(old(View(c)), key, value, at)
  {
    if c == null || c.ttl <= 0 || key == "" { return; }
    c.entries := c.entries[key := Entry(value, at)];
  }

  method GetAt<T>(c: Cache?<T>, key: string, now: int) returns (value: Option<T>, state: State)
    ensures value == Found(View(c), key) && state == StateOf(View(c), key, now)
  {
    if c == null || c.ttl <= 0 || key == "" { return None, Missing; }
    if key !in c.entries { return None, Missing; }
    var entry := c.entries[key];
    if now - entry.checkedAt >= c.ttl { return Some(entry.value), Stale; }
    return Some(entry.value), Fresh;
  }

  lemma DistinctSnoc(keys: seq<string>, i: nat)
    requires i < |keys|
    ensures Distinct(keys[..i+1])
            == if keys[i] == "" || keys[i] in Distinct(keys[..i]) then Distinct(keys[..i]) else Distinct(keys[..i]) + [keys[i]]
  {
    assert keys[..i+1][..i] == keys[..i];
  }

  lemma CandidatesSnoc<T>(s: Store<T>, keys: seq<string>, key: string, now: int)
    requires s.Store?
    ensures Candidates(s, keys + [key], now)
            == if IsDue(s, key, now) then Candidates(s, keys, now) + [CandidateFor(s, key)] else Candidates(s, keys, now)
  {
    assert (keys + [key])[..|keys|] == keys;
  }

  method UniqueSorted(keys: seq<string>) returns (result: seq<string>)
    ensures result == StableSort(StrLess, Distinct(keys))
  {
    var seen: set<string> := {};
    result := [];
    for i := 0 to |keys|
      invariant result == Distinct(keys[..i]) && seen == set k | k in result
    {
      DistinctSnoc(keys, i);
      if keys[i] == "" || keys[i] in seen {
        continue;
      }
      seen := seen + {keys[i]};
      result := result + [keys[i]];
    }
    assert keys[..|keys|] == keys;
    result := StableSort(StrLess, result);
  }

  method KeysInOrder(candidates: seq<Candidate>) returns (result: seq<string>)
    ensures result == KeysOf(candidates)
  {
    result := [];
    for i := 0 to |candidates|
      invariant result == KeysOf(candidates)[..i]
    {
      result := result + [candidates[i].key];
    }
  }

  method StaleKeysAt<T>(c: Cache?<T>, keys: seq<string>, now: int) returns (result: seq<string>)
    ensures result == DueKeys(View(c), keys, now)
  {
    if c == null {
      result := UniqueSorted(keys);
      return;
    }
    var seen: set<string> := {};
    var candidates: seq<Candidate> := [];
    ghost var listed: seq<string> := [];
    for i := 0 to |keys|
      invariant listed == Distinct(keys[..i]) && seen == set k | k in listed
      invariant candidates == Candidates(View(c), listed, now)
    {
      var key := keys[i];
      DistinctSnoc(keys, i);
      if key == "" {
        continue;
      }
      if key in seen {
        continue;
      }
      seen := seen + {key};
      CandidatesSnoc(View(c), listed, key, now);
      listed := listed + [key];
      if key !in c.entries {
        candidates := candidates + [Candidate(key, true, 0)];
        continue;
      }
      if now - c.entries[key].checkedAt >= c.ttl {
        candidates := candidates + [Candidate(key, false, c.entries[key].checkedAt)];
      }
    }
    assert keys[..|keys|] == keys;
    candidates := StableSort(Before, candidates);
    result := KeysInOrder(candidates);
  }

  lemma CountSnoc<T>(s: Store<T>, keys: seq<string>, key: string, now: int)
    ensures Count(s, keys + [key], now) == Tally(Count(s, keys, now), StateOf(s, key, now))
  {
    assert (keys + [key])[..|keys|] == keys;
  }

  method AddState(before: Coverage, state: State) returns (coverage: Coverage)
    ensures coverage == Tally(before, state)
  {
    coverage := before.(eligible := before.eligible + 1);
    match state {
      case Fresh => coverage := coverage.(good := coverage.good + 1);
      case Stale => coverage := coverage.(stale := coverage.stale + 1);
      case Missing => coverage := coverage.(missing := coverage.missing + 1);
    }
  }

  method CoverageAt<T>(c: Cache?<T>, keys: seq<string>, now: int) returns (coverage: Coverage)
    ensures coverage == Count(View(c), Distinct(keys), now)
  {
    coverage := Coverage(0, 0, 0, 0);
    var seen: set<string> := {};
    ghost var listed: seq<string> := [];
    for i := 0 to |keys|
      invariant listed == Distinct(keys[..i]) && seen == set k | k in listed
      invariant coverage == Count(View(c), listed, now)
    {
      var key := keys[i];
      DistinctSnoc(keys, i);
      if key == "" || key in seen {
        continue;
      }
      seen := seen + {key};
      CountSnoc(View(c), listed, key, now);
      listed := listed + [key];
      var _, state := GetAt(c, key, now);
      coverage := AddState(coverage, state);
    }
    assert keys[..|keys|] == keys;
  }

  // ---------------------------------------------------------------- histories

  datatype Check<T> = Check(key: string, value: T, at: int)

  /** A new cache after these results were stored. */
  function After<T>(ttl: int, checks: seq<Check<T>>): Store<T> {
    if checks == [] then Store(ttl, map[])
    else
      var last := checks[|checks|-1];
      Put(After(ttl, checks[..|checks|-1]), last.key, last.value, last.at)
  }

  /** Check `i` is the last one stored under its key. */
  predicate LastCheck<T(==)>(checks: seq<Check<T>>, key: string, i: int) {
    0 <= i < |checks| && checks[i].key == key && forall j :: i < j < |checks| ==> checks[j].key != key
  }

  /** After any history, a cache with a lifetime holds the last check of every key that is
      not blank, and a cache without one holds nothing; either way it is valid. */
  lemma {:induction false} CacheHoldsLastCheck<T>(ttl: int, checks: seq<Check<T>>, key: string)
    ensures var s := After(ttl, checks);
            && s.Store? && s.ttl == ttl && s.Valid()
            && (key in s.entries <==> ttl > 0 && key != "" && exists i :: LastCheck(checks, key, i))
            && forall i :: LastCheck(checks, key, i) && key in s.entries ==> s.entries[key] == Entry(checks[i].value, checks[i].at)
  {
    if checks != [] {
      var n := |checks| - 1;
      var p, last := checks[..n], checks[n];
      CacheHoldsLastCheck(ttl, p, key);
      if last.key == key {
        assert LastCheck(checks, key, n);
        assert forall i :: LastCheck(checks, key, i) ==> i == n;
      } else {
        forall i ensures LastCheck(checks, key, i) <==> LastCheck(p, key, i) {
          if LastCheck(checks, key, i) { assert forall j :: i < j < n ==> p[j] == checks[j]; }
        }
      }
    }
  }

  // ---------------------------------------------------------------- what is due

  lemma {:induction false} DistinctIs(keys: seq<string>)
    ensures NoRepeat(Distinct(keys))
    ensures forall k :: k in Distinct(keys) <==> k in keys && k != ""
  {
    if keys != [] {
      DistinctIs(keys[..|keys|-1]);
      assert forall k :: k in keys <==> k in keys[..|keys|-1] || k == keys[|keys|-1];
    }
  }

  predicate DistinctCandidates(c: seq<Candidate>) { forall i, j :: 0 <= i < j < |c| ==> c[i].key != c[j].key }

  lemma {:induction false} CandidatesAre<T>(s: Store<T>, keys: seq<string>, now: int)
    requires s.Store? && s.Valid() && NoRepeat(keys) && "" !in keys
    ensures DistinctCandidates(Candidates(s, keys, now))
    ensures forall x :: x in Candidates(s, keys, now) <==>
              x.key in keys && StateOf(s, x.key, now) != Fresh && x == CandidateFor(s, x.key)
  {
    if keys != [] {
      var p, last := keys[..|keys|-1], keys[|keys|-1];
      CandidatesAre(s, p, now);
      assert forall k :: k in keys <==> k in p || k == last;
      assert last !in p;
      assert IsDue(s, last, now) <==> StateOf(s, last, now) != Fresh;
    }
  }

  lemma BeforeWeakOrder()
    ensures WeakOrder(Before)
  {
    forall x: Candidate ensures !Before(x, x) { StrLessTotal(x.key, x.key); }
    forall x: Candidate, y: Candidate, z: Candidate | Before(x, y) && Before(y, z) ensures Before(x, z) {
      if x.missing == y.missing == z.missing && x.checkedAt == y.checkedAt == z.checkedAt { StrLessTransitive(x.key, y.key, z.key); }
    }
    forall x: Candidate, y: Candidate, z: Candidate | Before(x, z) ensures Before(x, y) || Before(y, z) {
      if x.missing == y.missing == z.missing && x.checkedAt == y.checkedAt == z.checkedAt {
        StrLessTotal(x.key, y.key);
        StrLessTotal(y.key, z.key);
        if StrLess(y.key, x.key) { StrLessTransitive(y.key, x.key, z.key); }
      }
    }
  }

  lemma StrLessWeakOrder()
    ensures WeakOrder(StrLess)
  {
    forall x: string ensures !StrLess(x, x) { StrLessTotal(x, x); }
    forall x: string, y: string, z: string | StrLess(x, y) && StrLess(y, z) ensures StrLess(x, z) { StrLessTransitive(x, y, z); }
    forall x: string, y: string, z: string | StrLess(x, z) ensures StrLess(x, y) || StrLess(y, z) {
      StrLessTotal(x, y);
      StrLessTotal(y, z);
      if StrLess(y, x) { StrLessTransitive(y, x, z); }
    }
  }

  /** `a` is checked before `b`: missing first, then the older check, then by key. */
  predicate Sooner<T>(s: Store<T>, a: string, b: string, now: int) {
    match (StateOf(s, a, now), StateOf(s, b, now))
    case (Missing, Missing) => StrLess(a, b)
    case (Missing, Stale) => true
    case (Stale, Stale) =>
      if s.entries[a].checkedAt != s.entries[b].checkedAt then s.entries[a].checkedAt < s.entries[b].checkedAt else StrLess(a, b)
    case _ => false
  }

  /** The list holds exactly the keys that are due, in the order in which they are checked,
      which leaves no room for repetitions. */
  ghost predicate DueInOrder<T>(s: Store<T>, keys: seq<string>, now: int, due: seq<string>) {
    && (forall k :: k in due <==> k in keys && k != "" && StateOf(s, k, now) != Fresh)
    && (forall i, j :: 0 <= i < j < |due| ==> Sooner(s, due[i], due[j], now) && due[i] != due[j])
  }

  lemma SortedCandidates(c: seq<Candidate>)
    requires DistinctCandidates(c)
    ensures var s := StableSort(Before, c);
            && (forall x :: x in s <==> x in c) && DistinctCandidates(s)
            && forall i, j :: 0 <= i < j < |s| ==> Before(s[i], s[j])
  {
    var s := StableSort(Before, c);
    BeforeWeakOrder();
    StableSortSorts(Before, c);
    assert forall x :: x in s <==> x in multiset(s);
    assert forall x :: x in c <==> x in multiset(c);
    forall i, j | 0 <= i < j < |s| ensures Before(s[i], s[j]) && s[i].key != s[j].key {
      assert !Before(s[j], s[i]);
      assert s[i] in c && s[j] in c;
      if s[i] == s[j] { TwiceInSeq(s, i, j); OnceInNoRepeat(c, s[i]); }
      StrLessTotal(s[i].key, s[j].key);
    }
  }

  lemma SortedDistinct(d: seq<string>)
    requires NoRepeat(d)
    ensures var due := StableSort(StrLess, d);
            && (forall k :: k in due <==> k in d)
            && forall i, j :: 0 <= i < j < |due| ==> StrLess(due[i], due[j]) && due[i] != due[j]
  {
    var due := StableSort(StrLess, d);
    StrLessWeakOrder();
    StableSortSorts(StrLess, d);
    assert forall k :: k in due <==> k in multiset(due);
    assert forall k :: k in d <==> k in multiset(d);
    forall i, j | 0 <= i < j < |due| ensures StrLess(due[i], due[j]) && due[i] != due[j] {
      if due[i] == due[j] { TwiceInSeq(due, i, j); OnceInNoRepeat(d, due[i]); }
      assert !StrLess(due[j], due[i]);
      StrLessTotal(due[i], due[j]);
    }
  }

  lemma AbsentDue<T>(s: Store<T>, keys: seq<string>, now: int)
    requires s.Absent?
    ensures DueInOrder(s, keys, now, DueKeys(s, keys, now))
  {
    DistinctIs(keys);
    SortedDistinct(Distinct(keys));
    assert forall k :: StateOf(s, k, now).Missing?;
  }

  /** For every key list, with any repetitions and blanks, and any cache including a nil one,
      the keys due for a check are exactly the non-blank keys whose lookup is not fresh,
      missing ones first, then the oldest checks, then by key. */
  lemma StaleKeysAreDue<T>(s: Store<T>, keys: seq<string>, now: int)
    requires s.Valid()
    ensures DueInOrder(s, keys, now, DueKeys(s, keys, now))
  {
    if s.Absent? {
      AbsentDue(s, keys, now);
    } else {
      var d := Distinct(keys);
      DistinctIs(keys);
      var c := Candidates(s, d, now);
      CandidatesAre(s, d, now);
      SortedCandidates(c);
      SortedDue(s, keys, now, StableSort(Before, c));
    }
  }

  lemma SortedDue<T>(s: Store<T>, keys: seq<string>, now: int, sorted: seq<Candidate>)
    requires s.Store? && s.Valid() && DistinctCandidates(sorted)
    requires forall x :: x in sorted <==> x.key in keys && x.key != "" && StateOf(s, x.key, now) != Fresh && x == CandidateFor(s, x.key)
    requires forall i, j :: 0 <= i < j < |sorted| ==> Before(sorted[i], sorted[j])
    ensures DueInOrder(s, keys, now, KeysOf(sorted))
  {
    var due := KeysOf(sorted);
    forall i, j | 0 <= i < j < |due| ensures Sooner(s, due[i], due[j], now) && due[i] != due[j] {
      assert sorted[i] in sorted && sorted[j] in sorted;
    }
    forall k | k in due ensures k in keys && k != "" && StateOf(s, k, now) != Fresh {
      var i :| 0 <= i < |due| && due[i] == k;
      assert sorted[i] in sorted;
    }
    forall k | k in keys && k != "" && StateOf(s, k, now) != Fresh ensures k in due {
      var x := CandidateFor(s, k);
      assert x in sorted;
      var i :| 0 <= i < |sorted| && sorted[i] == x;
      assert due[i] == k;
    }
  }

  lemma {:induction false} CountCandidates<T>(s: Store<T>, keys: seq<string>, now: int)
    requires s.Valid() && "" !in keys
    ensures var c := Count(s, keys, now);
            && c.eligible == |keys| == c.good + c.stale + c.missing
            && (s.Store? ==> |Candidates(s, keys, now)| == c.stale + c.missing)
            && (s.Absent? ==> c.missing == |keys|)
  {
    if keys != [] { CountCandidates(s, keys[..|keys|-1], now); }
  }

  /** The listing and the counters agree: as many keys are due as are counted stale or
      missing, and every eligible key is counted once. */
  lemma CoverageCountsDue<T>(s: Store<T>, keys: seq<string>, now: int)
    requires s.Valid()
    ensures var c := Count(s, Distinct(keys), now);
            && |DueKeys(s, keys, now)| == c.stale + c.missing
            && c.eligible == c.good + c.stale + c.missing == |Distinct(keys)|
  {
    DistinctIs(keys);
    CountCandidates(s, Distinct(keys), now);
  }

  /** Two lists of the same keys give the same answer. */
  lemma {:induction false} DueDetermined<T>(s: Store<T>, keys: seq<string>, now: int, a: seq<string>, b: seq<string>)
    requires s.Valid() && DueInOrder(s, keys, now, a) && DueInOrder(s, keys, now, b)
    ensures a == b
  {
    forall i | 0 <= i < |a| && i < |b| && a[..i] == b[..i] ensures a[i] == b[i] {
      if a[i] != b[i] {
        FirstIsLeast(s, keys, now, a, b, i);
        FirstIsLeast(s, keys, now, b, a, i);
        SoonerOneWay(s, a[i], b[i], now);
      }
    }
    SamePrefix(s, keys, now, a, b, if |a| < |b| then |a| else |b|);
    assert a[..|a|] == a && b[..|b|] == b;
    if |a| <= |b| { NotLonger(s, keys, now, a, b); } else { NotLonger(s, keys, now, b, a); }
  }

  lemma NotLonger<T>(s: Store<T>, keys: seq<string>, now: int, a: seq<string>, b: seq<string>)
    requires DueInOrder(s, keys, now, a) && DueInOrder(s, keys, now, b)
    requires |a| <= |b| && a == b[..|a|]
    ensures a == b
  {
    if |a| < |b| {
      BeyondIsNew(a, b, |a|);
      assert false;
    }
  }

  lemma BeyondIsNew(a: seq<string>, b: seq<string>, k: nat)
    requires NoRepeat(b) && |a| <= k < |b| && a == b[..|a|]
    ensures b[k] in b && b[k] !in a
  {}

  lemma SoonerOneWay<T>(s: Store<T>, a: string, b: string, now: int)
    requires s.Valid()
    ensures !(Sooner(s, a, b, now) && Sooner(s, b, a, now))
  {
    StrLessTotal(a, b);
  }

  lemma FirstIsLeast<T>(s: Store<T>, keys: seq<string>, now: int, a: seq<string>, b: seq<string>, i: nat)
    requires DueInOrder(s, keys, now, a) && DueInOrder(s, keys, now, b)
    requires i < |a| && i < |b| && a[..i] == b[..i] && a[i] != b[i]
    ensures Sooner(s, b[i], a[i], now)
  {
    assert a[i] in b;
    var j :| 0 <= j < |b| && b[j] == a[i];
    assert forall k :: 0 <= k < i ==> b[k] == b[..i][k] == a[k];
  }

  lemma {:induction false} SamePrefix<T>(s: Store<T>, keys: seq<string>, now: int, a: seq<string>, b: seq<string>, n: nat)
    requires n <= |a| && n <= |b|
    requires forall i :: 0 <= i < |a| && i < |b| && a[..i] == b[..i] ==> a[i] == b[i]
    ensures a[..n] == b[..n]
  {
    if n > 0 {
      SamePrefix(s, keys, now, a, b, n - 1);
      assert a[..n] == a[..n-1] + [a[n-1]] && b[..n] == b[..n-1] + [b[n-1]];
    }
  }

  /** The order and multiplicity of the keys asked for do not matter. */
  lemma DueOrderIndependent<T>(s: Store<T>, a: seq<string>, b: seq<string>, now: int)
    requires s.Valid() && forall k :: k in a <==> k in b
    ensures DueKeys(s, a, now) == DueKeys(s, b, now)
  {
    StaleKeysAreDue(s, a, now);
    StaleKeysAreDue(s, b, now);
    assert DueInOrder(s, a, now, DueKeys(s, b, now));
    DueDetermined(s, a, now, DueKeys(s, a, now), DueKeys(s, b, now));
  }

  // ---------------------------------------------------------------- ages

  /** The state of a key in terms of the checks made: missing if it is blank, was never checked
      or the cache has no lifetime; otherwise stale once its last check is as old as the
      lifetime, and fresh before. */
  lemma StateIsAge<T>(ttl: int, checks: seq<Check<T>>, key: string, now: int)
    ensures var s := After(ttl, checks);
            && (StateOf(s, key, now) == Missing <==> ttl <= 0 || key == "" || forall i :: !LastCheck(checks, key, i))
            && forall i :: LastCheck(checks, key, i) && ttl > 0 && key != "" ==>
                 && (StateOf(s, key, now) == Stale <==> now - checks[i].at >= ttl)
                 && (StateOf(s, key, now) == Fresh <==> now - checks[i].at < ttl)
                 && Found(s, key) == Some(checks[i].value)
  {
    CacheHoldsLastCheck(ttl, checks, key);
  }

  /** The keys of one state. */
  function InState<T>(s: Store<T>, keys: seq<string>, now: int, state: State): set<string> {
    set k | k in keys && StateOf(s, k, now) == state
  }

  lemma {:induction false} CountsAre<T>(s: Store<T>, keys: seq<string>, now: int)
    requires NoRepeat(keys)
    ensures var c := Count(s, keys, now);
            c.good == |InState(s, keys, now, Fresh)| && c.stale == |InState(s, keys, now, Stale)| && c.missing == |InState(s, keys, now, Missing)|
  {
    if keys == [] {
      assert forall state :: InState(s, keys, now, state) == {};
    } else {
      var p, last := keys[..|keys|-1], keys[|keys|-1];
      CountsAre(s, p, now);
      InStateSnoc(s, p, last, now, Fresh);
      InStateSnoc(s, p, last, now, Stale);
      InStateSnoc(s, p, last, now, Missing);
      assert keys == p + [last];
    }
  }

  lemma InStateSnoc<T>(s: Store<T>, p: seq<string>, last: string, now: int, state: State)
    requires last !in p
    ensures |InState(s, p + [last], now, state)| == |InState(s, p, now, state)| + if StateOf(s, last, now) == state then 1 else 0
  {
    assert InState(s, p + [last], now, state) == InState(s, p, now, state) + if StateOf(s, last, now) == state then {last} else {};
  }

  /** Each counter is the number of different non-blank keys in that state. */
  lemma CoverageIs<T>(s: Store<T>, keys: seq<string>, now: int)
    ensures var c := Count(s, Distinct(keys), now);
            && c.good == |set k | k in keys && k != "" && StateOf(s, k, now) == Fresh|
            && c.stale == |set k | k in keys && k != "" && StateOf(s, k, now) == Stale|
            && c.missing == |set k | k in keys && k != "" && StateOf(s, k, now) == Missing|
  {
    DistinctIs(keys);
    CountsAre(s, Distinct(keys), now);
    forall state ensures InState(s, Distinct(keys), now, state) == set k | k in keys && k != "" && StateOf(s, k, now) == state {}
  }
}
