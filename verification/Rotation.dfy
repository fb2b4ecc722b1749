/** The bandwidth rotation over whole runs of the pipeline: the rounds that Bandwidth reasons
    about are what the refreshes of a run really do. */
module Rotation {
  import opened Common
  import opened ProxyRuntime
  import opened Records
  import opened Snapshot
  import opened Pipeline
  import opened PipelineLaws
  import opened Publication
  import B = Bandwidth
  import C = Country
  import Q = Quality
  import S = Scoring

  // ---------------------------------------------------------------- the stage and its stamps

  function KeysOf(chosen: seq<Runtime>): set<string> {
    set x | x in chosen :: x.key
  }

  lemma KeysOfInit(chosen: seq<Runtime>)
    requires chosen != []
    ensures KeysOf(chosen) == KeysOf(chosen[..|chosen|-1]) + {chosen[|chosen|-1].key}
  {
    assert chosen == chosen[..|chosen|-1] + [chosen[|chosen|-1]];
  }

  lemma {:induction false} MeasuredStamps(env: Env, book: Book, chosen: seq<Runtime>, mbps: map<string, real>, now: int, key: string)
    requires key in book.runtime
    ensures var after := Measured(env, book, chosen, mbps, now).runtime;
            && key in after
            && after[key].lastAttempt == book.runtime[key].lastAttempt
            && after[key].lastSuccess == if key in KeysOf(chosen) && key in mbps then Some(now) else book.runtime[key].lastSuccess
  {
    if chosen != [] {
      MeasuredStamps(env, book, chosen[..|chosen|-1], mbps, now, key);
      KeysOfInit(chosen);
    }
  }

  lemma {:induction false} MarkedStamps(book: Book, chosen: seq<Runtime>, now: int, key: string)
    requires key in book.runtime
    ensures var after := Marked(book, chosen, now).runtime;
            && key in after
            && after[key].lastSuccess == book.runtime[key].lastSuccess
            && after[key].lastAttempt == if key in KeysOf(chosen) then Some(now) else book.runtime[key].lastAttempt
  {
    if chosen != [] {
      MarkedStamps(book, chosen[..|chosen|-1], now, key);
      KeysOfInit(chosen);
    }
  }

  /** Attempts are stamped for every chosen proxy, successes for the measured ones. */
  lemma StageStamps(env: Env, cfg: Config, book: Book, input: Input, key: string)
    requires cfg.bandwidthEnabled && key in book.runtime
    ensures var after, chosen := BandwidthStage(env, cfg, book, input).runtime, KeysOf(Candidates(env, cfg, book, input));
            && key in after
            && after[key].lastAttempt == (if key in chosen then Some(input.now) else book.runtime[key].lastAttempt)
            && after[key].lastSuccess == (if key in chosen && key in Downloads(env, input) then Some(input.now) else book.runtime[key].lastSuccess)
  {
    var chosen := Candidates(env, cfg, book, input);
    var measured := Measured(env, book, chosen, Downloads(env, input), input.now);
    MeasuredStamps(env, book, chosen, Downloads(env, input), input.now, key);
    MarkedStamps(measured, chosen, input.now, key);
  }

  lemma {:induction false} UpdateAllStamps(env: Env, cfg: Config, book: Book, targets: seq<Target>, now: int, key: string)
    ensures var before := if key in book.runtime then book.runtime[key] else NO_RUNTIME;
            var after := UpdateAll(env, cfg, book, targets, now).runtime;
            key in after ==> after[key].lastAttempt == before.lastAttempt && after[key].lastSuccess == before.lastSuccess
  {
    if targets != [] {
      var p, last := targets[..|targets|-1], targets[|targets|-1];
      UpdateAllStamps(env, cfg, book, p, now, key);
      var mid := UpdateAll(env, cfg, book, p, now);
      var at := env.identity(last.record);
      if at == key {
        NextRuntimeState(env, cfg, Previous(mid, key), key in mid.runtime, key, last.probe, now);
        if key !in mid.runtime { UpdateAllKeys(env, cfg, book, p, now); }
      } else {
        UpdateOneElsewhere(env, cfg, mid, at, last.probe, now, key);
      }
    }
  }

  lemma {:induction false} ObservedStamps(env: Env, book: Book, records: seq<Record>, seen: nat -> C.Observation, now: int, key: string)
    requires key in book.runtime
    ensures var after := Observed(env, book, records, seen, now).0.runtime;
            key in after && after[key].lastAttempt == book.runtime[key].lastAttempt
            && after[key].lastSuccess == book.runtime[key].lastSuccess
  {
    if records != [] { ObservedStamps(env, book, records[..|records|-1], seen, now, key); }
  }

  // ---------------------------------------------------------------- the active runtimes

  lemma {:induction false} KeysAre(env: Env, targets: seq<Target>)
    ensures NoRepeat(Keys(env, targets))
    ensures forall k :: k in Keys(env, targets) <==> exists t :: t in targets && env.identity(t.record) == k
  {
    if targets != [] {
      var p, last := targets[..|targets|-1], targets[|targets|-1];
      KeysAre(env, p);
      assert forall t :: t in targets <==> t in p || t == last;
    }
  }

  /** Every key is on record under its own name. */
  ghost predicate Recorded(book: Book, keys: seq<string>) {
    forall k :: k in keys ==> k in book.runtime && book.runtime[k].key == k
  }

  lemma {:induction false} ActiveIs(book: Book, keys: seq<string>)
    requires Recorded(book, keys)
    ensures |Active(book, keys)| == |keys|
    ensures forall i :: 0 <= i < |keys| ==> keys[i] in book.runtime && Active(book, keys)[i] == book.runtime[keys[i]]
  {
    if keys != [] {
      var p := keys[..|keys|-1];
      ActiveIs(book, p);
      assert keys[|keys|-1] in keys;
      forall i | 0 <= i < |keys| ensures keys[i] in book.runtime && Active(book, keys)[i] == book.runtime[keys[i]] {
        if i < |p| { assert p[i] == keys[i]; }
      }
    }
  }

  lemma ActiveMembers(book: Book, keys: seq<string>, x: Runtime)
    requires Recorded(book, keys)
    ensures x in Active(book, keys) <==> x.key in keys && x == book.runtime[x.key]
  {
    ActiveIs(book, keys);
    if x.key in keys {
      var i :| 0 <= i < |keys| && keys[i] == x.key;
      assert Active(book, keys)[i] == book.runtime[x.key];
    }
    if x in Active(book, keys) {
      var i :| 0 <= i < |keys| && Active(book, keys)[i] == x;
      assert keys[i] in keys;
    }
  }

  lemma ActiveDistinct(book: Book, keys: seq<string>)
    requires Recorded(book, keys) && NoRepeat(keys)
    ensures B.DistinctKeys(Active(book, keys))
  {
    ActiveIs(book, keys);
    forall i, j | 0 <= i < j < |keys| ensures Active(book, keys)[i].key != Active(book, keys)[j].key {
      assert keys[i] in keys && keys[j] in keys;
    }
  }

  /** The order in which the store lists the active proxies does not matter. */
  lemma ActiveOrderIndependent(book: Book, a: seq<string>, b: seq<string>, now: int, cfg: B.Config)
    requires NoRepeat(a) && NoRepeat(b) && (forall k :: k in a <==> k in b) && Recorded(book, a)
    ensures B.Selected(Active(book, a), now, cfg) == B.Selected(Active(book, b), now, cfg)
  {
    ActiveDistinct(book, a);
    ActiveDistinct(book, b);
    forall x ensures multiset(Active(book, a))[x] == multiset(Active(book, b))[x] {
      ActiveMembers(book, a, x);
      ActiveMembers(book, b, x);
      OnceInNoRepeat(Active(book, a), x);
      OnceInNoRepeat(Active(book, b), x);
      assert x in Active(book, a) <==> x in multiset(Active(book, a));
      assert x in Active(book, b) <==> x in multiset(Active(book, b));
    }
    assert multiset(Active(book, a)) == multiset(Active(book, b));
    B.SelectionOrderIndependent(Active(book, a), Active(book, b), now, cfg);
  }

  // ---------------------------------------------------------------- rounds of a run

  /** The refresh probes exactly these proxies. */
  ghost predicate Covers(env: Env, input: Input, keys: seq<string>) {
    forall k :: k in keys <==> exists t :: t in input.targets && env.identity(t.record) == k
  }

  /** The choice a refresh makes, listing the proxies in the order of `keys`. */
  function RoundOf(env: Env, cfg: Config, s: Service, input: Input, keys: seq<string>): B.Round
  {
    B.Round(Active(UpdateAll(env, cfg, s.book, input.targets, input.now), keys), input.now, Downloads(env, input).Keys)
  }

  lemma UpdatedRecorded(env: Env, cfg: Config, book: Book, input: Input, keys: seq<string>)
    requires Covers(env, input, keys)
    requires forall k :: k in book.runtime ==> book.runtime[k].key == k
    ensures var after := UpdateAll(env, cfg, book, input.targets, input.now);
            Recorded(after, keys) && forall k :: k in after.runtime ==> after.runtime[k].key == k
  {
    UpdateAllKeys(env, cfg, book, input.targets, input.now);
    UpdateAllNames(env, cfg, book, input.targets, input.now);
  }

  lemma {:induction false} UpdateAllName(env: Env, cfg: Config, book: Book, targets: seq<Target>, now: int, key: string)
    requires key in book.runtime ==> book.runtime[key].key == key
    ensures var after := UpdateAll(env, cfg, book, targets, now).runtime; key in after ==> after[key].key == key
  {
    if targets != [] {
      var p, last := targets[..|targets|-1], targets[|targets|-1];
      UpdateAllName(env, cfg, book, p, now, key);
      var mid := UpdateAll(env, cfg, book, p, now);
      var at := env.identity(last.record);
      NextRuntimeState(env, cfg, Previous(mid, at), at in mid.runtime, at, last.probe, now);
      if key != at { UpdateOneElsewhere(env, cfg, mid, at, last.probe, now, key); }
    }
  }

  lemma UpdateAllNames(env: Env, cfg: Config, book: Book, targets: seq<Target>, now: int)
    requires forall k :: k in book.runtime ==> book.runtime[k].key == k
    ensures var after := UpdateAll(env, cfg, book, targets, now).runtime; forall k :: k in after ==> after[k].key == k
  {
    forall k { UpdateAllName(env, cfg, book, targets, now, k); }
  }

  /** What a refresh measures is what its round selects. */
  lemma RoundIsChoice(env: Env, cfg: Config, s: Service, input: Input, keys: seq<string>)
    requires Covers(env, input, keys) && NoRepeat(keys)
    requires forall k :: k in s.book.runtime ==> s.book.runtime[k].key == k
    ensures var r := RoundOf(env, cfg, s, input, keys);
            && Candidates(env, cfg, UpdateAll(env, cfg, s.book, input.targets, input.now), input) == B.Selected(r.entries, r.now, cfg.bandwidth)
            && B.DistinctKeys(r.entries) && |r.entries| == |keys|
  {
    var book := UpdateAll(env, cfg, s.book, input.targets, input.now);
    UpdatedRecorded(env, cfg, s.book, input, keys);
    KeysAre(env, input.targets);
    ActiveOrderIndependent(book, keys, Keys(env, input.targets), input.now, cfg.bandwidth);
    ActiveDistinct(book, keys);
    ActiveIs(book, keys);
  }

  predicate StampedAt(book: Book, keys: seq<string>, r: B.Round, cfg: Config, i: nat)
    requires |r.entries| == |keys| && i < |keys|
  {
    && keys[i] in book.runtime && r.entries[i].key == keys[i]
    && book.runtime[keys[i]].lastAttempt == (if B.Chosen(r, i, cfg.bandwidth) then Some(r.now) else r.entries[i].lastAttempt)
    && book.runtime[keys[i]].lastSuccess
       == (if B.Chosen(r, i, cfg.bandwidth) && keys[i] in r.measured then Some(r.now) else r.entries[i].lastSuccess)
  }

  /** The store carries the stamps that a round leaves behind. */
  ghost predicate Stamped(book: Book, keys: seq<string>, r: B.Round, cfg: Config)
  {
    |r.entries| == |keys| && forall i :: 0 <= i < |keys| ==> StampedAt(book, keys, r, cfg, i)
  }

  lemma ChosenByKey(env: Env, cfg: Config, s: Service, input: Input, keys: seq<string>, i: nat)
    requires Covers(env, input, keys) && NoRepeat(keys) && i < |keys|
    requires forall k :: k in s.book.runtime ==> s.book.runtime[k].key == k
    ensures var r := RoundOf(env, cfg, s, input, keys);
            var book := UpdateAll(env, cfg, s.book, input.targets, input.now);
            && |r.entries| == |keys| && keys[i] in book.runtime && r.entries[i] == book.runtime[keys[i]] && r.entries[i].key == keys[i]
            && (B.Chosen(r, i, cfg.bandwidth) <==> keys[i] in KeysOf(Candidates(env, cfg, book, input)))
  {
    var r := RoundOf(env, cfg, s, input, keys);
    var book := UpdateAll(env, cfg, s.book, input.targets, input.now);
    RoundIsChoice(env, cfg, s, input, keys);
    UpdatedRecorded(env, cfg, s.book, input, keys);
    ActiveIs(book, keys);
    assert keys[i] in keys;
    var chosen := B.Selected(r.entries, r.now, cfg.bandwidth);
    B.SelectionIsLeastPrefix(r.entries, r.now, cfg.bandwidth);
    if keys[i] in KeysOf(chosen) {
      var x :| x in chosen && x.key == keys[i];
      ActiveMembers(book, keys, x);
    }
  }

  lemma RoundStamps(env: Env, cfg: Config, s: Service, input: Input, keys: seq<string>)
    requires cfg.bandwidthEnabled && Covers(env, input, keys) && NoRepeat(keys)
    requires forall k :: k in s.book.runtime ==> s.book.runtime[k].key == k
    ensures Stamped(BookAfter(env, cfg, s.book, input), keys, RoundOf(env, cfg, s, input, keys), cfg)
  {
    var book := UpdateAll(env, cfg, s.book, input.targets, input.now);
    RoundIsChoice(env, cfg, s, input, keys);
    var r, after := RoundOf(env, cfg, s, input, keys), BookAfter(env, cfg, s.book, input);
    forall i | 0 <= i < |keys| ensures StampedAt(after, keys, r, cfg, i) {
      ChosenByKey(env, cfg, s, input, keys, i);
      StageStamps(env, cfg, book, input, keys[i]);
    }
  }

  /** The choice of one step: only a refresh that proceeds makes one. */
  function StepRounds(env: Env, cfg: Config, s: Service, op: Op, keys: seq<string>): seq<B.Round>
  {
    if op.Refresh? && Proceeds(op.input) then [RoundOf(env, cfg, s, op.input, keys)] else []
  }

  /** The choices that the refreshes of a run make from step `start` on. */
  function Rounds(env: Env, cfg: Config, evidence: map<string, C.RouteCountries>, restored: Option<CachedData>, ops: seq<Op>, start: nat, keys: seq<string>): seq<B.Round>
  {
    if |ops| <= start then []
    else
      var p, last := ops[..|ops|-1], ops[|ops|-1];
      Rounds(env, cfg, evidence, restored, p, start, keys)
      + StepRounds(env, cfg, Exec(env, cfg, evidence, restored, p), last, keys)
  }

  /** The clock goes on between refreshes. */
  ghost predicate Forward(ops: seq<Op>) {
    forall i, j :: 0 <= i < j < |ops| && ops[i].Refresh? && ops[j].Refresh? ==> ops[i].input.now < ops[j].input.now
  }

  /** From step `start` on the refreshes that proceed all probe these proxies. */
  ghost predicate Steady(env: Env, ops: seq<Op>, start: nat, keys: seq<string>) {
    && Forward(ops)
    && forall i :: start <= i < |ops| && ops[i].Refresh? && Proceeds(ops[i].input) ==> Covers(env, ops[i].input, keys)
  }

  /** The time of some refresh of the run. */
  ghost predicate IsTime(ops: seq<Op>, t: int) {
    exists i :: 0 <= i < |ops| && ops[i].Refresh? && ops[i].input.now == t
  }

  lemma IsTimeLonger(ops: seq<Op>, t: int)
    requires ops != [] && IsTime(ops[..|ops|-1], t)
    ensures IsTime(ops, t)
  {
    var i :| 0 <= i < |ops|-1 && ops[..|ops|-1][i].Refresh? && ops[..|ops|-1][i].input.now == t;
    assert ops[i].Refresh? && ops[i].input.now == t;
  }

  lemma IsTimeBefore(ops: seq<Op>, t: int)
    requires Forward(ops) && ops != [] && ops[|ops|-1].Refresh? && IsTime(ops[..|ops|-1], t)
    ensures t < ops[|ops|-1].input.now
  {
    var i :| 0 <= i < |ops|-1 && ops[..|ops|-1][i].Refresh? && ops[..|ops|-1][i].input.now == t;
    assert ops[i].input.now < ops[|ops|-1].input.now;
  }

  /** What is on record of one proxy: it has its own key, and was measured at some refresh. */
  ghost predicate SoundAt(book: Book, ops: seq<Op>, key: string) {
    key in book.runtime ==>
      && book.runtime[key].key == key
      && (book.runtime[key].lastSuccess.Some? ==> IsTime(ops, book.runtime[key].lastSuccess.value))
  }

  /** What the store says of the last round of a run. */
  ghost predicate CarriesLast(book: Book, keys: seq<string>, rounds: seq<B.Round>, cfg: Config)
  {
    rounds != [] ==> Stamped(book, keys, rounds[|rounds|-1], cfg)
  }

  lemma {:induction false} ObservedName(env: Env, book: Book, records: seq<Record>, seen: nat -> C.Observation, now: int, key: string)
    requires key in book.runtime ==> book.runtime[key].key == key
    ensures var after := Observed(env, book, records, seen, now).0.runtime; key in after ==> after[key].key == key
  {
    if records != [] { ObservedName(env, book, records[..|records|-1], seen, now, key); }
  }

  /** Re-probing keeps the stamps. */
  lemma ObservedCarries(env: Env, cfg: Config, book: Book, records: seq<Record>, seen: nat -> C.Observation, now: int, keys: seq<string>, rounds: seq<B.Round>)
    requires CarriesLast(book, keys, rounds, cfg)
    ensures CarriesLast(Observed(env, book, records, seen, now).0, keys, rounds, cfg)
  {
    var after := Observed(env, book, records, seen, now).0;
    if rounds != [] {
      var r := rounds[|rounds|-1];
      forall i | 0 <= i < |keys| ensures StampedAt(after, keys, r, cfg, i) {
        assert StampedAt(book, keys, r, cfg, i);
        ObservedStamps(env, book, records, seen, now, keys[i]);
      }
    }
  }

  ghost predicate Sound(book: Book, ops: seq<Op>) { forall k :: k in book.runtime ==> SoundAt(book, ops, k) }

  lemma RefreshSound(env: Env, cfg: Config, s: Service, input: Input, ops: seq<Op>, key: string)
    requires ops != [] && ops[|ops|-1] == Refresh(input)
    requires SoundAt(s.book, ops[..|ops|-1], key)
    ensures SoundAt(BookAfter(env, cfg, s.book, input), ops, key)
  {
    var book := UpdateAll(env, cfg, s.book, input.targets, input.now);
    UpdateAllName(env, cfg, s.book, input.targets, input.now, key);
    UpdateAllStamps(env, cfg, s.book, input.targets, input.now, key);
    StageKeeps(env, cfg, book, input);
    assert IsTime(ops, input.now) by { assert ops[|ops|-1].Refresh?; }
    if key in book.runtime {
      if cfg.bandwidthEnabled { StageStamps(env, cfg, book, input, key); }
      if key in s.book.runtime && s.book.runtime[key].lastSuccess.Some? { IsTimeLonger(ops, s.book.runtime[key].lastSuccess.value); }
    }
  }

  lemma OthersSound(env: Env, cfg: Config, s: Service, ops: seq<Op>, key: string)
    requires ops != [] && SoundAt(s.book, ops[..|ops|-1], key)
    requires var last := ops[|ops|-1]; !(last.Refresh? && Proceeds(last.input))
    ensures SoundAt(Step(env, cfg, s, ops[|ops|-1]).book, ops, key)
  {
    var last := ops[|ops|-1];
    if key in s.book.runtime && s.book.runtime[key].lastSuccess.Some? { IsTimeLonger(ops, s.book.runtime[key].lastSuccess.value); }
    if last.Reprobe? && s.cache.Some? && last.started {
      var records := ReprobeCandidates(s.cache.value.entries);
      ObservedKeys(env, s.book, records, last.seen, last.at);
      ObservedName(env, s.book, records, last.seen, last.at, key);
      if key in s.book.runtime { ObservedStamps(env, s.book, records, last.seen, last.at, key); }
    }
  }

  lemma {:induction false} StoreIsSound(env: Env, cfg: Config, evidence: map<string, C.RouteCountries>, restored: Option<CachedData>, ops: seq<Op>, key: string)
    ensures SoundAt(Exec(env, cfg, evidence, restored, ops).book, ops, key)
  {
    if ops != [] {
      var p, last := ops[..|ops|-1], ops[|ops|-1];
      StoreIsSound(env, cfg, evidence, restored, p, key);
      var s := Exec(env, cfg, evidence, restored, p);
      if last.Refresh? && Proceeds(last.input) {
        RefreshSound(env, cfg, s, last.input, ops, key);
      } else {
        OthersSound(env, cfg, s, ops, key);
      }
    }
  }

  /** The next round starts from the stamps of the last one. */
  lemma NextRoundFollows(env: Env, cfg: Config, s: Service, input: Input, keys: seq<string>, r: B.Round)
    requires Covers(env, input, keys) && NoRepeat(keys)
    requires forall k :: k in s.book.runtime ==> s.book.runtime[k].key == k
    requires Stamped(s.book, keys, r, cfg) && r.now < input.now
    ensures B.Follows(r, RoundOf(env, cfg, s, input, keys), cfg.bandwidth)
  {
    var next := RoundOf(env, cfg, s, input, keys);
    RoundIsChoice(env, cfg, s, input, keys);
    forall i | 0 <= i < |keys| ensures
      var x, y := r.entries[i], next.entries[i];
      && y.key == x.key
      && y.lastAttempt == (if B.Chosen(r, i, cfg.bandwidth) then Some(r.now) else x.lastAttempt)
      && y.lastSuccess == (if B.Chosen(r, i, cfg.bandwidth) && x.key in r.measured then Some(r.now) else x.lastSuccess)
    {
      assert StampedAt(s.book, keys, r, cfg, i);
      ChosenByKey(env, cfg, s, input, keys, i);
      UpdateAllStamps(env, cfg, s.book, input.targets, input.now, keys[i]);
    }
  }

  /** What is on record at the first round was measured before it. */
  lemma FirstRoundPast(env: Env, cfg: Config, s: Service, input: Input, keys: seq<string>, ops: seq<Op>)
    requires Covers(env, input, keys) && NoRepeat(keys)
    requires ops != [] && ops[|ops|-1] == Refresh(input) && Forward(ops)
    requires Sound(s.book, ops[..|ops|-1])
    ensures forall x :: x in RoundOf(env, cfg, s, input, keys).entries && x.lastSuccess.Some? ==> x.lastSuccess.value < input.now
  {
    var r := RoundOf(env, cfg, s, input, keys);
    NamesOf(s.book, ops[..|ops|-1]);
    RoundIsChoice(env, cfg, s, input, keys);
    forall x | x in r.entries && x.lastSuccess.Some? ensures x.lastSuccess.value < input.now {
      var i :| 0 <= i < |r.entries| && r.entries[i] == x;
      ChosenByKey(env, cfg, s, input, keys, i);
      UpdateAllStamps(env, cfg, s.book, input.targets, input.now, keys[i]);
      assert SoundAt(s.book, ops[..|ops|-1], keys[i]);
      IsTimeBefore(ops, x.lastSuccess.value);
    }
  }

  lemma NamesOf(book: Book, ops: seq<Op>)
    requires Sound(book, ops)
    ensures forall k :: k in book.runtime ==> book.runtime[k].key == k
  {
    forall k | k in book.runtime ensures book.runtime[k].key == k { assert SoundAt(book, ops, k); }
  }

  /** The rounds so far happened at times of refreshes of the run. */
  ghost predicate TimesOf(ops: seq<Op>, rounds: seq<B.Round>) {
    forall r :: r in rounds ==> IsTime(ops, r.now)
  }

  lemma TimesOfLonger(ops: seq<Op>, rounds: seq<B.Round>)
    requires ops != [] && TimesOf(ops[..|ops|-1], rounds)
    ensures TimesOf(ops, rounds)
  {
    forall r | r in rounds ensures IsTime(ops, r.now) { IsTimeLonger(ops, r.now); }
  }

  lemma RoundAdded(rounds: seq<B.Round>, r: B.Round, cfg: B.Config)
    requires B.IsRun(rounds, cfg) && B.DistinctKeys(r.entries)
    requires rounds == [] ==> forall x :: x in r.entries && x.lastSuccess.Some? ==> x.lastSuccess.value < r.now
    requires rounds != [] ==> B.Follows(rounds[|rounds|-1], r, cfg)
    ensures B.IsRun(rounds + [r], cfg)
  {
    var longer := rounds + [r];
    forall n | 0 < n < |longer| ensures B.Follows(longer[n-1], longer[n], cfg) {
      if n < |rounds| { assert B.Follows(rounds[n-1], rounds[n], cfg); }
    }
    if rounds != [] { assert longer[0] == rounds[0]; }
  }

  /** What a run of operations has established. */
  ghost predicate Rotating(book: Book, ops: seq<Op>, rounds: seq<B.Round>, keys: seq<string>, cfg: Config)
  {
    && B.IsRun(rounds, cfg.bandwidth)
    && CarriesLast(book, keys, rounds, cfg)
    && TimesOf(ops, rounds)
    && forall r :: r in rounds ==> |r.entries| == |keys|
  }

  /** After any run, the choices made from some step on over a fixed set of proxies, with
      re-probes and enrichments in between, form a run in the sense of the rotation laws:
      each starts from the stamps the one before left. */
  lemma {:induction false} RefreshesRotate(env: Env, cfg: Config, evidence: map<string, C.RouteCountries>, restored: Option<CachedData>,
                                           ops: seq<Op>, start: nat, keys: seq<string>)
    requires cfg.bandwidthEnabled && NoRepeat(keys) && Steady(env, ops, start, keys)
    ensures Rotating(Exec(env, cfg, evidence, restored, ops).book, ops, Rounds(env, cfg, evidence, restored, ops, start, keys), keys, cfg)
  {
    if |ops| > start {
      var p := ops[..|ops|-1];
      RefreshesRotate(env, cfg, evidence, restored, p, start, keys);
      forall k { StoreIsSound(env, cfg, evidence, restored, p, k); }
      StepRotates(env, cfg, Exec(env, cfg, evidence, restored, p), ops, Rounds(env, cfg, evidence, restored, p, start, keys), start, keys);
    }
  }

  lemma StepRotates(env: Env, cfg: Config, s: Service, ops: seq<Op>, rounds: seq<B.Round>, start: nat, keys: seq<string>)
    requires cfg.bandwidthEnabled && NoRepeat(keys) && Steady(env, ops, start, keys)
    requires |ops| > start && Rotating(s.book, ops[..|ops|-1], rounds, keys, cfg) && Sound(s.book, ops[..|ops|-1])
    ensures var last := ops[|ops|-1];
            Rotating(Step(env, cfg, s, last).book, ops, rounds + StepRounds(env, cfg, s, last, keys), keys, cfg)
  {
    var last := ops[|ops|-1];
    if last.Refresh? && Proceeds(last.input) {
      RefreshRotates(env, cfg, s, last.input, keys, rounds, ops);
    } else {
      OthersKeepRotating(env, cfg, s, ops, rounds, keys);
      assert rounds + [] == rounds;
    }
  }

  lemma OthersKeepRotating(env: Env, cfg: Config, s: Service, ops: seq<Op>, rounds: seq<B.Round>, keys: seq<string>)
    requires ops != [] && Rotating(s.book, ops[..|ops|-1], rounds, keys, cfg)
    requires var last := ops[|ops|-1]; !(last.Refresh? && Proceeds(last.input))
    ensures Rotating(Step(env, cfg, s, ops[|ops|-1]).book, ops, rounds, keys, cfg)
  {
    TimesOfLonger(ops, rounds);
    var last := ops[|ops|-1];
    if last.Reprobe? && s.cache.Some? && last.started {
      ObservedCarries(env, cfg, s.book, ReprobeCandidates(s.cache.value.entries), last.seen, last.at, keys, rounds);
    }
  }

  lemma RoundExtends(env: Env, cfg: Config, s: Service, input: Input, keys: seq<string>, rounds: seq<B.Round>, ops: seq<Op>)
    requires NoRepeat(keys) && Covers(env, input, keys) && Forward(ops)
    requires ops != [] && ops[|ops|-1] == Refresh(input)
    requires Rotating(s.book, ops[..|ops|-1], rounds, keys, cfg) && Sound(s.book, ops[..|ops|-1])
    ensures B.IsRun(rounds + [RoundOf(env, cfg, s, input, keys)], cfg.bandwidth)
  {
    NamesOf(s.book, ops[..|ops|-1]);
    RoundIsChoice(env, cfg, s, input, keys);
    if rounds == [] {
      FirstRoundPast(env, cfg, s, input, keys, ops);
    } else {
      IsTimeBefore(ops, rounds[|rounds|-1].now);
      NextRoundFollows(env, cfg, s, input, keys, rounds[|rounds|-1]);
    }
    RoundAdded(rounds, RoundOf(env, cfg, s, input, keys), cfg.bandwidth);
  }

  lemma RefreshRotates(env: Env, cfg: Config, s: Service, input: Input, keys: seq<string>, rounds: seq<B.Round>, ops: seq<Op>)
    requires cfg.bandwidthEnabled && NoRepeat(keys) && Covers(env, input, keys) && Forward(ops)
    requires ops != [] && ops[|ops|-1] == Refresh(input) && Proceeds(input)
    requires Rotating(s.book, ops[..|ops|-1], rounds, keys, cfg) && Sound(s.book, ops[..|ops|-1])
    ensures Rotating(BookAfter(env, cfg, s.book, input), ops, rounds + [RoundOf(env, cfg, s, input, keys)], keys, cfg)
  {
    NamesOf(s.book, ops[..|ops|-1]);
    RoundExtends(env, cfg, s, input, keys, rounds, ops);
    RoundIsChoice(env, cfg, s, input, keys);
    RoundStamps(env, cfg, s, input, keys);
    TimesOfLonger(ops, rounds);
    assert ops[|ops|-1].Refresh? && ops[|ops|-1].input.now == input.now;
  }

  /** Proxy `i` is eligible in the rounds `0` to `n`. */
  ghost predicate StaysEligible(rounds: seq<B.Round>, keys: seq<string>, i: nat, n: nat, cfg: B.Config) {
    n < |rounds| && forall k :: 0 <= k <= n ==> |rounds[k].entries| == |keys| && i < |keys| && B.Eligible(rounds[k].entries[i], rounds[k].now, cfg)
  }

  predicate ChosenIn(rounds: seq<B.Round>, i: nat, m: nat, cfg: B.Config)
  {
    m < |rounds| && i < |rounds[m].entries| && B.Chosen(rounds[m], i, cfg)
  }

  /** The pipeline's rotation, whatever fails: after any run, from a step on from which the
      same proxies are probed, a proxy that stays eligible is measured no later than in the
      first refresh by which more downloads have succeeded than proxies sort before it
      beyond the budget. */
  lemma MeasuredOnceEnoughSucceed(env: Env, cfg: Config, evidence: map<string, C.RouteCountries>, restored: Option<CachedData>, ops: seq<Op>,
                                  start: nat, keys: seq<string>, i: nat, n: nat) returns (m: nat)
    requires cfg.bandwidthEnabled && NoRepeat(keys) && Steady(env, ops, start, keys)
    requires var rounds := Rounds(env, cfg, evidence, restored, ops, start, keys);
             && StaysEligible(rounds, keys, i, n, cfg.bandwidth)
             && B.Total(rounds, n, cfg.bandwidth) + cfg.bandwidth.Slots() > B.Ahead(rounds[0].entries, i)
    ensures m <= n && ChosenIn(Rounds(env, cfg, evidence, restored, ops, start, keys), i, m, cfg.bandwidth)
  {
    RefreshesRotate(env, cfg, evidence, restored, ops, start, keys);
    m := B.ChosenOnceEnoughSucceed(Rounds(env, cfg, evidence, restored, ops, start, keys), n, i, cfg.bandwidth);
  }

  /** No starvation in the pipeline: after any run, as long as the scheduled downloads
      succeed, a proxy that stays eligible is measured within floor(ahead / slots) further
      refreshes of the same proxies, re-probes and enrichments in between notwithstanding. */
  lemma EveryProxyIsMeasured(env: Env, cfg: Config, evidence: map<string, C.RouteCountries>, restored: Option<CachedData>, ops: seq<Op>,
                             start: nat, keys: seq<string>, i: nat, n: nat) returns (m: nat)
    requires cfg.bandwidthEnabled && NoRepeat(keys) && Steady(env, ops, start, keys)
    requires var rounds := Rounds(env, cfg, evidence, restored, ops, start, keys);
             && StaysEligible(rounds, keys, i, n, cfg.bandwidth) && B.AllMeasured(rounds, n, cfg.bandwidth)
             && n == B.Ahead(rounds[0].entries, i) / cfg.bandwidth.Slots()
    ensures m <= n && ChosenIn(Rounds(env, cfg, evidence, restored, ops, start, keys), i, m, cfg.bandwidth)
  {
    RefreshesRotate(env, cfg, evidence, restored, ops, start, keys);
    m := B.RotationDoesNotStarve(Rounds(env, cfg, evidence, restored, ops, start, keys), i, n, cfg.bandwidth);
  }

  // ---------------------------------------------------------------- one proxy over any run

  /** The clock does not go back between refreshes. */
  ghost predicate Onward(ops: seq<Op>) {
    forall i, j :: 0 <= i < j < |ops| && ops[i].Refresh? && ops[j].Refresh? ==> ops[i].input.now <= ops[j].input.now
  }

  /** The refresh schedules a download through this proxy. */
  predicate Schedules(env: Env, cfg: Config, s: Service, op: Op, key: string)
  {
    && op.Refresh? && Proceeds(op.input) && cfg.bandwidthEnabled
    && key in KeysOf(Candidates(env, cfg, UpdateAll(env, cfg, s.book, op.input.targets, op.input.now), op.input))
  }

  /** One step as this proxy sees it: a refresh that finds it on record. */
  function StepVisits(env: Env, cfg: Config, s: Service, op: Op, key: string): seq<B.Visit>
  {
    if !op.Refresh? || !Proceeds(op.input) then []
    else
      var book := UpdateAll(env, cfg, s.book, op.input.targets, op.input.now);
      if key !in book.runtime then []
      else [B.Visit(book.runtime[key], op.input.now, Schedules(env, cfg, s, op, key), key in Downloads(env, op.input))]
  }

  function Visits(env: Env, cfg: Config, evidence: map<string, C.RouteCountries>, restored: Option<CachedData>, ops: seq<Op>, key: string): seq<B.Visit>
  {
    if ops == [] then []
    else
      var p := ops[..|ops|-1];
      Visits(env, cfg, evidence, restored, p, key) + StepVisits(env, cfg, Exec(env, cfg, evidence, restored, p), ops[|ops|-1], key)
  }

  lemma ScheduledIsEligible(env: Env, cfg: Config, s: Service, input: Input, key: string, ops: seq<Op>)
    requires Schedules(env, cfg, s, Refresh(input), key) && Sound(s.book, ops)
    ensures var book := UpdateAll(env, cfg, s.book, input.targets, input.now);
            key in book.runtime && B.Eligible(book.runtime[key], input.now, cfg.bandwidth)
  {
    var book, keys := UpdateAll(env, cfg, s.book, input.targets, input.now), Keys(env, input.targets);
    KeysAre(env, input.targets);
    NamesOf(s.book, ops);
    UpdatedRecorded(env, cfg, s.book, input, keys);
    ActiveDistinct(book, keys);
    B.SelectionIsLeastPrefix(Active(book, keys), input.now, cfg.bandwidth);
    var x :| x in Candidates(env, cfg, book, input) && x.key == key;
    ActiveMembers(book, keys, x);
  }

  /** What the last visit leaves behind is on record. */
  predicate LeftBy(r: Runtime, v: B.Visit) {
    && r.lastAttempt == (if v.chosen then Some(v.now) else v.entry.lastAttempt)
    && r.lastSuccess == (if v.chosen && v.measured then Some(v.now) else v.entry.lastSuccess)
  }

  ghost predicate Tracked(book: Book, ops: seq<Op>, visits: seq<B.Visit>, key: string, cfg: B.Config) {
    && B.IsTrack(visits, cfg)
    && (visits != [] ==>
          var last := visits[|visits|-1]; key in book.runtime && LeftBy(book.runtime[key], last) && IsTime(ops, last.now))
  }

  lemma VisitAdded(visits: seq<B.Visit>, v: B.Visit, cfg: B.Config)
    requires B.IsTrack(visits, cfg) && (v.chosen ==> B.Eligible(v.entry, v.now, cfg))
    requires visits != [] ==> B.Continues(visits[|visits|-1], v)
    ensures B.IsTrack(visits + [v], cfg)
  {
    var longer := visits + [v];
    forall n | 0 < n < |longer| ensures B.Continues(longer[n-1], longer[n]) {
      if n < |visits| { assert B.Continues(visits[n-1], visits[n]); }
    }
  }

  /** The stamps that a refresh finds and leaves of a proxy on record. */
  lemma VisitStamps(env: Env, cfg: Config, s: Service, input: Input, key: string)
    requires Proceeds(input)
    requires key in UpdateAll(env, cfg, s.book, input.targets, input.now).runtime
    ensures var v := StepVisits(env, cfg, s, Refresh(input), key)[0];
            && (key in s.book.runtime ==> v.entry.lastAttempt == s.book.runtime[key].lastAttempt && v.entry.lastSuccess == s.book.runtime[key].lastSuccess)
            && key in BookAfter(env, cfg, s.book, input).runtime && LeftBy(BookAfter(env, cfg, s.book, input).runtime[key], v)
  {
    UpdateAllStamps(env, cfg, s.book, input.targets, input.now, key);
    if cfg.bandwidthEnabled { StageStamps(env, cfg, UpdateAll(env, cfg, s.book, input.targets, input.now), input, key); }
  }

  lemma RefreshTracks(env: Env, cfg: Config, s: Service, ops: seq<Op>, visits: seq<B.Visit>, key: string)
    requires Onward(ops) && ops != [] && ops[|ops|-1].Refresh? && Proceeds(ops[|ops|-1].input)
    requires Tracked(s.book, ops[..|ops|-1], visits, key, cfg.bandwidth) && Sound(s.book, ops[..|ops|-1])
    ensures var last := ops[|ops|-1];
            Tracked(BookAfter(env, cfg, s.book, last.input), ops, visits + StepVisits(env, cfg, s, last, key), key, cfg.bandwidth)
  {
    var p, last, input := ops[..|ops|-1], ops[|ops|-1], ops[|ops|-1].input;
    UpdateAllKeys(env, cfg, s.book, input.targets, input.now);
    if key in UpdateAll(env, cfg, s.book, input.targets, input.now).runtime {
      var v := StepVisits(env, cfg, s, last, key)[0];
      VisitStamps(env, cfg, s, input, key);
      if v.chosen { ScheduledIsEligible(env, cfg, s, input, key, p); }
      if visits != [] { NotBefore(ops, visits[|visits|-1].now); }
      VisitAdded(visits, v, cfg.bandwidth);
      assert IsTime(ops, input.now) by { assert ops[|ops|-1].input.now == input.now; }
    } else {
      assert visits + [] == visits;
    }
  }

  lemma NotBefore(ops: seq<Op>, t: int)
    requires Onward(ops) && ops != [] && ops[|ops|-1].Refresh? && IsTime(ops[..|ops|-1], t)
    ensures t <= ops[|ops|-1].input.now
  {
    var i :| 0 <= i < |ops|-1 && ops[..|ops|-1][i].Refresh? && ops[..|ops|-1][i].input.now == t;
    assert ops[i].input.now <= ops[|ops|-1].input.now;
  }

  lemma OthersTrack(env: Env, cfg: Config, s: Service, ops: seq<Op>, visits: seq<B.Visit>, key: string)
    requires ops != [] && Tracked(s.book, ops[..|ops|-1], visits, key, cfg.bandwidth)
    requires var last := ops[|ops|-1]; !(last.Refresh? && Proceeds(last.input))
    ensures Tracked(Step(env, cfg, s, ops[|ops|-1]).book, ops, visits, key, cfg.bandwidth)
  {
    var last := ops[|ops|-1];
    if visits != [] {
      IsTimeLonger(ops, visits[|visits|-1].now);
      if last.Reprobe? && s.cache.Some? && last.started {
        ObservedStamps(env, s.book, ReprobeCandidates(s.cache.value.entries), last.seen, last.at, key);
      }
    }
  }

  /** Over any run, whatever proxies come and go, what the refreshes see of one proxy is a
      track in the sense of the rotation laws. */
  lemma {:induction false} EveryProxyIsTracked(env: Env, cfg: Config, evidence: map<string, C.RouteCountries>, restored: Option<CachedData>,
                                               ops: seq<Op>, key: string)
    requires Onward(ops)
    ensures Tracked(Exec(env, cfg, evidence, restored, ops).book, ops, Visits(env, cfg, evidence, restored, ops, key), key, cfg.bandwidth)
  {
    if ops != [] {
      var p, last := ops[..|ops|-1], ops[|ops|-1];
      EveryProxyIsTracked(env, cfg, evidence, restored, p, key);
      var s, visits := Exec(env, cfg, evidence, restored, p), Visits(env, cfg, evidence, restored, p, key);
      if last.Refresh? && Proceeds(last.input) {
        forall k { StoreIsSound(env, cfg, evidence, restored, p, k); }
        RefreshTracks(env, cfg, s, ops, visits, key);
      } else {
        OthersTrack(env, cfg, s, ops, visits, key);
        assert visits + [] == visits;
      }
    }
  }

  lemma {:induction false} VisitsGrow(env: Env, cfg: Config, evidence: map<string, C.RouteCountries>, restored: Option<CachedData>,
                                      ops: seq<Op>, i: nat, key: string)
    requires i <= |ops|
    ensures Visits(env, cfg, evidence, restored, ops[..i], key) <= Visits(env, cfg, evidence, restored, ops, key)
  {
    if i == |ops| {
      assert ops[..i] == ops;
    } else {
      var p := ops[..|ops|-1];
      assert p[..i] == ops[..i];
      VisitsGrow(env, cfg, evidence, restored, p, i, key);
    }
  }

  /** Step `i` of the run schedules a download through this proxy. */
  predicate SchedulesAt(env: Env, cfg: Config, evidence: map<string, C.RouteCountries>, restored: Option<CachedData>, ops: seq<Op>, i: nat, key: string)
    requires i < |ops|
  {
    Schedules(env, cfg, Exec(env, cfg, evidence, restored, ops[..i]), ops[i], key)
  }

  /** The visit of a step that schedules. */
  lemma VisitAt(env: Env, cfg: Config, evidence: map<string, C.RouteCountries>, restored: Option<CachedData>, ops: seq<Op>, i: nat, key: string)
    requires i < |ops| && SchedulesAt(env, cfg, evidence, restored, ops, i, key)
    ensures var visits, n := Visits(env, cfg, evidence, restored, ops, key), |Visits(env, cfg, evidence, restored, ops[..i], key)|;
            && n < |visits| && visits[n].chosen && visits[n].now == ops[i].input.now
            && visits[n].measured == (key in Downloads(env, ops[i].input))
            && |Visits(env, cfg, evidence, restored, ops[..i+1], key)| == n + 1
  {
    forall k { StoreIsSound(env, cfg, evidence, restored, ops[..i], k); }
    ScheduledIsEligible(env, cfg, Exec(env, cfg, evidence, restored, ops[..i]), ops[i].input, key, ops[..i]);
    assert ops[..i+1][..i] == ops[..i];
    VisitsGrow(env, cfg, evidence, restored, ops, i + 1, key);
  }

  lemma PrefixesGrow(env: Env, cfg: Config, evidence: map<string, C.RouteCountries>, restored: Option<CachedData>, ops: seq<Op>,
                     i: nat, j: nat, key: string)
    requires i <= j <= |ops|
    ensures |Visits(env, cfg, evidence, restored, ops[..i], key)| <= |Visits(env, cfg, evidence, restored, ops[..j], key)|
  {
    var p := ops[..j];
    assert p[..i] == ops[..i];
    VisitsGrow(env, cfg, evidence, restored, p, i, key);
  }

  /** The visit of an earlier step comes before that of a later one. */
  lemma VisitsInOrder(env: Env, cfg: Config, evidence: map<string, C.RouteCountries>, restored: Option<CachedData>, ops: seq<Op>,
                      i: nat, j: nat, key: string)
    requires i < j < |ops| && SchedulesAt(env, cfg, evidence, restored, ops, i, key)
    ensures |Visits(env, cfg, evidence, restored, ops[..i], key)| < |Visits(env, cfg, evidence, restored, ops[..j], key)|
  {
    PrefixesGrow(env, cfg, evidence, restored, ops, i + 1, j, key);
    VisitAt(env, cfg, evidence, restored, ops, i, key);
  }

  /** Over any run of the pipeline, with proxies added, dropped and added again, no proxy is
      measured again sooner than RetryAfter after its last attempt, nor sooner than
      RefreshAfter after its last success. */
  lemma MeasuredAgainNoSooner(env: Env, cfg: Config, evidence: map<string, C.RouteCountries>, restored: Option<CachedData>, ops: seq<Op>,
                              i: nat, j: nat, key: string)
    requires Onward(ops) && i < j < |ops|
    requires SchedulesAt(env, cfg, evidence, restored, ops, i, key) && SchedulesAt(env, cfg, evidence, restored, ops, j, key)
    ensures ops[j].input.now - ops[i].input.now >= cfg.bandwidth.retryAfter
    ensures key in Downloads(env, ops[i].input) ==> ops[j].input.now - ops[i].input.now >= cfg.bandwidth.refreshAfter
  {
    var m, n := |Visits(env, cfg, evidence, restored, ops[..i], key)|, |Visits(env, cfg, evidence, restored, ops[..j], key)|;
    VisitAt(env, cfg, evidence, restored, ops, i, key);
    VisitAt(env, cfg, evidence, restored, ops, j, key);
    VisitsInOrder(env, cfg, evidence, restored, ops, i, j, key);
    EveryProxyIsTracked(env, cfg, evidence, restored, ops, key);
    B.ChosenAgainNoSooner(Visits(env, cfg, evidence, restored, ops, key), m, n, cfg.bandwidth);
  }

  // ---------------------------------------------------------------- a proxy that always fails

  /** Refreshes of two proxies, both always reachable, at least the retry delay apart, in
      which no download through the first ever succeeds. */
  ghost predicate FailingRun(env: Env, cfg: Config, ops: seq<Op>, a: string, b: string) {
    forall i :: 0 <= i < |ops| ==>
      && ops[i].Refresh? && ops[i].input.started && ops[i].input.targets != []
      && Covers(env, ops[i].input, [a, b]) && a !in Downloads(env, ops[i].input)
      && (forall t :: t in ops[i].input.targets ==> Reached(t.probe))
      && forall j :: 0 <= j < i ==> ops[j].Refresh? && ops[i].input.now - ops[j].input.now >= cfg.bandwidth.retryAfter
  }

  /** Neither was measured, and the second was never tried. */
  ghost predicate Untried(book: Book, ops: seq<Op>, a: string, b: string) {
    && (a in book.runtime ==> book.runtime[a].lastSuccess.None?
                              && (book.runtime[a].lastAttempt.Some? ==> IsTime(ops, book.runtime[a].lastAttempt.value)))
    && (b in book.runtime ==> book.runtime[b].lastSuccess.None? && book.runtime[b].lastAttempt.None?)
  }

  lemma {:induction false} UpdateAllReachable(env: Env, cfg: Config, book: Book, targets: seq<Target>, now: int, key: string)
    requires (forall t :: t in targets ==> Reached(t.probe))
    requires exists t :: t in targets && env.identity(t.record) == key
    ensures var after := UpdateAll(env, cfg, book, targets, now).runtime; key in after && after[key].reachable
  {
    var p, last := targets[..|targets|-1], targets[|targets|-1];
    var mid := UpdateAll(env, cfg, book, p, now);
    if env.identity(last.record) == key {
      UpdateOneShows(env, cfg, mid, key, last.probe, now);
    } else {
      var t :| t in targets && env.identity(t.record) == key;
      assert t in p;
      UpdateAllReachable(env, cfg, book, p, now, key);
      UpdateOneElsewhere(env, cfg, mid, env.identity(last.record), last.probe, now, key);
    }
  }

  lemma FailingProceeds(env: Env, cfg: Config, ops: seq<Op>, a: string, b: string, i: nat)
    requires FailingRun(env, cfg, ops, a, b) && i < |ops|
    ensures Proceeds(ops[i].input)
  {
    assert ops[i].input.targets[0] in ops[i].input.targets;
  }

  lemma FailingRunPrefix(env: Env, cfg: Config, ops: seq<Op>, a: string, b: string, n: nat)
    requires FailingRun(env, cfg, ops, a, b) && n <= |ops|
    ensures FailingRun(env, cfg, ops[..n], a, b)
  {}

  /** What the refresh `input` finds after the run `ops`, and what its probes leave. */
  ghost predicate Poised(env: Env, cfg: Config, s: Service, input: Input, ops: seq<Op>, a: string, b: string)
  {
    && Untried(s.book, ops, a, b) && Sound(s.book, ops)
    && Covers(env, input, [a, b]) && (forall t :: t in input.targets ==> Reached(t.probe))
    && (forall t :: IsTime(ops, t) ==> input.now - t >= cfg.bandwidth.retryAfter)
    && var book := UpdateAll(env, cfg, s.book, input.targets, input.now);
       forall k :: k in [a, b] && k in book.runtime ==> !book.runtime[k].state.Dead?
  }

  lemma BothEligible(env: Env, cfg: Config, s: Service, input: Input, ops: seq<Op>, a: string, b: string)
    requires Poised(env, cfg, s, input, ops, a, b)
    ensures var book := UpdateAll(env, cfg, s.book, input.targets, input.now);
            && a in book.runtime && b in book.runtime && book.runtime[a].key == a && book.runtime[b].key == b
            && book.runtime[a].lastSuccess.None? && book.runtime[b].lastSuccess.None?
            && B.Eligible(book.runtime[a], input.now, cfg.bandwidth) && B.Eligible(book.runtime[b], input.now, cfg.bandwidth)
  {
    assert a in [a, b] && b in [a, b];
    NamesOf(s.book, ops);
    UpdatedRecorded(env, cfg, s.book, input, [a, b]);
    UpdateAllReachable(env, cfg, s.book, input.targets, input.now, a);
    UpdateAllReachable(env, cfg, s.book, input.targets, input.now, b);
    UpdateAllStamps(env, cfg, s.book, input.targets, input.now, a);
    UpdateAllStamps(env, cfg, s.book, input.targets, input.now, b);
  }

  lemma ActivePair(book: Book, a: string, b: string)
    requires Recorded(book, [a, b])
    ensures a in book.runtime && b in book.runtime && Active(book, [a, b]) == [book.runtime[a], book.runtime[b]]
  {
    ActiveIs(book, [a, b]);
    assert [a, b][0] == a && [a, b][1] == b;
  }

  lemma FirstIsChosen(env: Env, cfg: Config, s: Service, input: Input, ops: seq<Op>, a: string, b: string)
    requires cfg.bandwidth.Slots() == 1 && StrLess(a, b)
    requires Poised(env, cfg, s, input, ops, a, b)
    ensures var book := UpdateAll(env, cfg, s.book, input.targets, input.now);
            && a in book.runtime && b in book.runtime && book.runtime[a].key == a
            && Candidates(env, cfg, book, input) == [book.runtime[a]]
  {
    var book := UpdateAll(env, cfg, s.book, input.targets, input.now);
    BothEligible(env, cfg, s, input, ops, a, b);
    StrLessTotal(a, b);
    NamesOf(s.book, ops);
    RoundIsChoice(env, cfg, s, input, [a, b]);
    UpdatedRecorded(env, cfg, s.book, input, [a, b]);
    ActivePair(book, a, b);
    B.FirstOfTwo(book.runtime[a], book.runtime[b], input.now, cfg.bandwidth);
  }

  lemma IsTimeSnoc(before: seq<Op>, op: Op, t: int)
    ensures IsTime(before, t) ==> IsTime(before + [op], t)
    ensures op.Refresh? && op.input.now == t ==> IsTime(before + [op], t)
  {
    var ops := before + [op];
    assert ops[..|ops|-1] == before && ops[|before|] == op;
    if IsTime(before, t) { IsTimeLonger(ops, t); }
  }

  lemma UntriedStep(env: Env, cfg: Config, s: Service, before: seq<Op>, op: Op, a: string, b: string)
    requires cfg.bandwidthEnabled && cfg.bandwidth.Slots() == 1 && StrLess(a, b)
    requires op.Refresh? && a !in Downloads(env, op.input) && Poised(env, cfg, s, op.input, before, a, b)
    ensures Untried(BookAfter(env, cfg, s.book, op.input), before + [op], a, b)
  {
    var input := op.input;
    var book := UpdateAll(env, cfg, s.book, input.targets, input.now);
    FirstIsChosen(env, cfg, s, input, before, a, b);
    StrLessTotal(a, b);
    UpdateAllStamps(env, cfg, s.book, input.targets, input.now, a);
    UpdateAllStamps(env, cfg, s.book, input.targets, input.now, b);
    assert KeysOf([book.runtime[a]]) == {a};
    StageStamps(env, cfg, book, input, a);
    StageStamps(env, cfg, book, input, b);
    IsTimeSnoc(before, op, input.now);
  }

  lemma ExecSnoc(env: Env, cfg: Config, evidence: map<string, C.RouteCountries>, restored: Option<CachedData>, before: seq<Op>, op: Op)
    ensures Exec(env, cfg, evidence, restored, before + [op]) == Step(env, cfg, Exec(env, cfg, evidence, restored, before), op)
  {
    assert (before + [op])[..|before|] == before;
  }

  /** What the next refresh of a failing run does to the history. */
  lemma FailingSnoc(env: Env, cfg: Config, before: seq<Op>, op: Op, a: string, b: string)
    requires FailingRun(env, cfg, before + [op], a, b)
    ensures op.Refresh? && Proceeds(op.input) && Covers(env, op.input, [a, b]) && a !in Downloads(env, op.input)
    ensures FailingRun(env, cfg, before, a, b)
    ensures forall t :: t in op.input.targets ==> Reached(t.probe)
    ensures forall t :: IsTime(before, t) ==> op.input.now - t >= cfg.bandwidth.retryAfter
    ensures AlwaysReached(env, before + [op], a) && AlwaysReached(env, before + [op], b)
  {
    var ops, n := before + [op], |before|;
    assert ops[n] == op && ops[..n] == before;
    FailingProceeds(env, cfg, ops, a, b, n);
    FailingRunPrefix(env, cfg, ops, a, b, n);
    forall t | IsTime(before, t) ensures op.input.now - t >= cfg.bandwidth.retryAfter {
      var i :| 0 <= i < n && before[i].Refresh? && before[i].input.now == t;
      assert ops[i] == before[i];
    }
  }

  /** The refresh finds both proxies alive. */
  lemma AliveWhileReached(env: Env, cfg: Config, evidence: map<string, C.RouteCountries>, restored: Option<CachedData>, before: seq<Op>, op: Op, key: string)
    requires op.Refresh? && Proceeds(op.input) && AlwaysReached(env, before + [op], key)
    ensures var book := UpdateAll(env, cfg, Exec(env, cfg, evidence, restored, before).book, op.input.targets, op.input.now);
            key in book.runtime ==> !book.runtime[key].state.Dead?
  {
    ReachedNeverDead(env, cfg, evidence, restored, before + [op], key);
    ExecSnoc(env, cfg, evidence, restored, before, op);
    StageKeeps(env, cfg, UpdateAll(env, cfg, Exec(env, cfg, evidence, restored, before).book, op.input.targets, op.input.now), op.input);
  }

  lemma FailingRunPoises(env: Env, cfg: Config, evidence: map<string, C.RouteCountries>, restored: Option<CachedData>, before: seq<Op>, op: Op, a: string, b: string)
    requires FailingRun(env, cfg, before + [op], a, b)
    requires Untried(Exec(env, cfg, evidence, restored, before).book, before, a, b)
    ensures op.Refresh? && Poised(env, cfg, Exec(env, cfg, evidence, restored, before), op.input, before, a, b)
  {
    FailingSnoc(env, cfg, before, op, a, b);
    forall k { StoreIsSound(env, cfg, evidence, restored, before, k); }
    AliveWhileReached(env, cfg, evidence, restored, before, op, a);
    AliveWhileReached(env, cfg, evidence, restored, before, op, b);
  }

  lemma {:induction false} StaysUntried(env: Env, cfg: Config, evidence: map<string, C.RouteCountries>, restored: Option<CachedData>,
                                        ops: seq<Op>, a: string, b: string)
    requires cfg.bandwidthEnabled && cfg.bandwidth.Slots() == 1
    requires StrLess(a, b) && FailingRun(env, cfg, ops, a, b)
    ensures Untried(Exec(env, cfg, evidence, restored, ops).book, ops, a, b)
  {
    if ops != [] {
      var before, op := ops[..|ops|-1], ops[|ops|-1];
      assert ops == before + [op];
      FailingSnoc(env, cfg, before, op, a, b);
      StaysUntried(env, cfg, evidence, restored, before, a, b);
      FailingRunPoises(env, cfg, evidence, restored, before, op, a, b);
      UntriedStep(env, cfg, Exec(env, cfg, evidence, restored, before), before, op, a, b);
    }
  }

  /** Without successes there is no rotation: on every run of the pipeline with one slot in
      which the first of two reachable proxies never completes a download, every refresh
      schedules it again and none ever tries the second. */
  lemma FailingProxyStarvesTheRest(env: Env, cfg: Config, evidence: map<string, C.RouteCountries>, restored: Option<CachedData>,
                                   ops: seq<Op>, a: string, b: string, i: nat)
    requires cfg.bandwidthEnabled && cfg.bandwidth.Slots() == 1
    requires StrLess(a, b) && FailingRun(env, cfg, ops, a, b) && i < |ops|
    ensures SchedulesAt(env, cfg, evidence, restored, ops, i, a) && !SchedulesAt(env, cfg, evidence, restored, ops, i, b)
  {
    var before, op := ops[..i], ops[i];
    FailingRunPrefix(env, cfg, ops, a, b, i + 1);
    assert ops[..i+1] == before + [op];
    FailingSnoc(env, cfg, before, op, a, b);
    StaysUntried(env, cfg, evidence, restored, before, a, b);
    FailingRunPoises(env, cfg, evidence, restored, before, op, a, b);
    FirstScheduled(env, cfg, Exec(env, cfg, evidence, restored, before), op, before, a, b);
  }

  lemma FirstScheduled(env: Env, cfg: Config, s: Service, op: Op, ops: seq<Op>, a: string, b: string)
    requires cfg.bandwidthEnabled && cfg.bandwidth.Slots() == 1 && StrLess(a, b)
    requires op.Refresh? && Proceeds(op.input) && Poised(env, cfg, s, op.input, ops, a, b)
    ensures Schedules(env, cfg, s, op, a) && !Schedules(env, cfg, s, op, b)
  {
    FirstIsChosen(env, cfg, s, op.input, ops, a, b);
    StrLessTotal(a, b);
  }
}
