/** The per-proxy recovery machine (internal/quality/state.go) and what its counters
    mean over whole histories of observations. */
module Quality {
  /** `Unset` is Go's empty state string, which the machine reads as HEALTHY. */
  datatype State = Unset | Healthy | Degraded | Dead | Recovering

  datatype Observation = Good | Partial | Blackhole

  datatype RuntimeState = RuntimeState(
    state: State, consecutiveBlackholes: nat, consecutiveGood: nat, deadAt: int)

  function Transition(r: RuntimeState, o: Observation, now: int, deadCooldown: int): RuntimeState {
    var r := if r.state.Unset? then r.(state := Healthy) else r;
    match r.state
    case Healthy =>
      (match o
       case Good => r.(consecutiveBlackholes := 0, consecutiveGood := 0)
       case Partial => r.(state := Degraded, consecutiveGood := 0)
       case Blackhole => r.(state := Degraded, consecutiveBlackholes := r.consecutiveBlackholes + 1, consecutiveGood := 0))
    case Degraded =>
      (match o
       case Good =>
         var r := r.(consecutiveGood := r.consecutiveGood + 1, consecutiveBlackholes := 0);
         if r.consecutiveGood >= 2 then r.(state := Healthy, consecutiveGood := 0) else r
       case Partial => r.(consecutiveGood := 0)
       case Blackhole =>
         var r := r.(consecutiveBlackholes := r.consecutiveBlackholes + 1, consecutiveGood := 0);
         if r.consecutiveBlackholes >= 2 then r.(state := Dead, deadAt := now) else r)
    case Dead =>
      if o.Good? && now - r.deadAt >= deadCooldown then r.(state := Recovering, consecutiveGood := 1)
      else if !o.Good? then r.(consecutiveGood := 0)
      else r
    case Recovering =>
      (match o
       case Good =>
         var r := r.(consecutiveGood := r.consecutiveGood + 1);
         if r.consecutiveGood >= 2 then r.(state := Healthy, consecutiveGood := 0) else r
       case Partial => r.(state := Degraded, consecutiveGood := 0)
       case Blackhole => r.(state := Dead, deadAt := now, consecutiveGood := 0))
    case Unset => r
  }

  /** One step of the machine, state by state. */
  lemma OneStep(r: RuntimeState, o: Observation, now: int, deadCooldown: int)
    ensures var next := Transition(r, o, now, deadCooldown);
            && (r.state == Healthy ==> next.state == if o == Good then Healthy else Degraded)
            && (r.state == Healthy || r.state == Degraded ==>
                  next.consecutiveBlackholes == if o == Good then 0 else r.consecutiveBlackholes + if o == Blackhole then 1 else 0)
            && (r.state == Degraded ==>
                  next.state == if o == Good && r.consecutiveGood >= 1 then Healthy
                                else if o == Blackhole && r.consecutiveBlackholes >= 1 then Dead else Degraded)
            && (r.state == Dead ==> next.state == if o == Good && now - r.deadAt >= deadCooldown then Recovering else Dead)
            && (r.state == Recovering ==>
                  next.state == if o == Good then (if r.consecutiveGood >= 1 then Healthy else Recovering)
                                else if o == Partial then Degraded else Dead)
  {}

  /** One refresh as the machine sees it. */
  datatype Sample = Sample(seen: Observation, at: int)

  /** A proxy seen for the first time. */
  const FRESH := RuntimeState(Healthy, 0, 0, 0)

  /** The machine after a whole history, oldest sample first. */
  function Run(h: seq<Sample>, cooldown: int): RuntimeState {
    if h == [] then FRESH
    else Transition(Run(h[..|h|-1], cooldown), h[|h|-1].seen, h[|h|-1].at, cooldown)
  }

  /** The state in which sample `i` was observed. */
  function Before(h: seq<Sample>, i: nat, cooldown: int): State
    requires i <= |h|
  {
    Run(h[..i], cooldown).state
  }

  predicate Live(s: State) { s.Healthy? || s.Degraded? }

  /** What ties the GOOD counter to the last observation. */
  lemma {:induction false} GoodCounter(h: seq<Sample>, cooldown: int)
    ensures var r := Run(h, cooldown);
            && !r.state.Unset?
            && (r.state.Healthy? || r.state.Dead? ==> r.consecutiveGood == 0)
            && (r.state.Degraded? ==> r.consecutiveGood == if h[|h|-1].seen.Good? then 1 else 0)
            && (r.state.Recovering? ==> r.consecutiveGood == 1 && h[|h|-1].seen.Good?)
            && (!r.state.Healthy? ==> h != [])
  {
    if h != [] { GoodCounter(h[..|h|-1], cooldown); }
  }

  /** HEALTHY is re-entered exactly on the second of two GOOD observations in a row,
      from DEGRADED or RECOVERING. */
  lemma EntersHealthyIff(h: seq<Sample>, cooldown: int)
    requires h != [] && !Before(h, |h|-1, cooldown).Healthy?
    ensures Run(h, cooldown).state.Healthy? <==>
            && |h| >= 2 && h[|h|-1].seen.Good? && h[|h|-2].seen.Good?
            && !Before(h, |h|-1, cooldown).Dead?
  {
    GoodCounter(h[..|h|-1], cooldown);
    if |h| >= 2 { assert h[..|h|-1][|h|-2] == h[|h|-2]; }
  }

  /** Sample `i` killed the proxy. */
  predicate DiedAt(h: seq<Sample>, i: nat, cooldown: int)
    requires i < |h|
  {
    !Before(h, i, cooldown).Dead? && Before(h, i+1, cooldown).Dead?
  }

  /** While DEAD, `deadAt` is the time of the latest death. */
  lemma {:induction false} LatestDeath(h: seq<Sample>, cooldown: int) returns (i: nat)
    requires Run(h, cooldown).state.Dead?
    ensures i < |h| && DiedAt(h, i, cooldown) && Run(h, cooldown).deadAt == h[i].at
    ensures forall j :: i < j <= |h| ==> Before(h, j, cooldown).Dead?
  {
    var p := h[..|h|-1];
    assert h[..|h|] == h;
    if Run(p, cooldown).state.Dead? {
      i := LatestDeath(p, cooldown);
      assert p[..i] == h[..i] && p[..i+1] == h[..i+1];
      forall j | i < j <= |h| ensures Before(h, j, cooldown).Dead? {
        if j < |h| { assert p[..j] == h[..j]; assert Before(p, j, cooldown).Dead?; }
      }
    } else {
      i := |h| - 1;
      assert h[..i+1] == h;
    }
  }

  /** DEAD is left exactly on a GOOD observation at least the cooldown after the
      latest death, and then to RECOVERING. */
  lemma LeavesDeadIff(h: seq<Sample>, i: nat, cooldown: int)
    requires h != [] && i < |h| - 1 && DiedAt(h, i, cooldown)
    requires forall j :: i < j < |h| ==> Before(h, j, cooldown).Dead?
    ensures !Run(h, cooldown).state.Dead? <==> h[|h|-1].seen.Good? && h[|h|-1].at - h[i].at >= cooldown
    ensures !Run(h, cooldown).state.Dead? ==> Run(h, cooldown).state.Recovering?
  {
    var p := h[..|h|-1];
    assert Before(h, |h|-1, cooldown).Dead?;
    var k := LatestDeath(p, cooldown);
    assert p[..k] == h[..k] && p[..k+1] == h[..k+1];
    assert p[..i] == h[..i];
    var atK, atI := Before(h, k, cooldown), Before(p, i, cooldown);
    if k > i { assert false; }
    if k < i { assert false; }
  }

  /** Blackholes observed from sample `from` on while HEALTHY or DEGRADED. */
  function LiveBlackholes(h: seq<Sample>, from: nat, cooldown: int): nat
    requires from <= |h|
  {
    if from == |h| then 0
    else LiveBlackholes(h[..|h|-1], from, cooldown)
         + if h[|h|-1].seen.Blackhole? && Live(Before(h, |h|-1, cooldown)) then 1 else 0
  }

  predicate LiveGood(h: seq<Sample>, i: nat, cooldown: int)
    requires i < |h|
  {
    h[i].seen.Good? && Live(Before(h, i, cooldown))
  }

  /** The blackhole counter is the number of blackholes seen in HEALTHY or DEGRADED
      since the last GOOD seen in HEALTHY or DEGRADED: what happens in DEAD or
      RECOVERING neither counts nor clears. */
  lemma {:induction false} BlackholeCounter(h: seq<Sample>, from: nat, cooldown: int)
    requires from <= |h| && LastLiveGood(h, from, cooldown)
    ensures Run(h, cooldown).consecutiveBlackholes == LiveBlackholes(h, from, cooldown)
  {
    if h != [] {
      var p := h[..|h|-1];
      GoodCounter(p, cooldown);
      if from < |h| {
        assert !LiveGood(h, |h|-1, cooldown);
        if from > 0 { assert p[..from-1] == h[..from-1] && p[from-1] == h[from-1]; assert LiveGood(p, from-1, cooldown); }
        forall i | from <= i < |p| ensures !LiveGood(p, i, cooldown) {
          assert p[..i] == h[..i] && p[i] == h[i];
          assert !LiveGood(h, i, cooldown);
        }
        BlackholeCounter(p, from, cooldown);
      }
    }
  }

  /** A history is cut after a GOOD that HEALTHY or DEGRADED saw, and none follows. */
  predicate LastLiveGood(h: seq<Sample>, from: nat, cooldown: int)
    requires from <= |h|
  {
    (from > 0 ==> LiveGood(h, from - 1, cooldown)) && forall i :: from <= i < |h| ==> !LiveGood(h, i, cooldown)
  }

  /** Every history can be cut so. */
  lemma {:induction false} LastLiveGoodExists(h: seq<Sample>, cooldown: int) returns (from: nat)
    ensures from <= |h| && LastLiveGood(h, from, cooldown)
  {
    from := 0;
    if h != [] {
      var n := |h| - 1;
      if LiveGood(h, n, cooldown) { return n + 1; }
      from := LastLiveGoodExists(h[..n], cooldown);
      LastLiveGoodLonger(h, from, cooldown);
    }
  }

  lemma LastLiveGoodLonger(h: seq<Sample>, from: nat, cooldown: int)
    requires h != [] && from < |h| && !LiveGood(h, |h|-1, cooldown)
    ensures LastLiveGood(h[..|h|-1], from, cooldown) <==> LastLiveGood(h, from, cooldown)
  {
    var p := h[..|h|-1];
    forall i | 0 <= i < |p| ensures LiveGood(p, i, cooldown) <==> LiveGood(h, i, cooldown) {
      assert p[..i] == h[..i] && p[i] == h[i];
    }
  }

  /** When a sample kills, over every history: it is a blackhole, seen either in RECOVERING,
      or in DEGRADED with another blackhole seen in HEALTHY or DEGRADED since the last GOOD
      seen there. Deaths and recoveries in between do not matter. */
  lemma DiesIff(h: seq<Sample>, from: nat, cooldown: int)
    requires from < |h| && LastLiveGood(h[..|h|-1], from, cooldown)
    ensures DiedAt(h, |h|-1, cooldown) <==>
              && h[|h|-1].seen.Blackhole?
              && (|| Before(h, |h|-1, cooldown).Recovering?
                  || (Before(h, |h|-1, cooldown).Degraded? && LiveBlackholes(h[..|h|-1], from, cooldown) >= 1))
  {
    var p := h[..|h|-1];
    assert h[..|h|] == h;
    GoodCounter(p, cooldown);
    BlackholeCounter(p, from, cooldown);
  }

  /** Two blackholes with no GOOD between them. */
  predicate DoubleBlackhole(h: seq<Sample>, i: nat, j: nat)
    requires i < j < |h|
  {
    && h[i].seen.Blackhole? && h[j].seen.Blackhole?
    && forall k :: i < k < j ==> !h[k].seen.Good?
  }

  ghost predicate HasDoubleBlackhole(h: seq<Sample>) {
    exists i, j :: 0 <= i < j < |h| && DoubleBlackhole(h, i, j)
  }

  ghost predicate EverDead(h: seq<Sample>, cooldown: int) {
    exists i :: 0 <= i <= |h| && Before(h, i, cooldown).Dead?
  }

  /** Before any death the counter is 1 exactly when a blackhole was seen and no GOOD since. */
  ghost predicate Pending(h: seq<Sample>) {
    exists i :: 0 <= i < |h| && PendingFrom(h, i)
  }

  /** A blackhole at `i` and no GOOD since. */
  predicate PendingFrom(h: seq<Sample>, i: nat)
    requires i < |h|
  {
    h[i].seen.Blackhole? && forall k :: i < k < |h| ==> !h[k].seen.Good?
  }

  lemma PendingSnoc(p: seq<Sample>, x: Sample)
    ensures Pending(p + [x]) <==> x.seen.Blackhole? || (Pending(p) && !x.seen.Good?)
  {
    var h, n := p + [x], |p|;
    if Pending(p) && !x.seen.Good? {
      var i :| 0 <= i < n && PendingFrom(p, i);
      assert PendingFrom(h, i);
    }
    if x.seen.Blackhole? { assert PendingFrom(h, n); }
    if Pending(h) && !x.seen.Blackhole? {
      var i :| 0 <= i < |h| && PendingFrom(h, i);
      assert h[n] == x;
      assert forall k :: 0 <= k < n ==> p[k] == h[k];
      assert PendingFrom(p, i);
    }
  }

  lemma DoubleSnoc(p: seq<Sample>, x: Sample)
    ensures HasDoubleBlackhole(p + [x]) <==> HasDoubleBlackhole(p) || (Pending(p) && x.seen.Blackhole?)
  {
    var h, n := p + [x], |p|;
    if HasDoubleBlackhole(p) {
      var i, j :| 0 <= i < j < n && DoubleBlackhole(p, i, j);
      assert DoubleBlackhole(h, i, j);
    }
    if Pending(p) && x.seen.Blackhole? {
      var i :| 0 <= i < n && PendingFrom(p, i);
      assert DoubleBlackhole(h, i, n);
    }
    if HasDoubleBlackhole(h) {
      var i, j :| 0 <= i < j < |h| && DoubleBlackhole(h, i, j);
      assert forall k :: 0 <= k < n ==> p[k] == h[k];
      if j < n { assert DoubleBlackhole(p, i, j); } else { assert PendingFrom(p, i); }
    }
  }

  lemma PendingStep(h: seq<Sample>)
    requires h != []
    ensures Pending(h) <==> h[|h|-1].seen.Blackhole? || (Pending(h[..|h|-1]) && !h[|h|-1].seen.Good?)
    ensures HasDoubleBlackhole(h) <==> HasDoubleBlackhole(h[..|h|-1]) || (Pending(h[..|h|-1]) && h[|h|-1].seen.Blackhole?)
  {
    assert h == h[..|h|-1] + [h[|h|-1]];
    PendingSnoc(h[..|h|-1], h[|h|-1]);
    DoubleSnoc(h[..|h|-1], h[|h|-1]);
  }

  lemma {:induction false} AliveUntilDouble(h: seq<Sample>, cooldown: int)
    ensures EverDead(h, cooldown) <==> HasDoubleBlackhole(h)
    ensures !EverDead(h, cooldown) ==>
              && Live(Run(h, cooldown).state)
              && Run(h, cooldown).consecutiveBlackholes == (if Pending(h) then 1 else 0)
              && (Run(h, cooldown).state.Healthy? ==> !Pending(h))
  {
    if h == [] {
      assert Before(h, 0, cooldown) == Healthy;
    } else {
      var n := |h| - 1;
      var p := h[..n];
      AliveUntilDouble(p, cooldown);
      PendingStep(h);
      GoodCounter(p, cooldown);
      assert h[..|h|] == h;
      if EverDead(p, cooldown) {
        var i :| 0 <= i <= |p| && Before(p, i, cooldown).Dead?;
        assert p[..i] == h[..i];
        assert Before(h, i, cooldown).Dead?;
      } else if EverDead(h, cooldown) {
        var i :| 0 <= i <= |h| && Before(h, i, cooldown).Dead?;
        if i <= n {
          assert p[..i] == h[..i];
          var atI := Before(p, i, cooldown);
          assert false;
        }
      } else {
        assert !Before(h, |h|, cooldown).Dead?;
      }
    }
  }

  /** A proxy has ever been DEAD exactly when its history holds two blackholes with no
      GOOD between them, whatever the times: the first death takes two blackholes. */
  lemma FirstDeathTakesTwoBlackholes(h: seq<Sample>, cooldown: int)
    ensures EverDead(h, cooldown) <==> HasDoubleBlackhole(h)
  {
    AliveUntilDouble(h, cooldown);
  }

  // ---------------------------------------------------------------- after a recovery

  predicate HasGood(h: seq<Sample>) { exists i :: 0 <= i < |h| && h[i].seen.Good? }

  predicate HasBlackhole(h: seq<Sample>) { exists i :: 0 <= i < |h| && h[i].seen.Blackhole? }

  predicate AliveAt(base: seq<Sample>, w: seq<Sample>, k: nat, cooldown: int)
    requires k <= |w|
  {
    !Run(base + w[..k], cooldown).state.Dead?
  }

  /** A proxy that just recovered, `w` observed since, not killed again. */
  ghost predicate AliveSince(base: seq<Sample>, w: seq<Sample>, cooldown: int) {
    && Run(base, cooldown).state.Recovering?
    && forall k :: 0 <= k <= |w| ==> AliveAt(base, w, k, cooldown)
  }

  /** Neither DEAD nor RECOVERING clears the two blackholes of a death. */
  lemma {:induction false} DeathKeepsTwo(h: seq<Sample>, cooldown: int)
    ensures Run(h, cooldown).state.Dead? || Run(h, cooldown).state.Recovering? ==> Run(h, cooldown).consecutiveBlackholes >= 2
  {
    if h != [] {
      DeathKeepsTwo(h[..|h|-1], cooldown);
      GoodCounter(h[..|h|-1], cooldown);
    }
  }

  lemma AliveInit(base: seq<Sample>, w: seq<Sample>, cooldown: int)
    requires w != [] && AliveSince(base, w, cooldown)
    ensures AliveSince(base, w[..|w|-1], cooldown) && !Run(base + w, cooldown).state.Dead?
    ensures var x := w[|w|-1]; Run(base + w, cooldown) == Transition(Run(base + w[..|w|-1], cooldown), x.seen, x.at, cooldown)
  {
    var v := w[..|w|-1];
    assert (base + w)[..|base + w|-1] == base + v && w[..|w|] == w;
    assert AliveAt(base, w, |w|, cooldown);
    forall k | 0 <= k <= |v| ensures AliveAt(base, v, k, cooldown) {
      assert v[..k] == w[..k] && AliveAt(base, w, k, cooldown);
    }
  }

  lemma HasGoodSnoc(p: seq<Sample>, x: Sample)
    ensures HasGood(p + [x]) <==> HasGood(p) || x.seen.Good?
  {
    if HasGood(p) {
      var i :| 0 <= i < |p| && p[i].seen.Good?;
      assert (p + [x])[i].seen.Good?;
    }
    if x.seen.Good? { assert (p + [x])[|p|].seen.Good?; }
  }

  /** What the machine holds while it lives on: the old blackholes until a GOOD after the
      first sample, which RECOVERING takes without clearing. */
  lemma {:induction false} SinceRecovery(base: seq<Sample>, w: seq<Sample>, cooldown: int)
    requires w != [] && AliveSince(base, w, cooldown)
    ensures var r := Run(base + w, cooldown);
            && Live(r.state)
            && (HasGood(w[1..]) ==> (r.consecutiveBlackholes >= 1 <==> Pending(w[1..])) && (r.state.Healthy? ==> !Pending(w[1..])))
            && (!HasGood(w[1..]) ==> r.consecutiveBlackholes >= 2 && (r.state.Healthy? <==> |w| == 1 && w[0].seen.Good?))
  {
    var n := |w| - 1;
    var v, x := w[..n], w[n];
    AliveInit(base, w, cooldown);
    GoodCounter(base + v, cooldown);
    if n == 0 {
      assert base + v == base && w[1..] == [];
      DeathKeepsTwo(base, cooldown);
    } else {
      SinceRecovery(base, v, cooldown);
      assert w[1..] == v[1..] + [x];
      HasGoodSnoc(v[1..], x);
      PendingSnoc(v[1..], x);
    }
  }

  /** When a sample kills after a recovery, read off the observations alone: it is a
      blackhole and, if a GOOD came after the first sample since, one more blackhole after
      the last GOOD; with no such GOOD it kills at once, unless it is the one right after a
      first GOOD. */
  lemma DiesAgainIff(base: seq<Sample>, w: seq<Sample>, x: Sample, cooldown: int)
    requires AliveSince(base, w, cooldown)
    ensures Run(base + w + [x], cooldown).state.Dead? <==>
              && x.seen.Blackhole?
              && (|| w == []
                  || (if HasGood(w[1..]) then Pending(w[1..]) else !(|w| == 1 && w[0].seen.Good?)))
  {
    RunSnoc(base + w, x, cooldown);
    assert AliveAt(base, w, |w|, cooldown) && w[..|w|] == w;
    if w == [] { assert base + w == base; } else { SinceRecovery(base, w, cooldown); }
  }

  /** A single blackhole since the recovery kills exactly when every other sample since is
      PARTIAL, a first GOOD aside if a PARTIAL follows it. */
  lemma OneIsEnoughIff(base: seq<Sample>, w: seq<Sample>, x: Sample, cooldown: int)
    requires AliveSince(base, w, cooldown) && x.seen.Blackhole? && !HasBlackhole(w)
    ensures Run(base + w + [x], cooldown).state.Dead? <==>
              && (forall i :: 1 <= i < |w| ==> w[i].seen.Partial?)
              && (|w| == 1 ==> w[0].seen.Partial?)
  {
    DiesAgainIff(base, w, x, cooldown);
    if w != [] {
      var t := w[1..];
      assert forall i :: 0 <= i < |t| ==> t[i] == w[i+1];
      assert !Pending(t);
      if !HasGood(t) {
        forall i | 1 <= i < |w| ensures w[i].seen.Partial? { assert w[i] == t[i-1]; }
      }
    }
  }

  /** A history of that shape: one blackhole in DEGRADED kills a recovered proxy, so
      "two since recovery" is not what is kept. */
  lemma OneBlackholeAfterRecoveryKills(t: int, cooldown: int)
    requires cooldown >= 0
    ensures var h := [Sample(Blackhole, t), Sample(Blackhole, t + 1), Sample(Good, t + 1 + cooldown),
                      Sample(Partial, t + 2 + cooldown), Sample(Blackhole, t + 3 + cooldown)];
            && Before(h, 3, cooldown).Recovering? && Before(h, 4, cooldown).Degraded?
            && DiedAt(h, 4, cooldown)
  {
    var h1 := [Sample(Blackhole, t)];
    var h2 := h1 + [Sample(Blackhole, t + 1)];
    var h3 := h2 + [Sample(Good, t + 1 + cooldown)];
    var h4 := h3 + [Sample(Partial, t + 2 + cooldown)];
    var h := h4 + [Sample(Blackhole, t + 3 + cooldown)];
    RunSnoc([], h1[0], cooldown);
    assert [] + [h1[0]] == h1;
    assert Run(h1, cooldown) == RuntimeState(Degraded, 1, 0, 0);
    RunSnoc(h1, h2[1], cooldown);
    assert Run(h2, cooldown) == RuntimeState(Dead, 2, 0, t + 1);
    RunSnoc(h2, h3[2], cooldown);
    assert Run(h3, cooldown) == RuntimeState(Recovering, 2, 1, t + 1);
    RunSnoc(h3, h4[3], cooldown);
    assert Run(h4, cooldown) == RuntimeState(Degraded, 2, 0, t + 1);
    RunSnoc(h4, h[4], cooldown);
    assert h == [Sample(Blackhole, t), Sample(Blackhole, t + 1), Sample(Good, t + 1 + cooldown),
                 Sample(Partial, t + 2 + cooldown), Sample(Blackhole, t + 3 + cooldown)];
    assert h[..3] == h3 && h[..4] == h4 && h[..5] == h;
  }

  lemma RunSnoc(h: seq<Sample>, x: Sample, cooldown: int)
    ensures Run(h + [x], cooldown) == Transition(Run(h, cooldown), x.seen, x.at, cooldown)
  {
    assert (h + [x])[..|h|] == h;
  }

  /** Three samples at one time, two of them blackholes, leave a new proxy DEAD. */
  lemma TwoBlackholesKill(third: Observation, now: int, cooldown: int)
    requires cooldown > 0
    ensures Run([Sample(Blackhole, now)] + [Sample(Blackhole, now)] + [Sample(third, now)], cooldown).state.Dead?
  {
    var first := [Sample(Blackhole, now)];
    RunSnoc([], Sample(Blackhole, now), cooldown);
    assert [] + first == first;
    RunSnoc(first, Sample(Blackhole, now), cooldown);
    RunSnoc(first + [Sample(Blackhole, now)], Sample(third, now), cooldown);
  }

  /** Without blackholes there is no death. */
  lemma NoBlackholeNoDeath(h: seq<Sample>, cooldown: int)
    requires forall i :: 0 <= i < |h| ==> !h[i].seen.Blackhole?
    ensures !EverDead(h, cooldown)
  {
    AliveUntilDouble(h, cooldown);
  }
}
