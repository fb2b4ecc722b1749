/** The race of resolvers for one host (internal/dns/racing.go): racers that offer their
    answer to a channel of capacity 1 without waiting, a wait group, a goroutine that closes
    the channel when every racer is done, and the caller that takes the first answer. */
module DnsRace {
  import opened Common

  /** The caller: it has started `racers` of them; it starts the closer; it receives. */
  datatype Caller = Launching(racers: nat) | StartingCloser | Receiving | Returned(answer: Option<string>)

  datatype Racer = NotStarted | Racing | Offering(answer: string) | Leaving | Gone

  datatype Closer = Unborn | Waiting | Closing | Finished

  /** `outcomes[i]` is what racer `i` finds, None for a failure or an empty address. */
  datatype System = System(
    outcomes: seq<Option<string>>, caller: Caller, racers: seq<Racer>, closer: Closer,
    waiting: int, buffer: Option<string>, closed: bool)

  datatype Move = Call | Race(i: nat) | Close

  /** A step can block, or crash the program: a send on a closed channel, a second close,
      a negative wait group. */
  datatype Next = Blocked | Crash | Ok(system: System)

  function CallerStep(s: System): Next {
    match s.caller
    case Launching(k) =>
      if k < |s.racers| then Ok(s.(caller := Launching(k + 1), racers := s.racers[k := Racing], waiting := s.waiting + 1))
      else Ok(s.(caller := StartingCloser))
    case StartingCloser => Ok(s.(caller := Receiving, closer := Waiting))
    case Receiving =>
      if s.buffer.Some? then Ok(s.(caller := Returned(s.buffer), buffer := None))
      else if s.closed then Ok(s.(caller := Returned(None)))
      else Blocked
    case Returned(_) => Blocked
  }

  function RacerStep(s: System, i: nat): Next
    requires i < |s.racers| == |s.outcomes|
  {
    match s.racers[i]
    case NotStarted => Blocked
    case Racing => Ok(s.(racers := s.racers[i := if s.outcomes[i].Some? then Offering(s.outcomes[i].value) else Leaving]))
    case Offering(answer) =>
      if s.closed then Crash
      else if s.buffer.None? then Ok(s.(racers := s.racers[i := Leaving], buffer := Some(answer)))
      else Ok(s.(racers := s.racers[i := Leaving]))
    case Leaving => if s.waiting <= 0 then Crash else Ok(s.(racers := s.racers[i := Gone], waiting := s.waiting - 1))
    case Gone => Blocked
  }

  function CloserStep(s: System): Next {
    match s.closer
    case Unborn => Blocked
    case Waiting => if s.waiting == 0 then Ok(s.(closer := Closing)) else Blocked
    case Closing => if s.closed then Crash else Ok(s.(closer := Finished, closed := true))
    case Finished => Blocked
  }

  function Step(s: System, m: Move): Next
    requires |s.racers| == |s.outcomes|
  {
    match m
    case Call => CallerStep(s)
    case Race(i) => if i < |s.racers| then RacerStep(s, i) else Blocked
    case Close => CloserStep(s)
  }

  function Initial(outcomes: seq<Option<string>>): System {
    System(outcomes, Launching(0), seq(|outcomes|, _ => NotStarted), Unborn, 0, None, false)
  }

  /** The system after a schedule; a crash or a blocked move ends it. */
  function Exec(outcomes: seq<Option<string>>, moves: seq<Move>): (r: Next)
    ensures r.Ok? ==> |r.system.racers| == |r.system.outcomes|
  {
    if moves == [] then Ok(Initial(outcomes))
    else
      match Exec(outcomes, moves[..|moves|-1])
      case Ok(s) => Step(s, moves[|moves|-1])
      case stop => stop
  }

  // ---------------------------------------------------------------- invariant

  predicate Busy(r: Racer) { r.Racing? || r.Offering? || r.Leaving? }

  function Busies(racers: seq<Racer>): nat {
    if racers == [] then 0 else Busies(racers[..|racers|-1]) + if Busy(racers[|racers|-1]) then 1 else 0
  }

  lemma {:induction false} BusiesUpdate(racers: seq<Racer>, i: nat, r: Racer)
    requires i < |racers|
    ensures Busies(racers[i := r]) == Busies(racers) - (if Busy(racers[i]) then 1 else 0) + (if Busy(r) then 1 else 0)
  {
    var n := |racers| - 1;
    if i == n {
      assert racers[i := r][..n] == racers[..n];
    } else {
      assert racers[i := r][..n] == racers[..n][i := r];
      BusiesUpdate(racers[..n], i, r);
    }
  }

  lemma {:induction false} SomeBusy(racers: seq<Racer>) returns (i: nat)
    requires Busies(racers) > 0
    ensures i < |racers| && Busy(racers[i])
  {
    if Busy(racers[|racers|-1]) { i := |racers| - 1; } else { i := SomeBusy(racers[..|racers|-1]); }
  }

  lemma {:induction false} BusyCounts(racers: seq<Racer>, i: nat)
    requires i < |racers| && Busy(racers[i])
    ensures Busies(racers) > 0
  {
    BusiesUpdate(racers, i, Gone);
  }

  lemma {:induction false} NoneBusy(racers: seq<Racer>)
    requires forall i :: 0 <= i < |racers| ==> !Busy(racers[i])
    ensures Busies(racers) == 0
  {
    if racers != [] { NoneBusy(racers[..|racers|-1]); }
  }

  predicate Launched(c: Caller) { c.Receiving? || c.Returned? }

  /** The racer is past its offer. */
  predicate PastOffer(r: Racer) { r.Leaving? || r.Gone? }

  /** An answer was sent: it is in the channel, or the caller took one. */
  predicate Sent(s: System) { s.buffer.Some? || (s.caller.Returned? && s.caller.answer.Some?) }

  predicate Found(outcomes: seq<Option<string>>, answer: Option<string>) { answer.Some? && answer in outcomes }

  /** A racer stands where its outcome can bring it. */
  predicate Placed(s: System, i: nat)
    requires i < |s.racers| == |s.outcomes|
  {
    && (s.racers[i].Offering? ==> s.outcomes[i] == Some(s.racers[i].answer))
    && (PastOffer(s.racers[i]) && s.outcomes[i].Some? ==> Sent(s))
    && (s.racers[i].NotStarted? <==> s.caller.Launching? && s.caller.racers <= i)
  }

  ghost predicate Inv(s: System) {
    && |s.racers| == |s.outcomes|
    && (forall i :: 0 <= i < |s.racers| ==> Placed(s, i))
    && (s.caller.Launching? ==> s.caller.racers <= |s.racers|)
    && s.waiting == Busies(s.racers)
    && (s.closer.Unborn? <==> !Launched(s.caller))
    && (s.closer.Closing? || s.closer.Finished? ==> s.waiting == 0)
    && (s.closed <==> s.closer.Finished?)
    && (s.buffer.Some? ==> Found(s.outcomes, s.buffer))
    && (s.caller.Returned? ==> if s.caller.answer.Some? then Found(s.outcomes, s.caller.answer) else s.closed)
    && (s.caller.Returned? && s.caller.answer.None? ==> forall i :: 0 <= i < |s.outcomes| ==> s.outcomes[i].None?)
  }

  lemma RacerKeepsInv(s: System, i: nat)
    requires Inv(s) && i < |s.racers|
    ensures !RacerStep(s, i).Crash?
    ensures RacerStep(s, i).Ok? ==> Inv(RacerStep(s, i).system) && RacerStep(s, i).system.outcomes == s.outcomes
  {
    assert Placed(s, i);
    if Busy(s.racers[i]) { BusyCounts(s.racers, i); }
    if RacerStep(s, i).Ok? {
      var t := RacerStep(s, i).system;
      BusiesUpdate(s.racers, i, t.racers[i]);
      assert s.outcomes[i] in s.outcomes;
      forall k | 0 <= k < |t.racers| ensures Placed(t, k) { assert Placed(s, k); }
    }
  }

  lemma ClosedMeansDone(s: System)
    requires Inv(s) && s.closed
    ensures forall i :: 0 <= i < |s.racers| ==> s.racers[i].Gone?
  {
    forall i | 0 <= i < |s.racers| ensures s.racers[i].Gone? {
      assert Placed(s, i);
      if Busy(s.racers[i]) { BusyCounts(s.racers, i); }
    }
  }

  lemma CallerKeepsInv(s: System)
    requires Inv(s)
    ensures !CallerStep(s).Crash?
    ensures CallerStep(s).Ok? ==> Inv(CallerStep(s).system) && CallerStep(s).system.outcomes == s.outcomes
  {
    if CallerStep(s).Ok? {
      var t := CallerStep(s).system;
      if s.caller.Launching? && s.caller.racers < |s.racers| {
        assert Placed(s, s.caller.racers);
        BusiesUpdate(s.racers, s.caller.racers, Racing);
      }
      if s.caller.Receiving? && s.buffer.None? { ClosedMeansDone(s); }
      forall k | 0 <= k < |t.racers| ensures Placed(t, k) && (t.caller == Returned(None) ==> t.outcomes[k].None?) {
        assert Placed(s, k);
      }
    }
  }

  lemma CloserKeepsInv(s: System)
    requires Inv(s)
    ensures !CloserStep(s).Crash?
    ensures CloserStep(s).Ok? ==> Inv(CloserStep(s).system) && CloserStep(s).system.outcomes == s.outcomes
  {
    if CloserStep(s).Ok? {
      var t := CloserStep(s).system;
      forall k | 0 <= k < |t.racers| ensures Placed(t, k) { assert Placed(s, k); }
    }
  }

  lemma {:induction false} InitialInv(outcomes: seq<Option<string>>)
    ensures Inv(Initial(outcomes))
  {
    NoneBusy(Initial(outcomes).racers);
  }

  /** No interleaving crashes: nothing is sent on the closed channel, it is closed at most
      once, and the wait group never drops below zero. */
  lemma {:induction false} NeverCrashes(outcomes: seq<Option<string>>, moves: seq<Move>)
    ensures !Exec(outcomes, moves).Crash?
    ensures Exec(outcomes, moves).Ok? ==> Inv(Exec(outcomes, moves).system) && Exec(outcomes, moves).system.outcomes == outcomes
  {
    if moves == [] {
      InitialInv(outcomes);
    } else {
      NeverCrashes(outcomes, moves[..|moves|-1]);
      var before := Exec(outcomes, moves[..|moves|-1]);
      if before.Ok? {
        match moves[|moves|-1]
        case Call => CallerKeepsInv(before.system);
        case Race(i) => if i < |before.system.racers| { RacerKeepsInv(before.system, i); }
        case Close => CloserKeepsInv(before.system);
      }
    }
  }

  /** In every interleaving, once the caller has returned: it failed exactly when every racer
      failed, and otherwise it has the answer of some successful racer. */
  lemma RaceResult(outcomes: seq<Option<string>>, moves: seq<Move>)
    requires Exec(outcomes, moves).Ok? && Exec(outcomes, moves).system.caller.Returned?
    ensures var answer := Exec(outcomes, moves).system.caller.answer;
            && (answer.None? <==> forall i :: 0 <= i < |outcomes| ==> outcomes[i].None?)
            && (answer.Some? ==> answer in outcomes)
  {
    NeverCrashes(outcomes, moves);
  }

  // ---------------------------------------------------------------- progress

  predicate AllDone(s: System) {
    s.caller.Returned? && s.closer.Finished? && forall i :: 0 <= i < |s.racers| ==> s.racers[i].Gone?
  }

  /** While anything is unfinished, something can move. */
  lemma Progress(s: System) returns (m: Move)
    requires Inv(s) && !AllDone(s)
    ensures Step(s, m).Ok?
  {
    if s.caller.Launching? || s.caller.StartingCloser? {
      m := Call;
    } else if Busies(s.racers) > 0 {
      var i := SomeBusy(s.racers);
      assert Placed(s, i);
      RacerKeepsInv(s, i);
      m := Race(i);
    } else if !s.closer.Finished? {
      m := Close;
    } else {
      ClosedMeansDone(s);
      m := Call;
    }
  }

  function RacerLeft(r: Racer): nat {
    match r case NotStarted => 4 case Racing => 3 case Offering(_) => 2 case Leaving => 1 case Gone => 0
  }

  function RacersLeft(racers: seq<Racer>): nat {
    if racers == [] then 0 else RacersLeft(racers[..|racers|-1]) + RacerLeft(racers[|racers|-1])
  }

  function CallerLeft(c: Caller, n: nat): nat {
    match c
    case Launching(k) => if k <= n then 3 + n - k else 3
    case StartingCloser => 2
    case Receiving => 1
    case Returned(_) => 0
  }

  function CloserLeft(c: Closer): nat {
    match c case Unborn => 3 case Waiting => 2 case Closing => 1 case Finished => 0
  }

  /** Steps that can be left. */
  function Left(s: System): nat { RacersLeft(s.racers) + CallerLeft(s.caller, |s.racers|) + CloserLeft(s.closer) }

  lemma {:induction false} RacersLeftUpdate(racers: seq<Racer>, i: nat, r: Racer)
    requires i < |racers|
    ensures RacersLeft(racers[i := r]) + RacerLeft(racers[i]) == RacersLeft(racers) + RacerLeft(r)
  {
    var n := |racers| - 1;
    if i == n {
      assert racers[i := r][..n] == racers[..n];
    } else {
      assert racers[i := r][..n] == racers[..n][i := r];
      RacersLeftUpdate(racers[..n], i, r);
    }
  }

  lemma StepSpends(s: System, m: Move)
    requires Inv(s) && Step(s, m).Ok?
    ensures Left(Step(s, m).system) < Left(s)
  {
    match m
    case Call =>
      if s.caller.Launching? && s.caller.racers < |s.racers| {
        assert Placed(s, s.caller.racers);
        RacersLeftUpdate(s.racers, s.caller.racers, Racing);
      }
    case Race(i) => RacersLeftUpdate(s.racers, i, Step(s, m).system.racers[i]);
    case Close =>
  }

  lemma {:induction false} InitialLeft(racers: seq<Racer>)
    requires forall i :: 0 <= i < |racers| ==> racers[i].NotStarted?
    ensures RacersLeft(racers) == 4 * |racers|
  {
    if racers != [] { InitialLeft(racers[..|racers|-1]); }
  }

  lemma {:induction false} RunSpends(outcomes: seq<Option<string>>, moves: seq<Move>)
    requires Exec(outcomes, moves).Ok?
    ensures |moves| + Left(Exec(outcomes, moves).system) <= 5 * |outcomes| + 6
  {
    if moves == [] {
      InitialLeft(Initial(outcomes).racers);
    } else {
      RunSpends(outcomes, moves[..|moves|-1]);
      NeverCrashes(outcomes, moves[..|moves|-1]);
      StepSpends(Exec(outcomes, moves[..|moves|-1]).system, moves[|moves|-1]);
    }
  }

  /** Every schedule is finite, and one that cannot be continued has every racer gone, the
      channel closed and the caller returned: nobody is left waiting. */
  lemma EverybodyTerminates(outcomes: seq<Option<string>>, moves: seq<Move>)
    requires Exec(outcomes, moves).Ok?
    ensures |moves| <= 5 * |outcomes| + 6
    ensures (forall m :: !Step(Exec(outcomes, moves).system, m).Ok?) ==> AllDone(Exec(outcomes, moves).system)
  {
    RunSpends(outcomes, moves);
    NeverCrashes(outcomes, moves);
    var s := Exec(outcomes, moves).system;
    if !AllDone(s) {
      var m := Progress(s);
      assert Step(s, m).Ok?;
    }
  }
}
