/** The refresh lock and the embedded-xray slot under any number of concurrent refresh,
    re-probe, service-check and enrichment tasks (internal/pipeline/pipeline.go,
    internal/pipeline/enrichment.go, internal/pipeline/fetch_fallback.go). */
module SlotProtocol {
  import opened Common
  import X = XrayCore

  datatype Kind = Refresh | Reprobe | Service | Enrich

  /** Where a task stands. */
  datatype PC =
    | Begin
    | Fetching        // a refresh fetches its sources
    | GatewayWait     // waits for the slot to open a fetch gateway
    | GatewayStarting // has the token, the gateway is coming up
    | GatewayOpen
    | Looking         // an enrichment batch looks up reputation, ports and DNSBL
    | Closing         // it closes its gateway, if any
    | LockWait        // it waits for the lock to refresh the cached enrichment
    | Parsing         // a refresh merges, parses and resolves; a re-probe picks candidates
    | ProberWait      // waits for the slot to start an exit prober
    | ProberStarting  // has the token, the prober is coming up
    | Probing
    | Publishing      // writes the runtime store and the published snapshot
    | Stopping        // deferred prober stop
    | Unlocking       // deferred unlock
    | Cleaning        // deferred second close of an enrichment gateway
    | Done

  /** `gateway` and `prober` are the ownsCore flags of the task's two core users;
      `cleanup` says that an enrichment batch has a deferred close. */
  datatype Task = Task(kind: Kind, pc: PC, gateway: bool, prober: bool, cleanup: bool)

  /** `free` is the number of tokens in the slot channel. */
  datatype System = System(lock: Option<nat>, free: nat, tasks: seq<Task>)

  /** What a step does to the shared state, and where the task goes next. */
  datatype Action =
    | Local(next: PC)
    | Lock(next: PC)
    | Unlock(next: PC)
    | Take(next: PC)         // receive from the slot channel
    | FailStart(next: PC)    // return the token of a core that did not start
    | OpenGateway(next: PC)
    | KeepCleanup(next: PC)
    | CloseGateway(next: PC)
    | OpenProber(next: PC)
    | StopProber(next: PC)

  /** Which way a task goes where its code branches: on, out, past the gateway stage, or
      its wait was cancelled. */
  datatype Choice = Go | Out | Skip | Cancel

  /** Where a task that used a prober, or could not, goes: the lock is released last. */
  function AfterProber(kind: Kind): PC {
    if kind.Service? then Done else Unlocking
  }

  function AfterGateway(kind: Kind): PC {
    if kind.Enrich? then Looking else Parsing
  }

  /** The code of the four tasks. */
  function Program(t: Task, c: Choice): Option<Action> {
    match (t.pc, c)
    case (Begin, Go) =>
      (match t.kind
       case Refresh => Some(Lock(Fetching))
       case Reprobe => Some(Lock(Parsing))
       case Service => Some(Local(ProberWait))
       case Enrich => Some(Local(GatewayWait)))
    case (Begin, Out) =>
      (match t.kind
       case Service => Some(Local(Done))
       case Enrich => Some(Local(Done))
       case _ => None)
    case (Begin, Skip) => if t.kind.Enrich? then Some(Local(Looking)) else None
    case (Fetching, Go) => Some(Local(GatewayWait))
    case (Fetching, Skip) => Some(Local(Parsing))
    case (GatewayWait, Go) => Some(Take(GatewayStarting))
    case (GatewayWait, Cancel) => Some(Local(AfterGateway(t.kind)))
    case (GatewayStarting, Go) => Some(OpenGateway(GatewayOpen))
    case (GatewayStarting, Out) => Some(FailStart(AfterGateway(t.kind)))
    case (GatewayOpen, Go) => Some(if t.kind.Enrich? then KeepCleanup(Looking) else CloseGateway(Parsing))
    case (GatewayOpen, Out) => if t.kind.Enrich? then Some(CloseGateway(Looking)) else None // no usable client
    case (Looking, Go) => Some(Local(Closing))
    case (Closing, Go) => Some(if t.cleanup then CloseGateway(LockWait) else Local(LockWait))
    case (LockWait, Go) => Some(Lock(Publishing))
    case (Parsing, Go) => Some(Local(ProberWait))
    case (Parsing, Out) => Some(Local(Unlocking))
    case (ProberWait, Go) => Some(Take(ProberStarting))
    case (ProberWait, Cancel) => Some(Local(AfterProber(t.kind)))
    case (ProberStarting, Go) => Some(OpenProber(Probing))
    case (ProberStarting, Out) => Some(FailStart(AfterProber(t.kind)))
    case (Probing, Go) => Some(Local(if t.kind.Service? then Stopping else Publishing))
    case (Probing, Out) => Some(Local(Stopping))
    case (Publishing, Go) => Some(Local(if t.kind.Enrich? then Unlocking else Stopping))
    case (Stopping, Go) => Some(StopProber(AfterProber(t.kind)))
    case (Unlocking, Go) => Some(Unlock(if t.kind.Enrich? then Cleaning else Done))
    case (Cleaning, Go) => Some(if t.cleanup then CloseGateway(Done) else Local(Done))
    case _ => None
  }

  /** The action returns a token the task holds. */
  predicate Returns(t: Task, a: Action) {
    a.FailStart? || (a.CloseGateway? && t.gateway) || (a.StopProber? && t.prober)
  }

  /** The task after an action. */
  function Moved(t: Task, a: Action): Task {
    var t := t.(pc := a.next);
    match a
    case OpenGateway(_) => t.(gateway := true)
    case KeepCleanup(_) => t.(cleanup := true)
    case CloseGateway(_) => t.(gateway := false)
    case OpenProber(_) => t.(prober := true)
    case StopProber(_) => t.(prober := false)
    case _ => t
  }

  /** The effect of an action, or None where it blocks: a taken lock, an empty slot
      channel to receive from, a full one to send to. */
  function Perform(s: System, i: nat, a: Action): Option<System>
    requires i < |s.tasks|
  {
    var t := s.tasks[i];
    if a.Lock? && s.lock.Some? then None
    else if a.Take? && s.free == 0 then None
    else if Returns(t, a) && s.free >= 1 then None
    else
      Some(System(if a.Lock? then Some(i) else if a.Unlock? then None else s.lock,
                  if a.Take? then s.free - 1 else if Returns(t, a) then s.free + 1 else s.free,
                  s.tasks[i := Moved(t, a)]))
  }

  function Step(s: System, i: nat, c: Choice): Option<System>
    requires i < |s.tasks|
  {
    match Program(s.tasks[i], c)
    case None => None
    case Some(a) => Perform(s, i, a)
  }

  /** One move of the scheduler. */
  datatype Move = Move(task: nat, choice: Choice)

  /** The system after a schedule, or None if the schedule asks for a blocked step. */
  function Exec(s: System, moves: seq<Move>): Option<System> {
    if moves == [] then Some(s)
    else
      match Exec(s, moves[..|moves|-1])
      case None => None
      case Some(mid) =>
        var m := moves[|moves|-1];
        if m.task < |mid.tasks| then Step(mid, m.task, m.choice) else None
  }

  function Initial(kinds: seq<Kind>): System {
    System(None, 1, seq(|kinds|, i requires 0 <= i < |kinds| => Task(kinds[i], Begin, false, false, false)))
  }

  // ---------------------------------------------------------------- the four programs

  /** Where a task can go next, task by task. A refresh locks, fetches, retries through a
      gateway if that comes up, parses, probes if the prober comes up, publishes if something
      got through, stops and unlocks. A re-probe does the same without fetching. A service
      check only probes, without the lock. An enrichment batch looks up, through a gateway if
      one comes up, closes it, and only then locks, writes and unlocks. */
  predicate Flows(kind: Kind, here: PC, next: PC) {
    match kind
    case Refresh =>
      (match here
       case Begin => next == Fetching
       case Fetching => next == GatewayWait || next == Parsing
       case GatewayWait => next == GatewayStarting || next == Parsing
       case GatewayStarting => next == GatewayOpen || next == Parsing
       case GatewayOpen => next == Parsing
       case Done => false
       case _ => ProbingFlows(here, next))
    case Reprobe =>
      (match here
       case Begin => next == Parsing
       case Done => false
       case _ => ProbingFlows(here, next))
    case Service =>
      (match here
       case Begin => next == ProberWait || next == Done
       case ProberWait => next == ProberStarting || next == Done
       case ProberStarting => next == Probing || next == Done
       case Probing => next == Stopping
       case _ => here == Stopping && next == Done)
    case Enrich =>
      (match here
       case Begin => next == GatewayWait || next == Looking || next == Done
       case GatewayWait => next == GatewayStarting || next == Looking
       case GatewayStarting => next == GatewayOpen || next == Looking
       case GatewayOpen => next == Looking
       case Looking => next == Closing
       case Closing => next == LockWait
       case LockWait => next == Publishing
       case Publishing => next == Unlocking
       case Unlocking => next == Cleaning
       case _ => here == Cleaning && next == Done)
  }

  /** The part that a refresh and a re-probe share, under the lock. */
  predicate ProbingFlows(here: PC, next: PC) {
    match here
    case Parsing => next == ProberWait || next == Unlocking
    case ProberWait => next == ProberStarting || next == Unlocking
    case ProberStarting => next == Probing || next == Unlocking
    case Probing => next == Publishing || next == Stopping
    case Publishing => next == Stopping
    case Stopping => next == Unlocking
    case _ => here == Unlocking && next == Done
  }

  /** Some choice leads from the place of the task to this one. */
  predicate LeadsTo(t: Task, next: PC) { exists c :: Leads(t, c, next) }

  predicate Leads(t: Task, c: Choice, next: PC) {
    Program(t, c).Some? && Program(t, c).value.next == next
  }

  lemma StepFlows(t: Task, c: Choice)
    requires WellPlaced(t) && Program(t, c).Some?
    ensures Flows(t.kind, t.pc, Program(t, c).value.next)
  {}

  /** Anywhere at a fetch gateway, and anywhere at an exit prober. */
  predicate AtGateway(pc: PC) { pc == GatewayWait || pc == GatewayStarting || pc == GatewayOpen }

  predicate AtProber(pc: PC) { pc == ProberWait || pc == ProberStarting || pc == Probing }

  lemma GatewayFlowLeads(t: Task, next: PC)
    requires WellPlaced(t) && Flows(t.kind, t.pc, next) && AtGateway(t.pc)
    ensures Leads(t, Go, next) || Leads(t, Out, next) || Leads(t, Cancel, next)
  {}

  lemma ProberFlowLeads(t: Task, next: PC)
    requires WellPlaced(t) && Flows(t.kind, t.pc, next) && AtProber(t.pc)
    ensures Leads(t, Go, next) || Leads(t, Out, next) || Leads(t, Cancel, next)
  {}

  lemma OtherFlowLeads(t: Task, next: PC)
    requires WellPlaced(t) && Flows(t.kind, t.pc, next) && !AtGateway(t.pc) && !AtProber(t.pc)
    ensures Leads(t, Go, next) || Leads(t, Out, next) || Leads(t, Skip, next)
  {}

  /** The one program text does for every kind of task exactly what its flow says. */
  lemma ProgramFlows(t: Task, next: PC)
    requires WellPlaced(t)
    ensures LeadsTo(t, next) <==> Flows(t.kind, t.pc, next)
  {
    forall c | Program(t, c).Some? ensures Flows(t.kind, t.pc, Program(t, c).value.next) { StepFlows(t, c); }
    if Flows(t.kind, t.pc, next) {
      if AtGateway(t.pc) {
        GatewayFlowLeads(t, next);
      } else if AtProber(t.pc) {
        ProberFlowLeads(t, next);
      } else {
        OtherFlowLeads(t, next);
      }
    }
  }

  /** Where an ordinary step goes where there is a choice: on to the gateway, on to the prober,
      and to publishing once the probes are in; an enrichment batch keeps its gateway open
      while it looks up, and drops it at once only if it is of no use. A wait can be
      cancelled only where the slot is awaited. */
  lemma OrdinaryStep(t: Task)
    requires WellPlaced(t)
    ensures (t.kind == Enrich && t.pc == Begin) || t.pc == Fetching ==> Leads(t, Go, GatewayWait)
    ensures t.pc == GatewayWait ==> Leads(t, Go, GatewayStarting)
    ensures t.pc == GatewayStarting ==> Leads(t, Go, GatewayOpen)
    ensures (t.kind == Service && t.pc == Begin) || t.pc == Parsing ==> Leads(t, Go, ProberWait)
    ensures t.pc == ProberWait ==> Leads(t, Go, ProberStarting)
    ensures t.pc == ProberStarting ==> Leads(t, Go, Probing)
    ensures t.pc == Probing && t.kind != Service ==> Leads(t, Go, Publishing)
    ensures t.pc == GatewayOpen && t.kind == Enrich ==>
              && Program(t, Go).Some? && Moved(t, Program(t, Go).value).gateway
              && Program(t, Out).Some? && !Moved(t, Program(t, Out).value).gateway
    ensures Program(t, Cancel).Some? <==> t.pc == GatewayWait || t.pc == ProberWait
  {}

  // ---------------------------------------------------------------- invariant

  predicate HoldsSlot(t: Task) {
    t.pc.GatewayStarting? || t.pc.ProberStarting? || t.gateway || t.prober
  }

  predicate HoldsLock(t: Task) {
    match t.kind
    case Refresh => !t.pc.Begin? && !t.pc.Done?
    case Reprobe => !t.pc.Begin? && !t.pc.Done?
    case Service => false
    case Enrich => t.pc.Publishing? || t.pc.Unlocking?
  }

  /** The points a task of each kind can be at, and its flags there. */
  predicate WellPlaced(t: Task) {
    && (t.prober <==> !t.kind.Enrich? && (t.pc.Probing? || t.pc.Publishing? || t.pc.Stopping?))
    && (t.gateway <==> t.pc.GatewayOpen? || (t.cleanup && (t.pc.Looking? || t.pc.Closing?)))
    && (t.cleanup ==> t.kind.Enrich? && !(t.pc.Begin? || t.pc.GatewayWait? || t.pc.GatewayStarting? || t.pc.GatewayOpen?))
    && (match t.kind
        case Refresh => !(t.pc.Looking? || t.pc.Closing? || t.pc.LockWait? || t.pc.Cleaning?)
        case Reprobe => !(t.pc.Fetching? || t.pc.GatewayWait? || t.pc.GatewayStarting? || t.pc.GatewayOpen?
                          || t.pc.Looking? || t.pc.Closing? || t.pc.LockWait? || t.pc.Cleaning?)
        case Service => t.pc.Begin? || t.pc.ProberWait? || t.pc.ProberStarting? || t.pc.Probing? || t.pc.Stopping? || t.pc.Done?
        case Enrich => !(t.pc.Fetching? || t.pc.Parsing? || t.pc.ProberWait? || t.pc.ProberStarting? || t.pc.Probing? || t.pc.Stopping?))
  }

  function Holders(tasks: seq<Task>): nat {
    if tasks == [] then 0
    else Holders(tasks[..|tasks|-1]) + if HoldsSlot(tasks[|tasks|-1]) then 1 else 0
  }

  /** Free tokens plus slot holders is 1, and the lock is taken exactly by the task whose
      code is between its lock and its unlock. */
  predicate Inv(s: System) {
    && s.free + Holders(s.tasks) == 1
    && (forall i :: 0 <= i < |s.tasks| ==> WellPlaced(s.tasks[i]))
    && (forall i :: 0 <= i < |s.tasks| ==> (HoldsLock(s.tasks[i]) <==> s.lock == Some(i)))
    && (s.lock.Some? ==> s.lock.value < |s.tasks|)
  }

  lemma {:induction false} HoldersUpdate(tasks: seq<Task>, i: nat, t: Task)
    requires i < |tasks|
    ensures Holders(tasks[i := t]) + (if HoldsSlot(tasks[i]) then 1 else 0) == Holders(tasks) + if HoldsSlot(t) then 1 else 0
  {
    var n := |tasks| - 1;
    if i == n {
      assert tasks[i := t][..n] == tasks[..n];
    } else {
      assert tasks[i := t][..n] == tasks[..n][i := t];
      HoldersUpdate(tasks[..n], i, t);
    }
  }

  lemma {:induction false} HoldersPositive(tasks: seq<Task>, i: nat)
    requires i < |tasks| && HoldsSlot(tasks[i])
    ensures Holders(tasks) >= 1
    ensures forall j :: 0 <= j < |tasks| && j != i && HoldsSlot(tasks[j]) ==> Holders(tasks) >= 2
  {
    var idle := tasks[i].(pc := Done, gateway := false, prober := false);
    HoldersUpdate(tasks, i, idle);
    forall j | 0 <= j < |tasks| && j != i && HoldsSlot(tasks[j]) ensures Holders(tasks) >= 2 {
      HoldersUpdate(tasks[i := idle], j, idle);
    }
  }

  lemma {:induction false} SomeHolder(tasks: seq<Task>) returns (i: nat)
    requires Holders(tasks) >= 1
    ensures i < |tasks| && HoldsSlot(tasks[i])
  {
    if HoldsSlot(tasks[|tasks|-1]) {
      i := |tasks| - 1;
    } else {
      i := SomeHolder(tasks[..|tasks|-1]);
    }
  }

  /** What an action does to the task itself agrees with what it does to the lock and the
      slot, and brings the task nearer to its end. */
  predicate Sound(t: Task, a: Action) {
    var t' := Moved(t, a);
    && WellPlaced(t') && Left(t'.pc) < Left(t.pc)
    && (if a.Lock? then !HoldsLock(t) && HoldsLock(t')
        else if a.Unlock? then HoldsLock(t) && !HoldsLock(t')
        else HoldsLock(t') == HoldsLock(t))
    && (if a.Take? then !HoldsSlot(t) && HoldsSlot(t')
        else if Returns(t, a) then HoldsSlot(t) && !HoldsSlot(t')
        else HoldsSlot(t') == HoldsSlot(t))
    && (HoldsSlot(t) ==> !a.Lock? && !a.Take?)
  }

  lemma ProgramStaysPlaced(t: Task, c: Choice)
    requires WellPlaced(t) && Program(t, c).Some?
    ensures var t' := Moved(t, Program(t, c).value); WellPlaced(t') && Left(t'.pc) < Left(t.pc)
  {
    match t.kind
    case Refresh =>
    case Reprobe =>
    case Service =>
    case Enrich =>
  }

  lemma ProgramTracksLock(t: Task, c: Choice)
    requires WellPlaced(t) && Program(t, c).Some?
    ensures var a := Program(t, c).value;
            var before, after := HoldsLock(t), HoldsLock(Moved(t, a));
            if a.Lock? then !before && after else if a.Unlock? then before && !after else before == after
  {}

  lemma ProgramTracksSlot(t: Task, c: Choice)
    requires WellPlaced(t) && Program(t, c).Some?
    ensures var a := Program(t, c).value;
            var before, after := HoldsSlot(t), HoldsSlot(Moved(t, a));
            && (if a.Take? then !before && after else if Returns(t, a) then before && !after else before == after)
            && (before ==> !a.Lock? && !a.Take?)
  {}

  lemma ProgramSound(t: Task, c: Choice)
    requires WellPlaced(t)
    ensures Program(t, c).Some? ==> Sound(t, Program(t, c).value)
  {
    if Program(t, c).Some? {
      ProgramStaysPlaced(t, c);
      ProgramTracksLock(t, c);
      ProgramTracksSlot(t, c);
    }
  }

  lemma ProgramGoesOn(t: Task)
    requires WellPlaced(t) && !t.pc.Done?
    ensures Program(t, Go).Some?
  {}

  lemma PerformKeepsInv(s: System, i: nat, a: Action)
    requires Inv(s) && i < |s.tasks| && Sound(s.tasks[i], a) && Perform(s, i, a).Some?
    ensures Inv(Perform(s, i, a).value)
    ensures AllLeft(Perform(s, i, a).value.tasks) < AllLeft(s.tasks)
  {
    var t' := Moved(s.tasks[i], a);
    HoldersUpdate(s.tasks, i, t');
    AllLeftUpdate(s.tasks, i, t');
    assert HoldsLock(s.tasks[i]) <==> s.lock == Some(i);
  }

  lemma StepKeepsInv(s: System, i: nat, c: Choice)
    requires Inv(s) && i < |s.tasks| && Step(s, i, c).Some?
    ensures Inv(Step(s, i, c).value)
    ensures AllLeft(Step(s, i, c).value.tasks) < AllLeft(s.tasks)
    ensures |Step(s, i, c).value.tasks| == |s.tasks|
  {
    ProgramSound(s.tasks[i], c);
    PerformKeepsInv(s, i, Program(s.tasks[i], c).value);
  }

  lemma {:induction false} NobodyHolds(tasks: seq<Task>)
    requires forall i :: 0 <= i < |tasks| ==> !HoldsSlot(tasks[i])
    ensures Holders(tasks) == 0
  {
    if tasks != [] { NobodyHolds(tasks[..|tasks|-1]); }
  }

  /** In every interleaving of any number of tasks, with any cancelled waits and failed
      starts, free tokens plus holders is 1 and the lock has its one owner. */
  lemma {:induction false} InvAlways(kinds: seq<Kind>, moves: seq<Move>)
    requires Exec(Initial(kinds), moves).Some?
    ensures Inv(Exec(Initial(kinds), moves).value)
  {
    if moves == [] {
      NobodyHolds(Initial(kinds).tasks);
    } else {
      InvAlways(kinds, moves[..|moves|-1]);
      var m := moves[|moves|-1];
      StepKeepsInv(Exec(Initial(kinds), moves[..|moves|-1]).value, m.task, m.choice);
    }
  }

  /** At most one task at a time has a core starting or running, and at most one writes
      the runtime store and the snapshot. */
  lemma Exclusion(kinds: seq<Kind>, moves: seq<Move>, i: nat, j: nat)
    requires Exec(Initial(kinds), moves).Some?
    requires var tasks := Exec(Initial(kinds), moves).value.tasks; i < |tasks| && j < |tasks| && i != j
    ensures var tasks := Exec(Initial(kinds), moves).value.tasks;
            && !(HoldsSlot(tasks[i]) && HoldsSlot(tasks[j]))
            && !(tasks[i].pc.Publishing? && tasks[j].pc.Publishing?)
  {
    InvAlways(kinds, moves);
    var s := Exec(Initial(kinds), moves).value;
    if HoldsSlot(s.tasks[i]) { HoldersPositive(s.tasks, i); }
    assert WellPlaced(s.tasks[i]) && WellPlaced(s.tasks[j]);
    assert HoldsLock(s.tasks[i]) <==> s.lock == Some(i);
    assert HoldsLock(s.tasks[j]) <==> s.lock == Some(j);
  }

  /** A slot holder never waits: it is neither at the lock nor at the slot, and no return
      of the token can block, whichever way its code branches. The deferred second close
      of an enrichment gateway finds nothing left to return. */
  lemma HolderNeverWaits(s: System, i: nat, c: Choice)
    requires Inv(s) && i < |s.tasks|
    ensures HoldsSlot(s.tasks[i]) && Program(s.tasks[i], c).Some? ==>
              !Program(s.tasks[i], c).value.Lock? && !Program(s.tasks[i], c).value.Take?
    ensures HoldsSlot(s.tasks[i]) && Program(s.tasks[i], c).Some? ==> Step(s, i, c).Some?
    ensures s.tasks[i].pc.Cleaning? ==> !s.tasks[i].gateway
  {
    ProgramSound(s.tasks[i], c);
    if HoldsSlot(s.tasks[i]) { HoldersPositive(s.tasks, i); }
  }

  predicate Finished(s: System) {
    forall i :: 0 <= i < |s.tasks| ==> s.tasks[i].pc.Done?
  }

  /** No deadlock: while any task is unfinished, some task can take its ordinary next
      step, without any wait having to be cancelled. */
  lemma Progress(kinds: seq<Kind>, moves: seq<Move>) returns (i: nat)
    requires Exec(Initial(kinds), moves).Some? && !Finished(Exec(Initial(kinds), moves).value)
    ensures var s := Exec(Initial(kinds), moves).value; i < |s.tasks| && Step(s, i, Go).Some?
  {
    InvAlways(kinds, moves);
    var s := Exec(Initial(kinds), moves).value;
    if Holders(s.tasks) >= 1 {
      i := SomeHolder(s.tasks);
    } else if s.lock.Some? {
      i := s.lock.value;
    } else {
      i :| 0 <= i < |s.tasks| && !s.tasks[i].pc.Done?;
    }
    assert WellPlaced(s.tasks[i]) && (HoldsLock(s.tasks[i]) <==> s.lock == Some(i));
    assert !s.tasks[i].pc.Done?;
    ProgramGoesOn(s.tasks[i]);
    ProgramSound(s.tasks[i], Go);
    if HoldsSlot(s.tasks[i]) { HoldersPositive(s.tasks, i); } else { ReturnsOnlyHeld(s.tasks[i]); }
  }

  lemma ReturnsOnlyHeld(t: Task)
    requires WellPlaced(t) && !HoldsSlot(t) && Program(t, Go).Some?
    ensures !Returns(t, Program(t, Go).value)
  {}

  /** Steps a task has at most left. */
  function Left(pc: PC): nat {
    match pc
    case Begin => 15
    case Fetching => 14
    case GatewayWait => 13
    case GatewayStarting => 12
    case GatewayOpen => 11
    case Looking => 10
    case Closing => 9
    case LockWait => 8
    case Parsing => 8
    case ProberWait => 7
    case ProberStarting => 6
    case Probing => 5
    case Publishing => 4
    case Stopping => 3
    case Unlocking => 2
    case Cleaning => 1
    case Done => 0
  }

  function AllLeft(tasks: seq<Task>): nat {
    if tasks == [] then 0 else AllLeft(tasks[..|tasks|-1]) + Left(tasks[|tasks|-1].pc)
  }

  lemma {:induction false} AllLeftUpdate(tasks: seq<Task>, i: nat, t: Task)
    requires i < |tasks|
    ensures AllLeft(tasks[i := t]) + Left(tasks[i].pc) == AllLeft(tasks) + Left(t.pc)
  {
    var n := |tasks| - 1;
    if i == n {
      assert tasks[i := t][..n] == tasks[..n];
    } else {
      assert tasks[i := t][..n] == tasks[..n][i := t];
      AllLeftUpdate(tasks[..n], i, t);
    }
  }

  lemma {:induction false} AllLeftInitial(kinds: seq<Kind>)
    ensures AllLeft(Initial(kinds).tasks) == 15 * |kinds|
  {
    if kinds != [] {
      var n := |kinds| - 1;
      assert Initial(kinds).tasks[..n] == Initial(kinds[..n]).tasks;
      AllLeftInitial(kinds[..n]);
    }
  }

  lemma {:induction false} RunSpendsSteps(kinds: seq<Kind>, moves: seq<Move>)
    requires Exec(Initial(kinds), moves).Some?
    ensures |moves| + AllLeft(Exec(Initial(kinds), moves).value.tasks) <= 15 * |kinds|
    ensures |Exec(Initial(kinds), moves).value.tasks| == |kinds|
  {
    if moves == [] {
      AllLeftInitial(kinds);
    } else {
      var before := moves[..|moves|-1];
      RunSpendsSteps(kinds, before);
      InvAlways(kinds, before);
      var m := moves[|moves|-1];
      StepKeepsInv(Exec(Initial(kinds), before).value, m.task, m.choice);
    }
  }

  /** Every schedule is finite, and one that cannot be continued has finished every task,
      with the token back in the slot and the lock free. */
  lemma AllTasksFinish(kinds: seq<Kind>, moves: seq<Move>)
    requires Exec(Initial(kinds), moves).Some?
    ensures |moves| <= 15 * |kinds|
    ensures var s := Exec(Initial(kinds), moves).value;
            (forall i, c :: 0 <= i < |s.tasks| ==> Step(s, i, c).None?) ==>
              Finished(s) && s.free == 1 && s.lock == None
  {
    RunSpendsSteps(kinds, moves);
    InvAlways(kinds, moves);
    var s := Exec(Initial(kinds), moves).value;
    if forall i, c :: 0 <= i < |s.tasks| ==> Step(s, i, c).None? {
      if !Finished(s) {
        var i := Progress(kinds, moves);
        assert false;
      }
      forall i | 0 <= i < |s.tasks| ensures !HoldsSlot(s.tasks[i]) && !HoldsLock(s.tasks[i]) {
        assert s.tasks[i].pc.Done? && WellPlaced(s.tasks[i]);
      }
      NobodyHolds(s.tasks);
    }
  }

  // ---------------------------------------------------------------- agreement with the core users

  /** The exit prober of task `i`, as the object sees itself and the slot. */
  function Prober(s: System, i: nat): X.Core
    requires i < |s.tasks|
  {
    X.Core(s.free, s.tasks[i].prober, s.tasks[i].prober)
  }

  /** The fetch gateway of task `i`. */
  function Gateway(s: System, i: nat): X.Core
    requires i < |s.tasks|
  {
    X.Core(s.free, s.tasks[i].gateway, s.tasks[i].gateway)
  }

  /** The steps of the protocol are what the methods of the two objects do: closing and
      stopping in one step, starting in two, a failed start without effect. */
  lemma CoreStepsAgree(s: System, i: nat, a: Action, b: Action)
    requires i < |s.tasks| && Perform(s, i, a).Some?
    ensures var t := Perform(s, i, a).value;
            && (a.StopProber? ==> Prober(t, i) == X.Closed(Prober(s, i)))
            && (a.CloseGateway? ==> Gateway(t, i) == X.Closed(Gateway(s, i)))
    ensures var t := Perform(s, i, a).value;
            a.Take? && Perform(t, i, b).Some? ==>
              var u := Perform(t, i, b).value;
              && (b.OpenProber? && !s.tasks[i].prober ==> Prober(u, i) == X.Restarted(Prober(s, i), X.Started))
              && (b.OpenGateway? && !s.tasks[i].gateway ==> Gateway(u, i) == X.Restarted(Gateway(s, i), X.Started))
              && (b.FailStart? && !s.tasks[i].prober ==> Prober(u, i) == X.Restarted(Prober(s, i), X.Broken))
  {}
}
