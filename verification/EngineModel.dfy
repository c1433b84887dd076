/**
 * The replaceable engine's controller as a state machine. Each step is what runs between two suspension
 * points, so any sequence of steps is one interleaving of resumes, stops, shutdowns and leases.
 */
module EngineModel {
  import opened Wrappers
  import L = EngineLedger

  type Engine = L.Engine

  type LeaseId = nat

  datatype Outcome = Running(engine: Engine, generation: nat) | Inactive | Failed | Superseded

  datatype Initialization = Ready | NotActive | Raised

  /** Where one resume attempt stands; a disposal knows what initialization answered, if it was asked, and what failed. */
  datatype Phase =
    | AwaitingPredecessor(predecessor: Option<nat>)
    | AwaitingRetirement(barrier: nat)
    | Creating
    | Initializing(engine: Engine, retired: bool)
    | Disposing(engine: Engine, closing: bool, answer: Option<Initialization>, failed: bool)
    | Returned(outcome: Outcome)
    | Settled(outcome: Outcome)
  {
    predicate Busy() { Creating? || Initializing? || Disposing? }
  }

  datatype TeardownStage = WaitingForLeases | Draining | Closing | Done

  datatype Teardown = Teardown(engine: Engine, stage: TeardownStage)

  datatype Record = Record(engine: Engine, generation: nat)

  /** Who is responsible for the one engine that may exist. */
  datatype Holder = Nobody | ByAttempt(attempt: nat) | ByCurrent | ByTeardown(teardown: nat)

  /** The controller's fields, with what a proof adds: who is in charge, the unsettled attempts, and the log. */
  datatype State = State(
    current: Option<Record>, epoch: nat, closed: bool, initializing: Option<nat>, resumeAttempt: Option<nat>,
    attempts: map<nat, Phase>, teardowns: map<nat, Teardown>, retirement: nat,
    leases: map<Engine, nat>, held: map<LeaseId, Engine>, nextLease: nat, made: nat,
    holder: Holder, queue: seq<nat>, ledger: L.Ledger, log: seq<L.Event>)

  const INITIAL: State :=
    State(None, 0, false, None, None, map[], map[], 0, map[], map[], 0, 0, Nobody, [], L.Ledger(0, false, 0, None), [])

  /** Unsettled attempts queue up, each behind the one started just before it; only the first can move. */
  ghost predicate Queued(attempts: map<nat, Phase>, epoch: nat, latest: Option<nat>, queue: seq<nat>) {
    && (forall a :: a in attempts && !attempts[a].Settled? ==> a in queue)
    && (forall a :: a in attempts ==> a <= epoch)
    && (forall i :: 0 <= i < |queue| ==> Linked(attempts, queue, i))
    && (latest == if queue == [] then None else Some(queue[|queue| - 1]))
  }

  predicate Linked(attempts: map<nat, Phase>, queue: seq<nat>, i: nat)
    requires i < |queue|
  {
    && queue[i] in attempts && !attempts[queue[i]].Settled?
    && (i > 0 ==> queue[i - 1] < queue[i] && attempts[queue[i]] == AwaitingPredecessor(Some(queue[i - 1])))
  }

  lemma QueueGrows(attempts: map<nat, Phase>, epoch: nat, latest: Option<nat>, queue: seq<nat>)
    requires Queued(attempts, epoch, latest, queue)
    ensures Queued(attempts[epoch + 1 := AwaitingPredecessor(latest)], epoch + 1, Some(epoch + 1), queue + [epoch + 1])
  {
    var longer, after := queue + [epoch + 1], attempts[epoch + 1 := AwaitingPredecessor(latest)];
    assert forall a :: a in queue ==> a in longer;
    assert longer[|queue|] == epoch + 1;
    forall i | 0 <= i < |longer| ensures Linked(after, longer, i) {
      if i < |queue| { assert Linked(attempts, queue, i); }
      if i > 0 { assert Linked(attempts, queue, i - 1); }
    }
  }

  /** Only the first in the queue is past waiting, or can stop waiting. */
  lemma FirstMoves(attempts: map<nat, Phase>, epoch: nat, latest: Option<nat>, queue: seq<nat>, a: nat)
    requires Queued(attempts, epoch, latest, queue) && a in attempts && !attempts[a].Settled?
    requires attempts[a].AwaitingPredecessor? && attempts[a].predecessor.Some? ==>
               attempts[a].predecessor.value in attempts && attempts[attempts[a].predecessor.value].Settled?
    ensures queue != [] && queue[0] == a
  {
    var i :| 0 <= i < |queue| && queue[i] == a;
    var j := if i > 0 then i - 1 else 0;
    assert Linked(attempts, queue, j);
    assert Linked(attempts, queue, i);
  }

  lemma {:induction false} FirstIsUnique(attempts: map<nat, Phase>, queue: seq<nat>, i: nat)
    requires forall k :: 0 <= k < |queue| ==> Linked(attempts, queue, k)
    requires 0 < i < |queue|
    ensures queue[0] < queue[i]
  {
    assert Linked(attempts, queue, i);
    if i > 1 { FirstIsUnique(attempts, queue, i - 1); }
  }

  lemma QueueAdvances(attempts: map<nat, Phase>, epoch: nat, latest: Option<nat>, queue: seq<nat>, a: nat, phase: Phase)
    requires Queued(attempts, epoch, latest, queue) && queue != [] && queue[0] == a && !phase.Settled?
    ensures Queued(attempts[a := phase], epoch, latest, queue)
  {
    assert Linked(attempts, queue, 0);
    var after := attempts[a := phase];
    forall i | 0 <= i < |queue| ensures Linked(after, queue, i) {
      assert Linked(attempts, queue, i);
      if i > 0 { FirstIsUnique(attempts, queue, i); }
    }
  }

  lemma QueueSettles(attempts: map<nat, Phase>, epoch: nat, latest: Option<nat>, queue: seq<nat>, a: nat, outcome: Outcome)
    requires Queued(attempts, epoch, latest, queue) && queue != [] && queue[0] == a
    ensures Queued(attempts[a := Settled(outcome)], epoch, if latest == Some(a) then None else latest, queue[1..])
  {
    var after, rest := attempts[a := Settled(outcome)], queue[1..];
    assert Linked(attempts, queue, 0);
    forall i | 0 <= i < |rest| ensures Linked(after, rest, i) {
      assert Linked(attempts, queue, i + 1);
      FirstIsUnique(attempts, queue, i + 1);
      if i > 0 { FirstIsUnique(attempts, queue, i); }
    }
    if |queue| > 1 { FirstIsUnique(attempts, queue, |queue| - 1); }
    assert forall x :: x in queue && x != a ==> x in rest;
  }

  ghost predicate Held(attempts: map<nat, Phase>, current: Option<Record>, teardowns: map<nat, Teardown>, holder: Holder) {
    && (forall a :: a in attempts ==> (attempts[a].Busy() <==> holder == ByAttempt(a)))
    && (holder.ByAttempt? ==> holder.attempt in attempts)
    && (current.Some? <==> holder == ByCurrent)
    && (forall r :: r in teardowns ==> (teardowns[r].stage != Done <==> holder == ByTeardown(r)))
    && (holder.ByTeardown? ==> holder.teardown in teardowns)
  }

  /** Only the latest retirement can still be under way, and the latest attempt waits for no older one. */
  ghost predicate Barriers(attempts: map<nat, Phase>, epoch: nat, current: Option<Record>, teardowns: map<nat, Teardown>,
                           retirement: nat, initializing: Option<nat>) {
    && (forall r :: r in teardowns ==> r <= retirement && (r < retirement ==> teardowns[r].stage == Done))
    && (retirement == 0 || retirement in teardowns) && 0 !in teardowns
    && (forall a :: a in attempts && attempts[a].AwaitingRetirement? ==>
          attempts[a].barrier <= retirement && (a == epoch ==> attempts[a].barrier == retirement))
    && (current.Some? ==> current.value.generation == epoch && epoch in attempts
                          && (attempts[epoch].Returned? || attempts[epoch].Settled?))
    && (forall a :: a in attempts ==> (attempts[a].Initializing? <==> initializing == Some(a)))
    && (initializing.Some? ==> initializing.value in attempts)
    && (forall a :: a in attempts && attempts[a].Initializing? && attempts[a].retired ==> a != epoch)
  }

  /** One attempt takes or keeps charge, or hands the charge on. */
  lemma HeldMoves(attempts: map<nat, Phase>, current: Option<Record>, teardowns: map<nat, Teardown>, holder: Holder,
                  a: nat, phase: Phase, next: Option<Record>, heir: Holder)
    requires Held(attempts, current, teardowns, holder) && a in attempts
    requires holder == ByAttempt(a) || (holder == Nobody && !attempts[a].Busy())
    requires phase.Busy() <==> heir == ByAttempt(a)
    requires heir == ByAttempt(a) || heir == Nobody || heir == ByCurrent
    requires next.Some? <==> heir == ByCurrent
    ensures Held(attempts[a := phase], next, teardowns, heir)
  { }

  lemma HeldIdle(attempts: map<nat, Phase>, current: Option<Record>, teardowns: map<nat, Teardown>, holder: Holder,
                 a: nat, phase: Phase)
    requires Held(attempts, current, teardowns, holder) && !phase.Busy() && (a in attempts ==> !attempts[a].Busy())
    ensures Held(attempts[a := phase], current, teardowns, holder)
  { }

  function On(held: map<LeaseId, Engine>, e: Engine): set<LeaseId> {
    set l | l in held && held[l] == e
  }

  /** Each engine's count is the number of its unreleased leases; a torn down engine has none. */
  ghost predicate Counted(held: map<LeaseId, Engine>, leases: map<Engine, nat>, nextLease: nat) {
    && (forall e :: CountOn(leases, e) == |On(held, e)|)
    && (forall l :: l in held ==> l < nextLease)
  }

  function CountOn(leases: map<Engine, nat>, e: Engine): nat {
    if e in leases then leases[e] else 0
  }

  /** The engine in charge of the holder, and the stage the ledger must show for it. */
  function StageOf(attempts: map<nat, Phase>, current: Option<Record>, teardowns: map<nat, Teardown>,
                   leases: map<Engine, nat>, holder: Holder): Option<(Option<Engine>, L.Stage)> {
    match holder
    case Nobody => None
    case ByAttempt(a) =>
      if a !in attempts then None
      else (match attempts[a]
            case Creating => Some((None, L.Building))
            case Initializing(e, retired) => Some((Some(e), if retired then L.Retiring(0) else L.Fresh))
            case Disposing(e, closing, _, _) => Some((Some(e), if closing then L.Closing else L.Draining))
            case _ => None)
    case ByCurrent =>
      if current.None? then None
      else Some((Some(current.value.engine), L.Running(CountOn(leases, current.value.engine))))
    case ByTeardown(r) =>
      if r !in teardowns then None
      else (match teardowns[r].stage
            case WaitingForLeases => Some((Some(teardowns[r].engine), L.Retiring(CountOn(leases, teardowns[r].engine))))
            case Draining => Some((Some(teardowns[r].engine), L.Draining))
            case Closing => Some((Some(teardowns[r].engine), L.Closing))
            case Done => None)
  }

  /** The ledger read off the controller's own fields. */
  ghost predicate Recorded(ledger: L.Ledger, epoch: nat, closed: bool, made: nat, stage: Option<(Option<Engine>, L.Stage)>) {
    && ledger == L.Ledger(epoch, closed, made, if stage.None? then None else Some(stage.value.1))
    && (stage.Some? && stage.value.0.Some? ==> stage.value.0.value + 1 == made)
  }

  /** Engines other than the one in charge hold no leases. */
  ghost predicate OthersIdle(held: map<LeaseId, Engine>, stage: Option<(Option<Engine>, L.Stage)>) {
    forall l :: l in held ==> InCharge(stage, held[l])
  }

  predicate InCharge(stage: Option<(Option<Engine>, L.Stage)>, e: Engine) {
    stage.Some? && stage.value.0 == Some(e) && (stage.value.1.Running? || stage.value.1.Retiring?)
  }

  ghost predicate Tallied(leases: map<Engine, nat>, stage: Option<(Option<Engine>, L.Stage)>) {
    stage.Some? && stage.value.0.Some? && (stage.value.1.Running? || stage.value.1.Retiring?) ==>
      stage.value.1.leases == CountOn(leases, stage.value.0.value)
  }

  /** Nothing is held unless a running or retiring engine has unreleased leases. */
  lemma NothingHeld(held: map<LeaseId, Engine>, leases: map<Engine, nat>, next: nat,
                    stage: Option<(Option<Engine>, L.Stage)>, e: Engine)
    requires Counted(held, leases, next) && OthersIdle(held, stage)
    requires InCharge(stage, e) ==> CountOn(leases, e) == 0
    ensures CountOn(leases, e) == 0
    ensures InCharge(stage, e) ==> held == map[]
  {
    assert CountOn(leases, e) == |On(held, e)|;
    assert forall l :: l in held && held[l] == e ==> l in On(held, e);
    if !InCharge(stage, e) { assert On(held, e) == {}; }
  }

  lemma LeaseAdded(held: map<LeaseId, Engine>, leases: map<Engine, nat>, next: nat, e: Engine)
    requires Counted(held, leases, next)
    ensures Counted(held[next := e], leases[e := CountOn(leases, e) + 1], next + 1)
  {
    var wider, counts := held[next := e], leases[e := CountOn(leases, e) + 1];
    forall x: Engine ensures CountOn(counts, x) == |On(wider, x)| {
      assert CountOn(leases, x) == |On(held, x)|;
      assert On(wider, x) == On(held, x) + if x == e then {next} else {};
    }
  }

  lemma LeaseDropped(held: map<LeaseId, Engine>, leases: map<Engine, nat>, next: nat, l: LeaseId)
    requires Counted(held, leases, next) && l in held
    ensures CountOn(leases, held[l]) > 0
    ensures Counted(held - {l}, leases[held[l] := CountOn(leases, held[l]) - 1], next)
  {
    var e := held[l];
    assert l in On(held, e) && CountOn(leases, e) == |On(held, e)|;
    var fewer, counts := held - {l}, leases[e := CountOn(leases, e) - 1];
    forall x: Engine ensures CountOn(counts, x) == |On(fewer, x)| {
      assert CountOn(leases, x) == |On(held, x)|;
      assert On(held, x) == On(fewer, x) + if x == e then {l} else {};
    }
  }

  function OneLess(stage: Option<(Option<Engine>, L.Stage)>): Option<(Option<Engine>, L.Stage)> {
    if stage.Some? && stage.value.1.Running? && stage.value.1.leases > 0
    then Some((stage.value.0, L.Running(stage.value.1.leases - 1)))
    else if stage.Some? && stage.value.1.Retiring? && stage.value.1.leases > 0
    then Some((stage.value.0, L.Retiring(stage.value.1.leases - 1)))
    else stage
  }

  ghost function StageIn(s: State): Option<(Option<Engine>, L.Stage)> {
    StageOf(s.attempts, s.current, s.teardowns, s.leases, s.holder)
  }

  ghost predicate Structured(s: State) {
    && Queued(s.attempts, s.epoch, s.resumeAttempt, s.queue)
    && Held(s.attempts, s.current, s.teardowns, s.holder)
    && Barriers(s.attempts, s.epoch, s.current, s.teardowns, s.retirement, s.initializing)
  }

  ghost predicate Accounted(s: State) {
    Counted(s.held, s.leases, s.nextLease) && OthersIdle(s.held, StageIn(s)) && Tallied(s.leases, StageIn(s))
  }

  ghost predicate Traced(s: State) {
    Recorded(s.ledger, s.epoch, s.closed, s.made, StageIn(s))
  }

  ghost predicate Sound(s: State) {
    Structured(s) && Accounted(s) && Traced(s)
  }

  function Log(s: State, event: L.Event): State {
    s.(ledger := L.Advance(s.ledger, event), log := s.log + [event])
  }

  predicate Stale(s: State, a: nat) { s.closed || a != s.epoch }

  function Acquire(s: State): State {
    if s.current.None? then s
    else var e := s.current.value.engine;
         Log(s.(held := s.held[s.nextLease := e], leases := s.leases[e := CountOn(s.leases, e) + 1],
                nextLease := s.nextLease + 1), L.Acquired(e))
  }

  /** Releasing a lease twice does nothing. */
  function Release(s: State, l: LeaseId): State {
    if l !in s.held then s
    else var e := s.held[l]; var n := CountOn(s.leases, e);
         Log(s.(held := s.held - {l}, leases := s.leases[e := if n > 0 then n - 1 else 0]), L.Released(e))
  }

  function Resume(s: State): State {
    if s.current.Some? || s.closed || s.resumeAttempt == Some(s.epoch) then s
    else var a := s.epoch + 1;
         Log(s.(epoch := a, attempts := s.attempts[a := AwaitingPredecessor(s.resumeAttempt)], resumeAttempt := Some(a),
                queue := s.queue + [a]), L.Bumped)
  }

  /** Overtake every attempt. */
  function Supersede(s: State): State {
    Log(s.(epoch := s.epoch + 1), L.Bumped)
  }

  /** The synchronous part of a stop: supersede, detach, retire, and start tearing down. */
  function Stop(s: State): State {
    RetireCandidate(Detach(Supersede(s)))
  }

  function Detach(s: State): State {
    if s.current.None? then s
    else var e, r := s.current.value.engine, s.retirement + 1;
         var waits := CountOn(s.leases, e) > 0;
         var detached := Log(s.(current := None, retirement := r, holder := ByTeardown(r),
                                teardowns := s.teardowns[r := Teardown(e, if waits then WaitingForLeases else Draining)]),
                             L.Retired(e));
         if waits then detached else Log(detached, L.DrainStarted(e))
  }

  function RetireCandidate(s: State): State {
    if s.initializing.None? || s.initializing.value !in s.attempts then s
    else match s.attempts[s.initializing.value]
      case Initializing(e, false) =>
        Log(s.(attempts := s.attempts[s.initializing.value := Initializing(e, true)]), L.Retired(e))
      case _ => s
  }

  function Shutdown(s: State): State {
    Stop(Log(s.(closed := true), L.ShutDown))
  }

  function PredecessorSettled(s: State, a: nat): State {
    s.(attempts := s.attempts[a := AwaitingRetirement(s.retirement)])
  }

  function RetirementSettled(s: State, a: nat): State {
    if Stale(s, a) then s.(attempts := s.attempts[a := Returned(Superseded)])
    else Log(s.(attempts := s.attempts[a := Creating], holder := ByAttempt(a)), L.CreateStarted(a))
  }

  function CreationSettled(s: State, a: nat, ok: bool): State {
    if !ok then
      Log(s.(attempts := s.attempts[a := Returned(if Stale(s, a) then Superseded else Failed)], holder := Nobody),
          L.CreateFailed)
    else if Stale(s, a) then
      Dispose(Log(s.(made := s.made + 1), L.Created(s.made)), a, s.made, false, None, false)
    else
      Log(s.(attempts := s.attempts[a := Initializing(s.made, false)], initializing := Some(a), made := s.made + 1),
          L.Created(s.made))
  }

  /** Retire a candidate unless a stop already did, then start draining it. */
  function Dispose(s: State, a: nat, e: Engine, retired: bool, answer: Option<Initialization>, failed: bool): State {
    var before := if retired then s else Log(s, L.Retired(e));
    Log(before.(attempts := s.attempts[a := Disposing(e, false, answer, failed)]), L.DrainStarted(e))
  }

  /** An engine that is not published is disposed of; retiring it, unless a stop already did, may fail. */
  function InitializationSettled(s: State, a: nat, result: Initialization, retires: bool): State
    requires a in s.attempts && s.attempts[a].Initializing?
  {
    var Initializing(e, retired) := s.attempts[a];
    if result == Ready && !Stale(s, a) then
      Log(s.(current := Some(Record(e, a)), attempts := s.attempts[a := Returned(Running(e, a))],
             initializing := None, holder := ByCurrent), L.Published(e, a))
    else
      Dispose(s.(initializing := None), a, e, retired, Some(result), !retired && !retires)
  }

  function CandidateDrained(s: State, a: nat, ok: bool): State
    requires a in s.attempts && s.attempts[a].Disposing?
  {
    var Disposing(e, _, answer, failed) := s.attempts[a];
    Log(s.(attempts := s.attempts[a := Disposing(e, true, answer, failed || !ok)]), L.CloseStarted(e))
  }

  function CandidateClosed(s: State, a: nat, ok: bool): State
    requires a in s.attempts && s.attempts[a].Disposing?
  {
    var Disposing(e, _, answer, failed) := s.attempts[a];
    var outcome := if Stale(s, a) || answer == None || answer == Some(Ready) then Superseded
                   else if answer == Some(NotActive) && !failed && ok then Inactive else Failed;
    Log(s.(attempts := s.attempts[a := Returned(outcome)], holder := Nobody), L.Closed(e))
  }

  function AttemptSettled(s: State, a: nat): State
    requires a in s.attempts && s.attempts[a].Returned?
  {
    s.(attempts := s.attempts[a := Settled(s.attempts[a].outcome)],
       resumeAttempt := if s.resumeAttempt == Some(a) then None else s.resumeAttempt,
       queue := if s.queue == [] then [] else s.queue[1..])
  }

  function StageAfter(stage: TeardownStage): TeardownStage {
    match stage
    case WaitingForLeases => Draining
    case Draining => Closing
    case _ => Done
  }

  function TeardownStep(s: State, r: nat): State
    requires r in s.teardowns
  {
    var Teardown(e, stage) := s.teardowns[r];
    var next := StageAfter(stage);
    Log(s.(teardowns := s.teardowns[r := Teardown(e, next)], holder := if next == Done then Nobody else s.holder),
        match next case Draining => L.DrainStarted(e) case Closing => L.CloseStarted(e) case _ => L.Closed(e))
  }

  datatype Step =
    | DoAcquire | DoRelease(lease: LeaseId) | DoResume | DoStop | DoShutdown
    | OnPredecessor(attempt: nat) | OnRetirement(attempt: nat) | OnCreation(attempt: nat, ok: bool)
    | OnInitialization(attempt: nat, result: Initialization, retires: bool)
    | OnCandidateDrained(attempt: nat, ok: bool) | OnCandidateClosed(attempt: nat, ok: bool)
    | OnAttempt(attempt: nat) | OnTeardown(teardown: nat)

  predicate At(s: State, a: nat) { a in s.attempts }

  /** When the awaited promise of a suspended segment can have settled. */
  predicate Enabled(s: State, step: Step) {
    match step
    case OnPredecessor(a) =>
      At(s, a) && s.attempts[a].AwaitingPredecessor?
      && (match s.attempts[a].predecessor
          case None => true
          case Some(p) => At(s, p) && s.attempts[p].Settled?)
    case OnRetirement(a) =>
      At(s, a) && s.attempts[a].AwaitingRetirement?
      && (s.attempts[a].barrier in s.teardowns ==> s.teardowns[s.attempts[a].barrier].stage == Done)
    case OnCreation(a, _) => At(s, a) && s.attempts[a].Creating?
    case OnInitialization(a, _, _) => At(s, a) && s.attempts[a].Initializing?
    case OnCandidateDrained(a, _) => At(s, a) && s.attempts[a].Disposing? && !s.attempts[a].closing
    case OnCandidateClosed(a, _) => At(s, a) && s.attempts[a].Disposing? && s.attempts[a].closing
    case OnAttempt(a) => At(s, a) && s.attempts[a].Returned?
    case OnTeardown(r) =>
      r in s.teardowns && s.teardowns[r].stage != Done
      && (s.teardowns[r].stage == WaitingForLeases ==> CountOn(s.leases, s.teardowns[r].engine) == 0)
    case _ => true
  }

  function Next(s: State, step: Step): State
    requires Enabled(s, step)
  {
    match step
    case DoAcquire => Acquire(s)
    case DoRelease(l) => Release(s, l)
    case DoResume => Resume(s)
    case DoStop => Stop(s)
    case DoShutdown => Shutdown(s)
    case OnPredecessor(a) => PredecessorSettled(s, a)
    case OnRetirement(a) => RetirementSettled(s, a)
    case OnCreation(a, ok) => CreationSettled(s, a, ok)
    case OnInitialization(a, result, retires) => InitializationSettled(s, a, result, retires)
    case OnCandidateDrained(a, ok) => CandidateDrained(s, a, ok)
    case OnCandidateClosed(a, ok) => CandidateClosed(s, a, ok)
    case OnAttempt(a) => AttemptSettled(s, a)
    case OnTeardown(r) => TeardownStep(s, r)
  }

  lemma AcquireKeepsAccounts(s: State)
    requires Accounted(s) && Held(s.attempts, s.current, s.teardowns, s.holder)
    ensures Accounted(Acquire(s))
  {
    if s.current.Some? { LeaseAdded(s.held, s.leases, s.nextLease, s.current.value.engine); }
  }

  lemma ReleaseKeepsAccounts(s: State, l: LeaseId)
    requires Accounted(s) && Held(s.attempts, s.current, s.teardowns, s.holder)
    ensures Accounted(Release(s, l))
  {
    if l in s.held {
      LeaseDropped(s.held, s.leases, s.nextLease, l);
      assert InCharge(StageIn(s), s.held[l]);
      assert StageIn(Release(s, l)) == OneLess(StageIn(s));
    }
  }

  lemma BarriersGrow(attempts: map<nat, Phase>, epoch: nat, teardowns: map<nat, Teardown>, retirement: nat,
                     initializing: Option<nat>, predecessor: Option<nat>)
    requires Barriers(attempts, epoch, None, teardowns, retirement, initializing)
    requires forall a :: a in attempts ==> a <= epoch
    ensures Barriers(attempts[epoch + 1 := AwaitingPredecessor(predecessor)], epoch + 1, None, teardowns, retirement, initializing)
  { }

  lemma BarriersSettle(attempts: map<nat, Phase>, epoch: nat, current: Option<Record>, teardowns: map<nat, Teardown>,
                       retirement: nat, initializing: Option<nat>, a: nat, phase: Phase)
    requires Barriers(attempts, epoch, current, teardowns, retirement, initializing)
    requires a in attempts && !attempts[a].Initializing? && (phase.Returned? || phase.Settled?)
    ensures Barriers(attempts[a := phase], epoch, current, teardowns, retirement, initializing)
  { }

  lemma ResumeKeepsStructure(s: State)
    requires Structured(s)
    ensures Structured(Resume(s))
  {
    if s.current.None? && Resume(s) != s { AttemptJoins(s); }
  }

  lemma AttemptJoins(s: State)
    requires Structured(s) && s.current.None?
    ensures var a := s.epoch + 1; var attempts := s.attempts[a := AwaitingPredecessor(s.resumeAttempt)];
            && Queued(attempts, a, Some(a), s.queue + [a]) && Held(attempts, s.current, s.teardowns, s.holder)
            && Barriers(attempts, a, s.current, s.teardowns, s.retirement, s.initializing)
  {
    BarriersGrow(s.attempts, s.epoch, s.teardowns, s.retirement, s.initializing, s.resumeAttempt);
    QueueGrows(s.attempts, s.epoch, s.resumeAttempt, s.queue);
    HeldIdle(s.attempts, s.current, s.teardowns, s.holder, s.epoch + 1, AwaitingPredecessor(s.resumeAttempt));
  }

  /** Steps that leave the engine in charge and its leases alone. */
  lemma IdleKeepsAccounts(s: State, a: nat, phase: Phase)
    requires Accounted(s) && !phase.Busy() && (a in s.attempts ==> !s.attempts[a].Busy())
    ensures StageOf(s.attempts[a := phase], s.current, s.teardowns, s.leases, s.holder) == StageIn(s)
  { }

  lemma PredecessorKeepsStructure(s: State, a: nat)
    requires Structured(s) && Enabled(s, OnPredecessor(a))
    ensures Structured(PredecessorSettled(s, a))
  {
    FirstMoves(s.attempts, s.epoch, s.resumeAttempt, s.queue, a);
    QueueAdvances(s.attempts, s.epoch, s.resumeAttempt, s.queue, a, AwaitingRetirement(s.retirement));
    HeldIdle(s.attempts, s.current, s.teardowns, s.holder, a, AwaitingRetirement(s.retirement));
  }

  lemma RetirementKeepsStructure(s: State, a: nat)
    requires Structured(s) && Enabled(s, OnRetirement(a))
    ensures Structured(RetirementSettled(s, a))
  {
    FirstMoves(s.attempts, s.epoch, s.resumeAttempt, s.queue, a);
    if Stale(s, a) {
      QueueAdvances(s.attempts, s.epoch, s.resumeAttempt, s.queue, a, Returned(Superseded));
      HeldIdle(s.attempts, s.current, s.teardowns, s.holder, a, Returned(Superseded));
    } else {
      QueueAdvances(s.attempts, s.epoch, s.resumeAttempt, s.queue, a, Creating);
      NobodyElse(s, a);
      HeldMoves(s.attempts, s.current, s.teardowns, s.holder, a, Creating, None, ByAttempt(a));
    }
  }

  /** The latest attempt, once its predecessor and the retirement have settled, finds no engine in charge. */
  lemma NobodyElse(s: State, a: nat)
    requires Structured(s) && Enabled(s, OnRetirement(a)) && !Stale(s, a)
    ensures s.holder == Nobody && s.current == None
  {
    FirstMoves(s.attempts, s.epoch, s.resumeAttempt, s.queue, a);
    if s.holder.ByAttempt? {
      FirstMoves(s.attempts, s.epoch, s.resumeAttempt, s.queue, s.holder.attempt);
    }
  }

  lemma ResumeKeepsAccounts(s: State)
    requires Accounted(s) && s.epoch + 1 !in s.attempts
    ensures Accounted(Resume(s))
  {
    IdleKeepsAccounts(s, s.epoch + 1, AwaitingPredecessor(s.resumeAttempt));
  }

  lemma PredecessorKeepsAccounts(s: State, a: nat)
    requires Accounted(s) && Enabled(s, OnPredecessor(a))
    ensures Accounted(PredecessorSettled(s, a))
  {
    IdleKeepsAccounts(s, a, AwaitingRetirement(s.retirement));
  }

  lemma RetirementKeepsAccounts(s: State, a: nat)
    requires Accounted(s) && Enabled(s, OnRetirement(a)) && (!Stale(s, a) ==> s.holder == Nobody)
    ensures Accounted(RetirementSettled(s, a))
  {
    if Stale(s, a) { IdleKeepsAccounts(s, a, Returned(Superseded)); }
  }

  /** The attempt in charge is the first in the queue. */
  lemma BusyIsFirst(s: State, a: nat)
    requires Structured(s) && a in s.attempts && s.attempts[a].Busy()
    ensures s.queue != [] && s.queue[0] == a && s.holder == ByAttempt(a) && s.current == None
  {
    FirstMoves(s.attempts, s.epoch, s.resumeAttempt, s.queue, a);
  }

  /** The attempt in charge keeps or hands on the charge. */
  lemma BusyMoves(s: State, a: nat, phase: Phase, next: Option<Record>, heir: Holder, initializing: Option<nat>)
    requires Structured(s) && a in s.attempts && s.attempts[a].Busy()
    requires phase.Busy() || phase.Returned?
    requires heir == if phase.Busy() then ByAttempt(a) else if next.Some? then ByCurrent else Nobody
    requires next.Some? ==> !phase.Busy() && next.value.generation == a == s.epoch
    requires initializing == if phase.Initializing? then Some(a) else None
    requires phase.Initializing? && phase.retired ==> a != s.epoch
    ensures Queued(s.attempts[a := phase], s.epoch, s.resumeAttempt, s.queue)
    ensures Held(s.attempts[a := phase], next, s.teardowns, heir)
    ensures Barriers(s.attempts[a := phase], s.epoch, next, s.teardowns, s.retirement, initializing)
  {
    BusyIsFirst(s, a);
    QueueAdvances(s.attempts, s.epoch, s.resumeAttempt, s.queue, a, phase);
    HeldMoves(s.attempts, s.current, s.teardowns, s.holder, a, phase, next, heir);
  }

  lemma CreationKeepsStructure(s: State, a: nat, ok: bool)
    requires Structured(s) && Enabled(s, OnCreation(a, ok))
    ensures Structured(CreationSettled(s, a, ok))
  {
    BusyIsFirst(s, a);
    if !ok {
      BusyMoves(s, a, Returned(if Stale(s, a) then Superseded else Failed), None, Nobody, None);
    } else if Stale(s, a) {
      BusyMoves(s, a, Disposing(s.made, false, None, false), None, ByAttempt(a), None);
    } else {
      BusyMoves(s, a, Initializing(s.made, false), None, ByAttempt(a), Some(a));
    }
  }

  lemma CreationKeepsAccounts(s: State, a: nat, ok: bool)
    requires Accounted(s) && Enabled(s, OnCreation(a, ok)) && s.holder == ByAttempt(a)
    ensures Accounted(CreationSettled(s, a, ok))
  {
    assert StageIn(s) == Some((None, L.Building));
    NothingHeld(s.held, s.leases, s.nextLease, StageIn(s), s.made);
  }

  lemma DisposeKeepsStructure(s: State, a: nat, answer: Option<Initialization>, failed: bool)
    requires Structured(s) && a in s.attempts && s.attempts[a].Initializing?
    ensures Structured(Dispose(s.(initializing := None), a, s.attempts[a].engine, s.attempts[a].retired, answer, failed))
  {
    BusyIsFirst(s, a);
    BusyMoves(s, a, Disposing(s.attempts[a].engine, false, answer, failed), None, ByAttempt(a), None);
  }

  lemma DisposeKeepsAccounts(s: State, a: nat, answer: Option<Initialization>, failed: bool)
    requires Accounted(s) && a in s.attempts && s.attempts[a].Initializing? && s.holder == ByAttempt(a)
    ensures Accounted(Dispose(s.(initializing := None), a, s.attempts[a].engine, s.attempts[a].retired, answer, failed))
  {
    CandidateHoldsNothing(s, a);
  }

  /** An engine that was never published has no leases. */
  lemma CandidateHoldsNothing(s: State, a: nat)
    requires Accounted(s) && a in s.attempts && s.attempts[a].Initializing? && s.holder == ByAttempt(a)
    ensures s.held == map[] && CountOn(s.leases, s.attempts[a].engine) == 0
  {
    NothingHeld(s.held, s.leases, s.nextLease, StageIn(s), s.attempts[a].engine);
    assert forall l :: l in s.held ==> InCharge(StageIn(s), s.held[l]);
  }

  lemma InitializationKeepsStructure(s: State, a: nat, result: Initialization, retires: bool)
    requires Structured(s) && Enabled(s, OnInitialization(a, result, retires))
    ensures Structured(InitializationSettled(s, a, result, retires))
  {
    var Initializing(e, retired) := s.attempts[a];
    if result == Ready && !Stale(s, a) {
      BusyIsFirst(s, a);
      BusyMoves(s, a, Returned(Running(e, a)), Some(Record(e, a)), ByCurrent, None);
    } else {
      DisposeKeepsStructure(s, a, Some(result), !retired && !retires);
    }
  }

  lemma InitializationKeepsAccounts(s: State, a: nat, result: Initialization, retires: bool)
    requires Accounted(s) && Enabled(s, OnInitialization(a, result, retires)) && s.holder == ByAttempt(a)
    requires s.attempts[a].retired ==> a != s.epoch
    ensures Accounted(InitializationSettled(s, a, result, retires))
  {
    if result == Ready && !Stale(s, a) {
      CandidateHoldsNothing(s, a);
    } else {
      DisposeKeepsAccounts(s, a, Some(result), !s.attempts[a].retired && !retires);
    }
  }

  lemma CandidateKeepsStructure(s: State, a: nat, ok: bool)
    requires Structured(s) && a in s.attempts && s.attempts[a].Disposing?
    ensures Structured(CandidateDrained(s, a, ok)) && Structured(CandidateClosed(s, a, ok))
  {
    BusyIsFirst(s, a);
    BusyMoves(s, a, CandidateDrained(s, a, ok).attempts[a], None, ByAttempt(a), None);
    BusyMoves(s, a, CandidateClosed(s, a, ok).attempts[a], None, Nobody, None);
  }

  lemma CandidateKeepsAccounts(s: State, a: nat, ok: bool)
    requires Accounted(s) && a in s.attempts && s.attempts[a].Disposing? && s.holder == ByAttempt(a)
    ensures !s.attempts[a].closing ==> Accounted(CandidateDrained(s, a, ok))
    ensures s.attempts[a].closing ==> Accounted(CandidateClosed(s, a, ok))
  { }

  lemma AttemptKeepsStructure(s: State, a: nat)
    requires Structured(s) && Enabled(s, OnAttempt(a))
    ensures Structured(AttemptSettled(s, a))
  {
    FirstMoves(s.attempts, s.epoch, s.resumeAttempt, s.queue, a);
    QueueSettles(s.attempts, s.epoch, s.resumeAttempt, s.queue, a, s.attempts[a].outcome);
    BarriersSettle(s.attempts, s.epoch, s.current, s.teardowns, s.retirement, s.initializing, a, Settled(s.attempts[a].outcome));
    HeldIdle(s.attempts, s.current, s.teardowns, s.holder, a, Settled(s.attempts[a].outcome));
  }

  lemma AttemptKeepsAccounts(s: State, a: nat)
    requires Accounted(s) && Enabled(s, OnAttempt(a))
    ensures Accounted(AttemptSettled(s, a))
  {
    IdleKeepsAccounts(s, a, Settled(s.attempts[a].outcome));
  }

  lemma TeardownKeepsStructure(s: State, r: nat)
    requires Structured(s) && Enabled(s, OnTeardown(r))
    ensures Structured(TeardownStep(s, r))
  {
    TeardownMoves(s, r, TeardownStep(s, r).teardowns[r]);
  }

  lemma TeardownMoves(s: State, r: nat, next: Teardown)
    requires Structured(s) && r in s.teardowns && s.teardowns[r].stage != Done
    ensures var heir := if next.stage == Done then Nobody else s.holder;
            Held(s.attempts, s.current, s.teardowns[r := next], heir) && s.holder == ByTeardown(r)
    ensures Barriers(s.attempts, s.epoch, s.current, s.teardowns[r := next], s.retirement, s.initializing)
  { }

  lemma TeardownKeepsAccounts(s: State, r: nat)
    requires Accounted(s) && Enabled(s, OnTeardown(r)) && s.holder == ByTeardown(r)
    ensures Accounted(TeardownStep(s, r))
  {
    NothingHeld(s.held, s.leases, s.nextLease, StageIn(s), s.teardowns[r].engine);
  }

  lemma SupersedeKeepsStructure(s: State)
    requires Structured(s) && s.current == None
    ensures Structured(Supersede(s))
  { }

  lemma DetachKeepsStructure(s: State)
    requires Structured(s)
    ensures var t := Detach(Supersede(s)); Structured(t) && t.current == None && t.epoch == s.epoch + 1
  {
    if s.current == None {
      SupersedeKeepsStructure(s);
    } else {
      DetachMoves(s);
    }
  }

  lemma DetachMoves(s: State)
    requires Structured(s) && s.current.Some?
    ensures Structured(Detach(Supersede(s)))
  {
    var t := Detach(Supersede(s));
    DetachedFields(s);
    CurrentLeaves(s, t.teardowns[t.retirement]);
  }

  /** What a superseding detach leaves in the fields that its structure is about. */
  lemma DetachedFields(s: State)
    requires s.current.Some?
    ensures var t, r := Detach(Supersede(s)), s.retirement + 1;
            && t.epoch == s.epoch + 1 && t.current == None && t.retirement == r && t.holder == ByTeardown(r)
            && t.attempts == s.attempts && t.initializing == s.initializing && t.resumeAttempt == s.resumeAttempt
            && t.queue == s.queue
            && r in t.teardowns && t.teardowns == s.teardowns[r := t.teardowns[r]] && t.teardowns[r].stage != Done
  { }

  lemma CurrentLeaves(s: State, next: Teardown)
    requires Structured(s) && s.current.Some? && next.stage != Done
    ensures var r := s.retirement + 1; var teardowns := s.teardowns[r := next];
            && Queued(s.attempts, s.epoch + 1, s.resumeAttempt, s.queue) && Held(s.attempts, None, teardowns, ByTeardown(r))
            && Barriers(s.attempts, s.epoch + 1, None, teardowns, r, s.initializing)
  {
    var r := s.retirement + 1;
    DetachHeld(s.attempts, s.current, s.teardowns, s.holder, r, next);
    DetachBarriers(s.attempts, s.epoch, s.current, s.teardowns, s.retirement, s.initializing, next);
    QueueAges(s.attempts, s.epoch, s.resumeAttempt, s.queue);
  }

  lemma QueueAges(attempts: map<nat, Phase>, epoch: nat, latest: Option<nat>, queue: seq<nat>)
    requires Queued(attempts, epoch, latest, queue)
    ensures Queued(attempts, epoch + 1, latest, queue)
  { }

  lemma DetachHeld(attempts: map<nat, Phase>, current: Option<Record>, teardowns: map<nat, Teardown>, holder: Holder,
                   r: nat, next: Teardown)
    requires Held(attempts, current, teardowns, holder) && current.Some? && r !in teardowns && next.stage != Done
    ensures Held(attempts, None, teardowns[r := next], ByTeardown(r))
  { }

  lemma DetachBarriers(attempts: map<nat, Phase>, epoch: nat, current: Option<Record>, teardowns: map<nat, Teardown>,
                       retirement: nat, initializing: Option<nat>, next: Teardown)
    requires Barriers(attempts, epoch, current, teardowns, retirement, initializing)
    requires (forall a :: a in attempts ==> a <= epoch) && forall r :: r in teardowns ==> teardowns[r].stage == Done
    requires forall a :: a in attempts ==> !attempts[a].Initializing?
    ensures Barriers(attempts, epoch + 1, None, teardowns[retirement + 1 := next], retirement + 1, initializing)
  { }

  lemma RetireCandidateKeepsStructure(s: State)
    requires Structured(s) && (s.initializing.Some? ==> s.initializing.value != s.epoch)
    ensures Structured(RetireCandidate(s))
  {
    if s.initializing.Some? {
      var a := s.initializing.value;
      if !s.attempts[a].retired {
        BusyMoves(s, a, Initializing(s.attempts[a].engine, true), None, ByAttempt(a), Some(a));
        BusyIsFirst(s, a);
      }
    }
  }

  lemma DetachLeavesAttempts(s: State)
    ensures var t := Detach(Supersede(s)); t.initializing == s.initializing && t.attempts == s.attempts
  { }

  lemma CandidateIsNotLater(s: State)
    requires Structured(s) && s.initializing.Some?
    ensures s.initializing.value <= s.epoch
  { }

  lemma StopKeepsStructure(s: State)
    requires Structured(s)
    ensures Structured(Stop(s))
  {
    DetachKeepsStructure(s);
    DetachLeavesAttempts(s);
    if s.initializing.Some? { CandidateIsNotLater(s); }
    RetireCandidateKeepsStructure(Detach(Supersede(s)));
  }

  lemma DetachKeepsAccounts(s: State)
    requires Accounted(s) && (s.current.Some? <==> s.holder == ByCurrent)
    ensures Accounted(Detach(s))
  {
    if s.current.Some? { NothingHeldOrWaiting(s); }
  }

  lemma NothingHeldOrWaiting(s: State)
    requires Accounted(s) && s.current.Some? && s.holder == ByCurrent
    ensures CountOn(s.leases, s.current.value.engine) == 0 ==> s.held == map[]
  {
    if CountOn(s.leases, s.current.value.engine) == 0 {
      NothingHeld(s.held, s.leases, s.nextLease, StageIn(s), s.current.value.engine);
    }
  }

  lemma RetireCandidateKeepsAccounts(s: State)
    requires Accounted(s)
    requires s.initializing.Some? ==> At(s, s.initializing.value) && s.attempts[s.initializing.value].Initializing?
                                      && s.holder == ByAttempt(s.initializing.value)
    ensures Accounted(RetireCandidate(s))
  {
    if s.initializing.Some? { CandidateHoldsNothing(s, s.initializing.value); }
  }

  lemma StopKeepsAccounts(s: State)
    requires Structured(s) && Accounted(s)
    ensures Accounted(Stop(s))
  {
    var t := Supersede(s);
    assert Accounted(t) by { assert StageIn(t) == StageIn(s); }
    DetachKeepsAccounts(t);
    if s.initializing.Some? {
      BusyIsFirst(s, s.initializing.value);
      assert Detach(t) == t;
    }
    RetireCandidateKeepsAccounts(Detach(t));
  }

  lemma ShutdownKeeps(s: State)
    requires Structured(s) && Accounted(s)
    ensures Structured(Shutdown(s)) && Accounted(Shutdown(s))
  {
    var t := Log(s.(closed := true), L.ShutDown);
    assert Structured(t);
    assert Accounted(t) by { assert StageIn(t) == StageIn(s); }
    StopKeepsStructure(t);
    StopKeepsAccounts(t);
  }

  lemma AcquireTraced(s: State)
    requires Traced(s) && (s.current.Some? ==> s.holder == ByCurrent)
    ensures Traced(Acquire(s))
  { }

  lemma ReleaseTraced(s: State, l: LeaseId)
    requires Traced(s) && Accounted(s)
    ensures Traced(Release(s, l))
  {
    if l in s.held {
      LeaseDropped(s.held, s.leases, s.nextLease, l);
      assert InCharge(StageIn(s), s.held[l]);
      ReleasedStage(s, l);
    }
  }

  lemma ReleasedStage(s: State, l: LeaseId)
    requires l in s.held && InCharge(StageIn(s), s.held[l]) && Tallied(s.leases, StageIn(s)) && CountOn(s.leases, s.held[l]) > 0
    ensures StageIn(Release(s, l)) == OneLess(StageIn(s))
  { }

  lemma IdleTraced(s: State, a: nat, phase: Phase)
    requires Traced(s) && !phase.Busy() && (a in s.attempts ==> !s.attempts[a].Busy())
    ensures Traced(s.(attempts := s.attempts[a := phase]))
  { }

  lemma ResumeTraced(s: State)
    requires Traced(s) && s.epoch + 1 !in s.attempts
    ensures Traced(Resume(s))
  { }

  lemma RetirementTraced(s: State, a: nat)
    requires Traced(s) && Enabled(s, OnRetirement(a)) && (!Stale(s, a) ==> s.holder == Nobody)
    ensures Traced(RetirementSettled(s, a))
  { }

  /** A candidate that is fresh, or retired by a stop, is retired at most once more and then drains. */
  lemma DisposeTraced(s: State, a: nat, e: Engine, retired: bool, answer: Option<Initialization>, failed: bool)
    requires s.holder == ByAttempt(a)
    requires Recorded(s.ledger, s.epoch, s.closed, s.made, Some((Some(e), if retired then L.Retiring(0) else L.Fresh)))
    ensures Traced(Dispose(s, a, e, retired, answer, failed))
  { }

  lemma MadeTraced(s: State, a: nat)
    requires s.holder == ByAttempt(a) && Recorded(s.ledger, s.epoch, s.closed, s.made, Some((None, L.Building)))
    ensures Traced(Log(s.(attempts := s.attempts[a := Initializing(s.made, false)], initializing := Some(a), made := s.made + 1),
                       L.Created(s.made)))
    ensures Traced(Dispose(Log(s.(made := s.made + 1), L.Created(s.made)), a, s.made, false, None, false))
  {
    DisposeTraced(Log(s.(made := s.made + 1), L.Created(s.made)), a, s.made, false, None, false);
  }

  lemma CreationTraced(s: State, a: nat, ok: bool)
    requires Traced(s) && Enabled(s, OnCreation(a, ok)) && s.holder == ByAttempt(a)
    ensures Traced(CreationSettled(s, a, ok))
  {
    if ok { MadeTraced(s, a); }
  }

  lemma PublicationTraced(s: State, a: nat, e: Engine)
    requires !Stale(s, a) && CountOn(s.leases, e) == 0
    requires Recorded(s.ledger, s.epoch, s.closed, s.made, Some((Some(e), L.Fresh)))
    ensures Traced(Log(s.(current := Some(Record(e, a)), attempts := s.attempts[a := Returned(Running(e, a))],
                          initializing := None, holder := ByCurrent), L.Published(e, a)))
  { }

  lemma InitializationTraced(s: State, a: nat, result: Initialization, retires: bool)
    requires Traced(s) && Enabled(s, OnInitialization(a, result, retires)) && s.holder == ByAttempt(a)
    requires s.attempts[a].retired ==> a != s.epoch
    requires CountOn(s.leases, s.attempts[a].engine) == 0
    ensures Traced(InitializationSettled(s, a, result, retires))
  {
    var Initializing(e, retired) := s.attempts[a];
    if result == Ready && !Stale(s, a) {
      PublicationTraced(s, a, e);
    } else {
      DisposeTraced(s.(initializing := None), a, e, retired, Some(result), !retired && !retires);
    }
  }

  lemma CandidateTraced(s: State, a: nat, ok: bool)
    requires Traced(s) && a in s.attempts && s.attempts[a].Disposing? && s.holder == ByAttempt(a)
    ensures !s.attempts[a].closing ==> Traced(CandidateDrained(s, a, ok))
    ensures s.attempts[a].closing ==> Traced(CandidateClosed(s, a, ok))
  { }

  lemma TeardownTraced(s: State, r: nat)
    requires Traced(s) && Enabled(s, OnTeardown(r)) && s.holder == ByTeardown(r)
    ensures Traced(TeardownStep(s, r))
  { }

  lemma SupersedeTraced(s: State)
    requires Traced(s)
    ensures Traced(Supersede(s))
  { }

  lemma DetachTraced(s: State)
    requires Traced(s) && (s.current.Some? ==> s.holder == ByCurrent)
    ensures Traced(Detach(s))
  { }

  lemma RetireCandidateTraced(s: State)
    requires Traced(s)
    requires s.initializing.Some? ==> At(s, s.initializing.value) && s.attempts[s.initializing.value].Initializing?
                                      && s.holder == ByAttempt(s.initializing.value)
    ensures Traced(RetireCandidate(s))
  { }

  lemma StopTraced(s: State)
    requires Structured(s) && Traced(s)
    ensures Traced(Stop(s))
  {
    SupersedeTraced(s);
    DetachTraced(Supersede(s));
    if s.initializing.Some? { BusyIsFirst(s, s.initializing.value); }
    RetireCandidateTraced(Detach(Supersede(s)));
  }

  lemma HostStepKeeps(s: State, step: Step)
    requires Sound(s) && (step.DoAcquire? || step.DoRelease? || step.DoResume? || step.DoStop? || step.DoShutdown?)
    ensures Sound(Next(s, step))
  {
    match step
    case DoAcquire =>
      AcquireKeepsAccounts(s);
      AcquireTraced(s);
    case DoRelease(l) =>
      ReleaseKeepsAccounts(s, l);
      ReleaseTraced(s, l);
    case DoResume =>
      ResumeKeepsStructure(s);
      ResumeKeepsAccounts(s);
      ResumeTraced(s);
    case DoStop =>
      StopKeepsStructure(s);
      StopKeepsAccounts(s);
      StopTraced(s);
    case DoShutdown =>
      ShutdownKeeps(s);
      StopTraced(Log(s.(closed := true), L.ShutDown));
  }

  lemma WaitingStepKeeps(s: State, step: Step)
    requires Sound(s) && Enabled(s, step) && (step.OnPredecessor? || step.OnRetirement? || step.OnAttempt?)
    ensures Sound(Next(s, step))
  {
    match step
    case OnPredecessor(a) =>
      PredecessorKeepsStructure(s, a);
      PredecessorKeepsAccounts(s, a);
      IdleTraced(s, a, AwaitingRetirement(s.retirement));
    case OnRetirement(a) =>
      if !Stale(s, a) { NobodyElse(s, a); }
      RetirementKeepsStructure(s, a);
      RetirementKeepsAccounts(s, a);
      RetirementTraced(s, a);
    case OnAttempt(a) =>
      AttemptKeepsStructure(s, a);
      AttemptKeepsAccounts(s, a);
      IdleTraced(s, a, Settled(s.attempts[a].outcome));
  }

  lemma TeardownStepKeeps(s: State, r: nat)
    requires Sound(s) && Enabled(s, OnTeardown(r))
    ensures Sound(TeardownStep(s, r))
  {
    TeardownMoves(s, r, s.teardowns[r]);
    TeardownKeepsStructure(s, r);
    TeardownKeepsAccounts(s, r);
    TeardownTraced(s, r);
  }

  lemma CreationStepKeeps(s: State, a: nat, ok: bool)
    requires Sound(s) && Enabled(s, OnCreation(a, ok))
    ensures Sound(CreationSettled(s, a, ok))
  {
    BusyIsFirst(s, a);
    CreationKeepsStructure(s, a, ok);
    CreationKeepsAccounts(s, a, ok);
    CreationTraced(s, a, ok);
  }

  lemma InitializationStepKeeps(s: State, a: nat, result: Initialization, retires: bool)
    requires Sound(s) && Enabled(s, OnInitialization(a, result, retires))
    ensures Sound(InitializationSettled(s, a, result, retires))
  {
    BusyIsFirst(s, a);
    CandidateHoldsNothing(s, a);
    InitializationKeepsStructure(s, a, result, retires);
    InitializationKeepsAccounts(s, a, result, retires);
    InitializationTraced(s, a, result, retires);
  }

  lemma CandidateStepKeeps(s: State, a: nat, ok: bool)
    requires Sound(s) && a in s.attempts && s.attempts[a].Disposing?
    ensures Sound(if s.attempts[a].closing then CandidateClosed(s, a, ok) else CandidateDrained(s, a, ok))
  {
    BusyIsFirst(s, a);
    CandidateKeepsStructure(s, a, ok);
    CandidateKeepsAccounts(s, a, ok);
    CandidateTraced(s, a, ok);
  }

  /** Every step keeps the whole invariant. */
  lemma StepKeepsSound(s: State, step: Step)
    requires Sound(s) && Enabled(s, step)
    ensures Sound(Next(s, step))
  {
    match step
    case DoAcquire => HostStepKeeps(s, step);
    case DoRelease(_) => HostStepKeeps(s, step);
    case DoResume => HostStepKeeps(s, step);
    case DoStop => HostStepKeeps(s, step);
    case DoShutdown => HostStepKeeps(s, step);
    case OnPredecessor(_) => WaitingStepKeeps(s, step);
    case OnRetirement(_) => WaitingStepKeeps(s, step);
    case OnAttempt(_) => WaitingStepKeeps(s, step);
    case OnTeardown(r) => TeardownStepKeeps(s, r);
    case OnCreation(a, ok) => CreationStepKeeps(s, a, ok);
    case OnInitialization(a, result, retires) => InitializationStepKeeps(s, a, result, retires);
    case OnCandidateDrained(a, ok) => CandidateStepKeeps(s, a, ok);
    case OnCandidateClosed(a, ok) => CandidateStepKeeps(s, a, ok);
  }

  /** The ledger is what replaying the log gives. */
  ghost predicate Faithful(s: State) {
    s.ledger == L.Replay(s.log)
  }

  lemma LogFaithful(s: State, event: L.Event)
    requires Faithful(s)
    ensures Faithful(Log(s, event))
  {
    L.ReplayStep(s.log, event);
  }

  lemma DetachFaithful(s: State)
    requires Faithful(s)
    ensures Faithful(Detach(s))
  {
    if s.current.Some? {
      var e := s.current.value.engine;
      LogFaithful(s, L.Retired(e));
      LogFaithful(Log(s, L.Retired(e)), L.DrainStarted(e));
    }
  }

  lemma RetireCandidateFaithful(s: State)
    requires Faithful(s)
    ensures Faithful(RetireCandidate(s))
  {
    if s.initializing.Some? && At(s, s.initializing.value) && s.attempts[s.initializing.value].Initializing? {
      LogFaithful(s, L.Retired(s.attempts[s.initializing.value].engine));
    }
  }

  lemma StopFaithful(s: State)
    requires Faithful(s)
    ensures Faithful(Stop(s))
  {
    LogFaithful(s, L.Bumped);
    DetachFaithful(Supersede(s));
    RetireCandidateFaithful(Detach(Supersede(s)));
  }

  lemma DisposeFaithful(s: State, a: nat, e: Engine, retired: bool, answer: Option<Initialization>, failed: bool)
    requires Faithful(s)
    ensures Faithful(Dispose(s, a, e, retired, answer, failed))
  {
    LogFaithful(s, L.Retired(e));
    LogFaithful(if retired then s else Log(s, L.Retired(e)), L.DrainStarted(e));
  }

  lemma CreationFaithful(s: State, a: nat, ok: bool)
    requires Faithful(s)
    ensures Faithful(CreationSettled(s, a, ok))
  {
    LogFaithful(s, L.CreateFailed);
    LogFaithful(s, L.Created(s.made));
    DisposeFaithful(Log(s.(made := s.made + 1), L.Created(s.made)), a, s.made, false, None, false);
  }

  lemma InitializationFaithful(s: State, a: nat, result: Initialization, retires: bool)
    requires Faithful(s) && Enabled(s, OnInitialization(a, result, retires))
    ensures Faithful(InitializationSettled(s, a, result, retires))
  {
    var Initializing(e, retired) := s.attempts[a];
    LogFaithful(s, L.Published(e, a));
    DisposeFaithful(s.(initializing := None), a, e, retired, Some(result), !retired && !retires);
  }

  lemma StepFaithful(s: State, step: Step)
    requires Faithful(s) && Enabled(s, step)
    ensures Faithful(Next(s, step))
  {
    match step
    case DoAcquire => if s.current.Some? { LogFaithful(s, L.Acquired(s.current.value.engine)); }
    case DoRelease(l) => if l in s.held { LogFaithful(s, L.Released(s.held[l])); }
    case DoResume => LogFaithful(s, L.Bumped);
    case DoStop => StopFaithful(s);
    case DoShutdown =>
      LogFaithful(s, L.ShutDown);
      StopFaithful(Log(s.(closed := true), L.ShutDown));
    case OnPredecessor(_) =>
    case OnRetirement(a) => LogFaithful(s, L.CreateStarted(a));
    case OnCreation(a, ok) => CreationFaithful(s, a, ok);
    case OnInitialization(a, result, retires) => InitializationFaithful(s, a, result, retires);
    case OnCandidateDrained(a, _) => LogFaithful(s, L.CloseStarted(s.attempts[a].engine));
    case OnCandidateClosed(a, _) => LogFaithful(s, L.Closed(s.attempts[a].engine));
    case OnAttempt(_) =>
    case OnTeardown(r) =>
      LogFaithful(s, L.DrainStarted(s.teardowns[r].engine));
      LogFaithful(s, L.CloseStarted(s.teardowns[r].engine));
      LogFaithful(s, L.Closed(s.teardowns[r].engine));
  }

  /** One interleaving: the state after some steps, if each was enabled when it ran. */
  function Run(steps: seq<Step>): Option<State> {
    if steps == [] then Some(INITIAL)
    else match Run(steps[..|steps| - 1])
      case None => None
      case Some(s) => if Enabled(s, steps[|steps| - 1]) then Some(Next(s, steps[|steps| - 1])) else None
  }

  lemma {:induction false} RunKeepsSound(steps: seq<Step>)
    requires Run(steps).Some?
    ensures Sound(Run(steps).value) && Faithful(Run(steps).value)
  {
    if steps != [] {
      var s := Run(steps[..|steps| - 1]).value;
      RunKeepsSound(steps[..|steps| - 1]);
      StepKeepsSound(s, steps[|steps| - 1]);
      StepFaithful(s, steps[|steps| - 1]);
    }
  }

  /**
   * Over every interleaving: each engine is retired once before it drains and closed once, an engine that
   * drains has no lease left, nothing is created while another engine exists, and only the latest attempt
   * of an open controller ever becomes current.
   */
  lemma LifecycleHolds(steps: seq<Step>, e: Engine, i: nat)
    requires Run(steps).Some? && i < |Run(steps).value.log|
    ensures var log := Run(steps).value.log;
            && L.Replay(log).Ledger? && L.Fits(L.Replay(log), L.TallyOf(log, e), e)
            && L.Replay(log[..i]).Ledger?
            && (log[i].CreateStarted? ==> L.Replay(log[..i]).alive.None?)
            && (log[i].Published? ==> log[i].attempt == multiset(log[..i])[L.Bumped] && L.ShutDown !in log[..i])
  {
    RunKeepsSound(steps);
    var log := Run(steps).value.log;
    L.EachEngineLivesOnce(log, e);
    L.OneEngineAtATime(log, i);
    L.EpochCountsBumps(log[..i]);
  }

  /** The current engine is the latest attempt's, and no engine exists outside the one in charge. */
  lemma CurrentIsLatest(steps: seq<Step>)
    requires Run(steps).Some? && Run(steps).value.current.Some?
    ensures var s := Run(steps).value;
            && s.current.value.generation == s.epoch && s.initializing.None?
            && (forall a :: a in s.attempts ==> !s.attempts[a].Busy())
            && (forall r :: r in s.teardowns ==> s.teardowns[r].stage == Done)
  {
    RunKeepsSound(steps);
  }
}
