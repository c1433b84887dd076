/** What the life cycle guarantees in every state the controller can be in, told in its own fields. */
module EngineLaws {
  import opened Wrappers
  import opened EngineModel
  import L = EngineLedger

  ghost predicate Follows(states: seq<State>, steps: seq<Step>, i: nat)
    requires i < |steps| < |states|
  {
    Enabled(states[i], steps[i]) && states[i + 1] == Next(states[i], steps[i])
  }

  ghost predicate IsTrace(states: seq<State>, steps: seq<Step>) {
    && |states| == |steps| + 1 && states[0] == INITIAL
    && (forall i :: 0 <= i < |steps| ==> Follows(states, steps, i))
  }

  /** Some interleaving of steps leads here. */
  ghost predicate Reachable(s: State) {
    exists states, steps :: IsTrace(states, steps) && states[|steps|] == s
  }

  lemma {:induction false} TraceRuns(states: seq<State>, steps: seq<Step>)
    requires IsTrace(states, steps)
    ensures Run(steps) == Some(states[|steps|])
  {
    if steps != [] {
      var n := |steps| - 1;
      var before, front := states[..n + 1], steps[..n];
      forall i | 0 <= i < n ensures Follows(before, front, i) { assert Follows(states, steps, i); }
      TraceRuns(before, front);
      assert Follows(states, steps, n);
    }
  }

  lemma InitialIsReachable()
    ensures Reachable(INITIAL)
  {
    assert IsTrace([INITIAL], []);
  }

  lemma StepIsReachable(s: State, step: Step)
    requires Reachable(s) && Enabled(s, step)
    ensures Reachable(Next(s, step))
  {
    var states, steps :| IsTrace(states, steps) && states[|steps|] == s;
    var longer, more := states + [Next(s, step)], steps + [step];
    forall i | 0 <= i < |more| ensures Follows(longer, more, i) {
      if i < |steps| { assert Follows(states, steps, i); }
    }
    assert IsTrace(longer, more) && longer[|more|] == Next(s, step);
  }

  /** Being reachable is being the end of a run. */
  lemma ReachableRuns(s: State) returns (steps: seq<Step>)
    requires Reachable(s)
    ensures Run(steps) == Some(s)
  {
    var states, taken :| IsTrace(states, taken) && states[|taken|] == s;
    TraceRuns(states, taken);
    steps := taken;
  }

  lemma {:induction false} RunsReach(steps: seq<Step>)
    requires Run(steps).Some?
    ensures Reachable(Run(steps).value)
  {
    if steps == [] {
      InitialIsReachable();
    } else {
      RunsReach(steps[..|steps| - 1]);
      StepIsReachable(Run(steps[..|steps| - 1]).value, steps[|steps| - 1]);
    }
  }

  lemma ReachableIsSound(s: State)
    requires Reachable(s)
    ensures Sound(s) && Faithful(s)
  {
    var steps := ReachableRuns(s);
    RunKeepsSound(steps);
  }

  /** Nobody but attempt `a`, if any, is creating, initializing or disposing of an engine. */
  ghost predicate OnlyAttempt(attempts: map<nat, Phase>, a: Option<nat>) {
    forall b :: b in attempts && attempts[b].Busy() ==> a == Some(b)
  }

  /** No teardown but `r`, if any, is still under way. */
  ghost predicate OnlyTeardown(teardowns: map<nat, Teardown>, r: Option<nat>) {
    forall q :: q in teardowns && teardowns[q].stage != Done ==> r == Some(q)
  }

  /** The unreleased leases are all on this engine. */
  ghost predicate LeasesOn(held: map<LeaseId, Engine>, e: Option<Engine>) {
    forall l :: l in held ==> e == Some(held[l])
  }

  /** Only the running or retiring engine in charge has leases out. */
  lemma LeasesInCharge(s: State)
    requires Sound(s)
    ensures forall l :: l in s.held ==> InCharge(StageIn(s), s.held[l])
  { }

  /** A current engine is the latest attempt's and the only one there is. */
  lemma CurrentIsAlone(s: State)
    requires Reachable(s) && s.current.Some?
    ensures s.current.value.generation == s.epoch && s.initializing.None?
    ensures OnlyAttempt(s.attempts, None) && OnlyTeardown(s.teardowns, None) && LeasesOn(s.held, Some(s.current.value.engine))
  {
    ReachableIsSound(s);
    LeasesInCharge(s);
  }

  /** An attempt that creates, initializes or disposes does so with no other engine in existence and no lease out. */
  lemma BusyIsAlone(s: State, a: nat)
    requires Reachable(s) && a in s.attempts && s.attempts[a].Busy()
    ensures s.current.None? && OnlyAttempt(s.attempts, Some(a)) && OnlyTeardown(s.teardowns, None) && s.held == map[]
    ensures s.attempts[a].Initializing? && s.attempts[a].retired ==> a != s.epoch
  {
    ReachableIsSound(s);
    BusyIsFirst(s, a);
    LeasesInCharge(s);
    if s.attempts[a].Initializing? { CandidateHoldsNothing(s, a); }
  }

  /** A teardown under way is the latest, alone, and only its own leases are still out. */
  lemma TeardownIsAlone(s: State, r: nat)
    requires Reachable(s) && r in s.teardowns && s.teardowns[r].stage != Done
    ensures r == s.retirement && s.current.None?
    ensures OnlyAttempt(s.attempts, None) && OnlyTeardown(s.teardowns, Some(r))
    ensures LeasesOn(s.held, Some(s.teardowns[r].engine))
    ensures s.teardowns[r].stage != WaitingForLeases ==> s.held == map[]
  {
    ReachableIsSound(s);
    LeasesInCharge(s);
  }

  /** A teardown moves on only once its leases are gone, with nothing else under way. */
  lemma TeardownMovesAlone(s: State, r: nat)
    requires Reachable(s) && Enabled(s, OnTeardown(r))
    ensures var t := Next(s, OnTeardown(r));
            && Reachable(t) && r == t.retirement && t.current.None? && t.held == map[] && OnlyAttempt(t.attempts, None)
            && OnlyTeardown(t.teardowns, if t.teardowns[r].stage == Done then None else Some(r))
  {
    TeardownIsAlone(s, r);
    StepIsReachable(s, OnTeardown(r));
    if s.teardowns[r].stage == WaitingForLeases { TeardownIsAlone(Next(s, OnTeardown(r)), r); }
  }

  /** Whatever creation gave, there is at most the one candidate, or no engine at all. */
  lemma CreationStaysAlone(s: State, a: nat, ok: bool)
    requires Reachable(s) && Enabled(s, OnCreation(a, ok))
    ensures var t := Next(s, OnCreation(a, ok));
            && Reachable(t) && t.current.None? && t.held == map[] && OnlyTeardown(t.teardowns, None)
            && OnlyAttempt(t.attempts, if ok then Some(a) else None)
  {
    BusyIsAlone(s, a);
    StepIsReachable(s, OnCreation(a, ok));
  }

  /** Whatever initialization gave, the engine is current, or still the attempt's to dispose of, and alone. */
  lemma InitializationStaysAlone(s: State, a: nat, result: Initialization, retires: bool)
    requires Reachable(s) && Enabled(s, OnInitialization(a, result, retires))
    ensures s.current.None? && (s.attempts[a].retired ==> a != s.epoch)
    ensures var t := Next(s, OnInitialization(a, result, retires));
            && Reachable(t) && t.held == map[] && OnlyTeardown(t.teardowns, None)
            && OnlyAttempt(t.attempts, if t.current.Some? then None else Some(a))
  {
    BusyIsAlone(s, a);
    StepIsReachable(s, OnInitialization(a, result, retires));
  }

  /** A new lease has a name no unreleased lease has, and is on the only engine there is. */
  lemma AcquiresAlone(s: State)
    requires Reachable(s)
    ensures var t := Next(s, DoAcquire);
            && Reachable(t) && s.nextLease !in s.held
            && (t.current.Some? ==>
                  && t.current.value.generation == t.epoch && LeasesOn(t.held, Some(t.current.value.engine))
                  && OnlyAttempt(t.attempts, None) && OnlyTeardown(t.teardowns, None))
  {
    ReachableIsSound(s);
    StepIsReachable(s, DoAcquire);
    if s.current.Some? { CurrentIsAlone(Next(s, DoAcquire)); }
  }

  /** A latest attempt that may create finds no engine anywhere. */
  lemma CreatesAlone(s: State, a: nat)
    requires Reachable(s) && Enabled(s, OnRetirement(a)) && !Stale(s, a)
    ensures s.current.None? && OnlyAttempt(s.attempts, None) && OnlyTeardown(s.teardowns, None) && s.held == map[]
  {
    ReachableIsSound(s);
    NobodyElse(s, a);
    LeasesInCharge(s);
  }

  // ---- What a resume answers ----

  /** Still draining as its disposal began, or further on. */
  ghost predicate DrainsOrPast(phase: Phase, answer: Option<Initialization>, failed: bool) {
    match phase
    case Disposing(_, closing, given, so) => closing || (given == answer && so == failed)
    case Returned(_) => true
    case Settled(_) => true
    case _ => false
  }

  /** Still closing as its draining ended, or over. */
  ghost predicate ClosesOrPast(phase: Phase, answer: Option<Initialization>, failed: bool) {
    match phase
    case Disposing(_, closing, given, so) => closing && given == answer && so == failed
    case Returned(_) => true
    case Settled(_) => true
    case _ => false
  }

  predicate OfHost(step: Step) {
    step.DoAcquire? || step.DoRelease? || step.DoResume? || step.DoStop? || step.DoShutdown? || step.OnTeardown?
  }

  ghost predicate KeepsPhase(s: State, t: State, a: nat) {
    a in s.attempts && a in t.attempts && t.attempts[a] == s.attempts[a]
  }

  lemma StopKeepsPhase(s: State, a: nat)
    requires a in s.attempts && !s.attempts[a].Initializing?
    ensures KeepsPhase(s, Stop(s), a)
  {
    DetachLeavesAttempts(s);
  }

  lemma HostKeepsPhase(s: State, step: Step, a: nat)
    requires Enabled(s, step) && OfHost(step) && a in s.attempts && a <= s.epoch && !s.attempts[a].Initializing?
    ensures KeepsPhase(s, Next(s, step), a)
  {
    match step
    case DoAcquire => assert KeepsPhase(s, Acquire(s), a);
    case DoRelease(l) => assert KeepsPhase(s, Release(s, l), a);
    case DoResume => assert KeepsPhase(s, Resume(s), a);
    case DoStop => StopKeepsPhase(s, a);
    case DoShutdown => StopKeepsPhase(Log(s.(closed := true), L.ShutDown), a);
    case OnTeardown(r) => assert KeepsPhase(s, TeardownStep(s, r), a);
  }

  lemma DisposeKeepsPhase(s: State, b: nat, e: Engine, retired: bool, answer: Option<Initialization>, failed: bool, a: nat)
    requires a in s.attempts && a != b
    ensures KeepsPhase(s, Dispose(s, b, e, retired, answer, failed), a)
  { }

  lemma CreationKeepsPhase(s: State, b: nat, ok: bool, a: nat)
    requires a in s.attempts && a != b
    ensures KeepsPhase(s, CreationSettled(s, b, ok), a)
  {
    DisposeKeepsPhase(Log(s.(made := s.made + 1), L.Created(s.made)), b, s.made, false, None, false, a);
  }

  lemma InitializationKeepsPhase(s: State, b: nat, result: Initialization, retires: bool, a: nat)
    requires a in s.attempts && a != b && b in s.attempts && s.attempts[b].Initializing?
    ensures KeepsPhase(s, InitializationSettled(s, b, result, retires), a)
  {
    var Initializing(e, retired) := s.attempts[b];
    DisposeKeepsPhase(s.(initializing := None), b, e, retired, Some(result), !retired && !retires, a);
  }

  lemma OtherKeepsPhase(s: State, step: Step, a: nat)
    requires Enabled(s, step) && !OfHost(step) && a in s.attempts && step.attempt != a
    ensures KeepsPhase(s, Next(s, step), a)
  {
    match step
    case OnPredecessor(b) => assert KeepsPhase(s, PredecessorSettled(s, b), a);
    case OnRetirement(b) => assert KeepsPhase(s, RetirementSettled(s, b), a);
    case OnCreation(b, ok) => CreationKeepsPhase(s, b, ok, a);
    case OnInitialization(b, result, retires) => InitializationKeepsPhase(s, b, result, retires, a);
    case OnCandidateDrained(b, ok) => assert KeepsPhase(s, CandidateDrained(s, b, ok), a);
    case OnCandidateClosed(b, ok) => assert KeepsPhase(s, CandidateClosed(s, b, ok), a);
    case OnAttempt(b) => assert KeepsPhase(s, AttemptSettled(s, b), a);
  }

  lemma OwnMovesOn(s: State, step: Step, a: nat, answer: Option<Initialization>, failed: bool)
    requires Enabled(s, step) && !OfHost(step) && a in s.attempts && step.attempt == a
    ensures DrainsOrPast(s.attempts[a], answer, failed) ==> DrainsOrPast(Next(s, step).attempts[a], answer, failed)
    ensures ClosesOrPast(s.attempts[a], answer, failed) ==> ClosesOrPast(Next(s, step).attempts[a], answer, failed)
  { }

  lemma DisposalMovesOn(s: State, step: Step, a: nat, answer: Option<Initialization>, failed: bool)
    requires Sound(s) && Enabled(s, step) && a in s.attempts && DrainsOrPast(s.attempts[a], answer, failed)
    ensures a in Next(s, step).attempts && DrainsOrPast(Next(s, step).attempts[a], answer, failed)
    ensures ClosesOrPast(s.attempts[a], answer, failed) ==> ClosesOrPast(Next(s, step).attempts[a], answer, failed)
  {
    assert a <= s.epoch;
    if OfHost(step) {
      HostKeepsPhase(s, step, a);
    } else if step.attempt != a {
      OtherKeepsPhase(s, step, a);
    } else {
      OwnMovesOn(s, step, a, answer, failed);
    }
  }

  lemma {:induction false} TraceIsSound(states: seq<State>, steps: seq<Step>, n: nat)
    requires IsTrace(states, steps) && n <= |steps|
    ensures Sound(states[n])
  {
    if n == 0 {
      RunKeepsSound([]);
    } else {
      TraceIsSound(states, steps, n - 1);
      assert Follows(states, steps, n - 1);
      StepKeepsSound(states[n - 1], steps[n - 1]);
    }
  }

  lemma {:induction false} DisposalStands(states: seq<State>, steps: seq<Step>, m: nat, n: nat, a: nat,
                                          answer: Option<Initialization>, failed: bool)
    requires IsTrace(states, steps) && m <= n <= |steps|
    requires a in states[m].attempts && DrainsOrPast(states[m].attempts[a], answer, failed)
    ensures a in states[n].attempts && DrainsOrPast(states[n].attempts[a], answer, failed)
    ensures ClosesOrPast(states[m].attempts[a], answer, failed) ==> ClosesOrPast(states[n].attempts[a], answer, failed)
    decreases n
  {
    if m < n {
      DisposalStands(states, steps, m, n - 1, a, answer, failed);
      TraceIsSound(states, steps, n - 1);
      assert Follows(states, steps, n - 1);
      DisposalMovesOn(states[n - 1], steps[n - 1], a, answer, failed);
    }
  }

  /** What a resume whose engine was disposed of answers. */
  ghost function AnswerAfter(result: Initialization, clean: bool, current: bool): Outcome {
    if !current || result == Ready then Superseded
    else if result == NotActive && clean then Inactive
    else Failed
  }

  lemma DisposeStarts(s: State, a: nat, e: Engine, retired: bool, answer: Option<Initialization>, failed: bool)
    ensures var t := Dispose(s, a, e, retired, answer, failed); a in t.attempts && DrainsOrPast(t.attempts[a], answer, failed)
  { }

  lemma InitializationStarts(states: seq<State>, steps: seq<Step>, i: nat, a: nat)
    requires IsTrace(states, steps) && i < |steps| && steps[i].OnInitialization? && steps[i].attempt == a
    ensures a in states[i].attempts && states[i].attempts[a].Initializing? && a in states[i + 1].attempts
    ensures DrainsOrPast(states[i + 1].attempts[a], Some(steps[i].result), !states[i].attempts[a].retired && !steps[i].retires)
  {
    assert Follows(states, steps, i);
    var s, step := states[i], steps[i];
    var Initializing(e, retired) := s.attempts[a];
    assert states[i + 1] == InitializationSettled(s, a, step.result, step.retires);
    DisposeStarts(s.(initializing := None), a, e, retired, Some(step.result), !retired && !step.retires);
  }

  lemma DrainingEnds(states: seq<State>, steps: seq<Step>, j: nat, a: nat, answer: Option<Initialization>, failed: bool)
    requires IsTrace(states, steps) && j < |steps| && steps[j].OnCandidateDrained? && steps[j].attempt == a
    requires a in states[j].attempts && DrainsOrPast(states[j].attempts[a], answer, failed)
    ensures a in states[j + 1].attempts && ClosesOrPast(states[j + 1].attempts[a], answer, failed || !steps[j].ok)
    ensures DrainsOrPast(states[j + 1].attempts[a], answer, failed || !steps[j].ok)
  {
    assert Follows(states, steps, j);
    assert states[j + 1] == CandidateDrained(states[j], a, steps[j].ok);
  }

  lemma ClosingEnds(states: seq<State>, steps: seq<Step>, k: nat, a: nat, result: Initialization, failed: bool)
    requires IsTrace(states, steps) && k < |steps| && steps[k].OnCandidateClosed? && steps[k].attempt == a
    requires a in states[k].attempts && ClosesOrPast(states[k].attempts[a], Some(result), failed)
    ensures a in states[k + 1].attempts
    ensures states[k + 1].attempts[a]
         == Returned(AnswerAfter(result, !failed && steps[k].ok, !states[k].closed && a == states[k].epoch))
  {
    assert Follows(states, steps, k);
    assert states[k + 1] == CandidateClosed(states[k], a, steps[k].ok);
  }

  /**
   * Whatever runs in between, an attempt whose candidate is initialized, drained and closed answers by what
   * initialization said, by whether every disposal step worked, and by whether it is still the latest at the end.
   */
  lemma DisposalAnswers(states: seq<State>, steps: seq<Step>, a: nat, i: nat, j: nat, k: nat)
    requires IsTrace(states, steps) && i < j < k < |steps|
    requires steps[i].OnInitialization? && steps[i].attempt == a
    requires steps[j].OnCandidateDrained? && steps[j].attempt == a
    requires steps[k].OnCandidateClosed? && steps[k].attempt == a
    ensures a in states[i].attempts && states[i].attempts[a].Initializing?
    ensures var clean := (states[i].attempts[a].retired || steps[i].retires) && steps[j].ok && steps[k].ok;
            var latest := !states[k].closed && a == states[k].epoch;
            a in states[k + 1].attempts && states[k + 1].attempts[a] == Returned(AnswerAfter(steps[i].result, clean, latest))
  {
    var answer := Some(steps[i].result);
    InitializationStarts(states, steps, i, a);
    var failed := !states[i].attempts[a].retired && !steps[i].retires;
    DisposalStands(states, steps, i + 1, j, a, answer, failed);
    DrainingEnds(states, steps, j, a, answer, failed);
    DisposalStands(states, steps, j + 1, k, a, answer, failed || !steps[j].ok);
    ClosingEnds(states, steps, k, a, steps[i].result, failed || !steps[j].ok);
  }
}
