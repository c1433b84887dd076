/**
 * The controller's own fields and code. Every method is one uninterrupted piece of it: an entry point up to
 * its first suspension, or the continuation of a suspended resume or teardown once what it awaited settled.
 */
module EngineController {
  import opened Wrappers
  import opened EngineLaws
  import opened EngineModel
  import L = EngineLedger

  datatype ResumeAnswer = AlreadyRunning(engine: Engine, generation: nat) | Refused | Joined(attempt: nat) | Started(attempt: nat)

  class Controller {
    var current: Option<Record>
    var epoch: nat
    var closed: bool
    var initializing: Option<nat>
    var resumeAttempt: Option<nat>
    var attempts: map<nat, Phase>
    var teardowns: map<nat, Teardown>
    var retirement: nat
    var leases: map<Engine, nat>
    var held: map<LeaseId, Engine>
    var nextLease: nat
    var made: nat
    /** The machine state these fields implement. */
    ghost var model: State

    /** The fields are those of the machine state. */
    ghost predicate Implements() reads this {
      && model.current == current && model.epoch == epoch && model.closed == closed
      && model.initializing == initializing && model.resumeAttempt == resumeAttempt && model.attempts == attempts
      && model.teardowns == teardowns && model.retirement == retirement
      && model.leases == leases && model.held == held && model.nextLease == nextLease && model.made == made
    }

    /**
     * The machine got here by uninterrupted pieces, so every law of its runs holds of its log and fields; and a
     * closed controller has no current engine.
     */
    ghost predicate Valid() reads this {
      Implements() && Reachable(model) && (closed ==> current.None?)
    }

    /** No engine exists: none current, being made or disposed of, or torn down, and no lease is out. */
    ghost predicate NoEngine() reads this {
      current.None? && OnlyAttempt(attempts, None) && OnlyTeardown(teardowns, None) && held == map[]
    }

    /** The life-cycle laws of the log, as they hold of every controller. */
    lemma Lifecycle(e: Engine, i: nat)
      requires Valid() && i < |model.log|
      ensures var log := model.log;
              && L.Replay(log).Ledger? && L.Fits(L.Replay(log), L.TallyOf(log, e), e)
              && L.Replay(log[..i]).Ledger?
              && (log[i].CreateStarted? ==> L.Replay(log[..i]).alive.None?)
              && (log[i].Published? ==> log[i].attempt == multiset(log[..i])[L.Bumped] && L.ShutDown !in log[..i])
    {
      var steps := ReachableRuns(model);
      LifecycleHolds(steps, e, i);
    }

    constructor ()
      ensures Valid() && model == INITIAL
    {
      current, epoch, closed, initializing, resumeAttempt := None, 0, false, None, None;
      attempts, teardowns, retirement := map[], map[], 0;
      leases, held, nextLease, made := map[], map[], 0, 0;
      model := INITIAL;
      InitialIsReachable();
    }

    method Acquire() returns (lease: Option<LeaseId>)
      requires Valid()
      modifies this
      ensures Valid() && model == Next(old(model), DoAcquire)
      ensures lease.Some? <==> current.Some?
      ensures lease.Some? ==> lease.value !in old(held) && held == old(held)[lease.value := current.value.engine]
      ensures lease.Some? ==> !closed && current.value.generation == epoch && LeasesOn(held, Some(current.value.engine))
                              && OnlyAttempt(attempts, None) && OnlyTeardown(teardowns, None)
    {
      AcquiresAlone(model);
      model := Next(model, DoAcquire);
      if current.None? { return None; }
      var e := current.value.engine;
      lease := Some(nextLease);
      leases := leases[e := CountOn(leases, e) + 1];
      held, nextLease := held[nextLease := e], nextLease + 1;
    }

    method ReleaseLease(lease: LeaseId)
      requires Valid()
      modifies this
      ensures Valid() && model == Next(old(model), DoRelease(lease)) && held == old(held) - {lease}
    {
      StepIsReachable(model, DoRelease(lease));
      model := Next(model, DoRelease(lease));
      if lease !in held { return; }
      var e := held[lease];
      var n := CountOn(leases, e);
      leases := leases[e := if n > 0 then n - 1 else 0];
      held := held - {lease};
    }

    method ResumeEngine() returns (answer: ResumeAnswer)
      requires Valid()
      modifies this
      ensures Valid() && model == Next(old(model), DoResume)
      ensures match answer
              case AlreadyRunning(e, g) => old(current) == Some(Record(e, g)) && model == old(model)
              case Refused => old(current).None? && closed && model == old(model)
              case Joined(a) => old(current).None? && !closed && a == epoch && resumeAttempt == Some(a) && model == old(model)
              case Started(a) =>
                && old(current).None? && !closed && old(resumeAttempt) != Some(old(epoch)) && a == epoch == old(epoch) + 1
                && attempts == old(attempts)[a := AwaitingPredecessor(old(resumeAttempt))] && resumeAttempt == Some(a)
    {
      StepIsReachable(model, DoResume);
      model := Next(model, DoResume);
      if current.Some? { return AlreadyRunning(current.value.engine, current.value.generation); }
      if closed { return Refused; }
      if resumeAttempt == Some(epoch) { return Joined(epoch); }
      var predecessor := resumeAttempt;
      epoch := epoch + 1;
      attempts := attempts[epoch := AwaitingPredecessor(predecessor)];
      resumeAttempt := Some(epoch);
      return Started(epoch);
    }

    /** The engine that was current, if any, is the latest retirement's, waiting for its leases if there are any. */
    ghost predicate TornDown(before: Option<Record>, retired: nat, earlier: map<nat, Teardown>, counts: map<Engine, nat>)
      reads this
    {
      match before
      case None => retirement == retired && teardowns == earlier
      case Some(record) =>
        && retirement == retired + 1
        && teardowns == earlier[retirement := Teardown(record.engine,
                                                       if CountOn(counts, record.engine) > 0 then WaitingForLeases else Draining)]
    }

    /** A candidate under initialization is retired at once; no other attempt moves. */
    ghost predicate CandidateRetired(candidate: Option<nat>, before: map<nat, Phase>)
      reads this
    {
      if candidate.Some? && candidate.value in before && before[candidate.value].Initializing?
      then attempts == before[candidate.value := Initializing(before[candidate.value].engine, true)]
      else attempts == before
    }

    /** Detach the current engine, if any, and start tearing it down. */
    method DetachCurrent()
      requires Implements()
      modifies this
      ensures Implements() && model == Detach(old(model)) && current == None && closed == old(closed)
      ensures attempts == old(attempts) && initializing == old(initializing) && epoch == old(epoch)
      ensures TornDown(old(current), old(retirement), old(teardowns), old(leases))
    {
      model := Detach(model);
      if current.None? { return; }
      var e := current.value.engine;
      current := None;
      retirement := retirement + 1;
      teardowns := teardowns[retirement := Teardown(e, if CountOn(leases, e) > 0 then WaitingForLeases else Draining)];
    }

    /** Retire a candidate under initialization, once. */
    method RetireInitializing()
      requires Implements()
      modifies this
      ensures Implements() && model == RetireCandidate(old(model)) && current == old(current) && closed == old(closed)
      ensures CandidateRetired(old(initializing), old(attempts)) && epoch == old(epoch)
      ensures retirement == old(retirement) && teardowns == old(teardowns)
    {
      model := RetireCandidate(model);
      if initializing.None? || initializing.value !in attempts { return; }
      var phase := attempts[initializing.value];
      if phase.Initializing? && !phase.retired {
        attempts := attempts[initializing.value := Initializing(phase.engine, true)];
      } else if phase.Initializing? {
        assert attempts[initializing.value := phase] == attempts;
      }
    }

    /** Supersede every attempt, detach the current engine and retire a candidate. */
    method StopNow()
      requires Implements()
      modifies this
      ensures Implements() && model == Stop(old(model))
      ensures current == None && epoch == old(epoch) + 1 && closed == old(closed)
      ensures TornDown(old(current), old(retirement), old(teardowns), old(leases))
      ensures CandidateRetired(old(initializing), old(attempts))
    {
      model := Supersede(model);
      epoch := epoch + 1;
      DetachCurrent();
      RetireInitializing();
    }

    /** A stop up to the point where it waits for the teardown and any pending resume. */
    method StopEngine()
      requires Valid()
      modifies this
      ensures Valid() && model == Next(old(model), DoStop)
      ensures current == None && epoch == old(epoch) + 1 && closed == old(closed)
      ensures TornDown(old(current), old(retirement), old(teardowns), old(leases))
      ensures CandidateRetired(old(initializing), old(attempts))
    {
      StepIsReachable(model, DoStop);
      StopNow();
    }

    method StopIfCurrent(generation: nat) returns (stopped: bool)
      requires Valid()
      modifies this
      ensures Valid() && stopped == (old(current).Some? && old(current).value.generation == generation)
      ensures model == if stopped then Next(old(model), DoStop) else old(model)
    {
      if current.None? || current.value.generation != generation { return false; }
      StopEngine();
      return true;
    }

    method ShutdownEngine()
      requires Valid()
      modifies this
      ensures Valid() && model == Next(old(model), DoShutdown) && closed && current == None && epoch == old(epoch) + 1
      ensures TornDown(old(current), old(retirement), old(teardowns), old(leases))
      ensures CandidateRetired(old(initializing), old(attempts))
    {
      StepIsReachable(model, DoShutdown);
      model := Log(model.(closed := true), L.ShutDown);
      closed := true;
      StopNow();
    }

    /** The predecessor's promise settled: wait for the retirement now in place. */
    method AfterPredecessor(a: nat)
      requires Valid() && Enabled(model, OnPredecessor(a))
      modifies this
      ensures Valid() && model == Next(old(model), OnPredecessor(a))
      ensures current == old(current) && made == old(made) && (NoEngine() <==> old(NoEngine()))
      ensures attempts[a] == AwaitingRetirement(retirement)
    {
      StepIsReachable(model, OnPredecessor(a));
      model := Next(model, OnPredecessor(a));
      attempts := attempts[a := AwaitingRetirement(retirement)];
    }

    /** The retirement settled: give up if superseded, else call the lifecycle's creation. */
    method AfterRetirement(a: nat) returns (creates: bool)
      requires Valid() && Enabled(model, OnRetirement(a))
      modifies this
      ensures Valid() && model == Next(old(model), OnRetirement(a))
      ensures creates == (!old(closed) && a == old(epoch))
      ensures creates ==> old(NoEngine())
      ensures creates ==> current.None? && held == map[] && OnlyAttempt(attempts, Some(a)) && OnlyTeardown(teardowns, None)
      ensures !creates ==> attempts[a] == Returned(Superseded) && current == old(current)
    {
      if !Stale(model, a) { CreatesAlone(model, a); }
      StepIsReachable(model, OnRetirement(a));
      model := Next(model, OnRetirement(a));
      creates := !closed && a == epoch;
      attempts := attempts[a := if creates then Creating else Returned(Superseded)];
    }

    /** Creation settled: no engine after a failure, else one candidate, initialized only by the latest attempt. */
    method AfterCreation(a: nat, ok: bool)
      requires Valid() && Enabled(model, OnCreation(a, ok))
      modifies this
      ensures a in attempts
      ensures Valid() && model == Next(old(model), OnCreation(a, ok))
      ensures if ok then OnlyAttempt(attempts, Some(a)) && OnlyTeardown(teardowns, None) && held == map[] else NoEngine()
      ensures current.None? && made == old(made) + if ok then 1 else 0
      ensures attempts[a].Initializing? <==> ok && !closed && a == epoch
      ensures !ok ==> attempts[a] == Returned(if closed || a != epoch then Superseded else Failed)
      ensures ok && (closed || a != epoch) ==> attempts[a] == Disposing(old(made), false, None, false)
    {
      CreationStaysAlone(model, a, ok);
      model := Next(model, OnCreation(a, ok));
      var late := closed || a != epoch;
      if !ok {
        attempts := attempts[a := Returned(if late then Superseded else Failed)];
        return;
      }
      var engine := made;
      made := made + 1;
      if late {
        attempts := attempts[a := Disposing(engine, false, None, false)];
      } else {
        attempts := attempts[a := Initializing(engine, false)];
        initializing := Some(a);
      }
    }

    /** Retire a candidate unless a stop already did, and start draining it; retiring may fail. */
    method StartDisposal(a: nat, answer: Initialization, retires: bool)
      requires Implements() && a in attempts && attempts[a].Initializing? && (answer != Ready || closed || a != epoch)
      modifies this
      ensures Implements() && current == old(current) && closed == old(closed) && epoch == old(epoch)
      ensures model == InitializationSettled(old(model), a, answer, retires)
      ensures attempts == old(attempts)[a := Disposing(old(attempts)[a].engine, false, Some(answer),
                                                       !old(attempts)[a].retired && !retires)]
    {
      var Initializing(engine, retired) := attempts[a];
      var failed := false;
      if !retired { failed := !retires; }
      model := InitializationSettled(model, a, answer, retires);
      initializing := None;
      attempts := attempts[a := Disposing(engine, false, Some(answer), failed)];
    }

    /** Make the candidate the current engine. */
    method Publish(a: nat, retires: bool)
      requires Implements() && a in attempts && attempts[a].Initializing? && !closed && a == epoch
      modifies this
      ensures Implements() && model == InitializationSettled(old(model), a, Ready, retires)
      ensures current == Some(Record(old(attempts)[a].engine, a)) && closed == old(closed) && epoch == old(epoch)
      ensures attempts == old(attempts)[a := Returned(Running(old(attempts)[a].engine, a))]
    {
      model := InitializationSettled(model, a, Ready, retires);
      var engine := attempts[a].engine;
      initializing, current := None, Some(Record(engine, a));
      attempts := attempts[a := Returned(Running(engine, a))];
    }

    /** Initialization settled: dispose of the candidate, or make it the current engine. */
    method AfterInitialization(a: nat, result: Initialization, retires: bool)
      requires Valid() && Enabled(model, OnInitialization(a, result, retires))
      modifies this
      ensures a in old(attempts) && old(attempts)[a].Initializing? && a in attempts
      ensures Valid() && model == Next(old(model), OnInitialization(a, result, retires))
      ensures current == if result.Ready? && !closed && a == epoch then Some(Record(old(attempts)[a].engine, a)) else None
      ensures current.Some? ==> !old(attempts)[a].retired && OnlyAttempt(attempts, None)
                                && attempts[a] == Returned(Running(old(attempts)[a].engine, a))
      ensures current.None? ==>
                && OnlyAttempt(attempts, Some(a))
                && attempts[a] == Disposing(old(attempts)[a].engine, false, Some(result), !old(attempts)[a].retired && !retires)
      ensures OnlyTeardown(teardowns, None) && held == map[]
    {
      InitializationStaysAlone(model, a, result, retires);
      if result.Raised? || result.NotActive? || closed || a != epoch {
        StartDisposal(a, result, retires);
      } else {
        Publish(a, retires);
      }
    }

    /** Draining a candidate settled, well or badly: close it. */
    method AfterCandidateDrained(a: nat, ok: bool)
      requires Valid() && Enabled(model, OnCandidateDrained(a, ok))
      modifies this
      ensures Valid() && model == Next(old(model), OnCandidateDrained(a, ok))
      ensures attempts[a] == old(attempts[a]).(closing := true, failed := old(attempts[a].failed) || !ok)
      ensures current.None? && OnlyAttempt(attempts, Some(a)) && OnlyTeardown(teardowns, None) && held == map[]
    {
      BusyIsAlone(model, a);
      StepIsReachable(model, OnCandidateDrained(a, ok));
      model := Next(model, OnCandidateDrained(a, ok));
      attempts := attempts[a := attempts[a].(closing := true, failed := attempts[a].failed || !ok)];
    }

    method AfterCandidateClosed(a: nat, ok: bool)
      requires Valid() && Enabled(model, OnCandidateClosed(a, ok))
      modifies this
      ensures Valid() && model == Next(old(model), OnCandidateClosed(a, ok))
      ensures NoEngine() && attempts[a].Returned? && !attempts[a].outcome.Running?
      ensures attempts[a].outcome == Inactive <==>
                !closed && a == epoch && old(attempts[a].answer) == Some(NotActive) && !old(attempts[a].failed) && ok
      ensures attempts[a].outcome == Failed <==>
                && !closed && a == epoch
                && (|| old(attempts[a].answer) == Some(Raised)
                    || (old(attempts[a].answer) == Some(NotActive) && (old(attempts[a].failed) || !ok)))
      ensures attempts[a].outcome in {Inactive, Failed, Superseded}
    {
      BusyIsAlone(model, a);
      StepIsReachable(model, OnCandidateClosed(a, ok));
      model := Next(model, OnCandidateClosed(a, ok));
      var Disposing(_, _, answer, failed) := attempts[a];
      var outcome := Failed;
      if closed || a != epoch || answer.None? || answer.value.Ready? {
        outcome := Superseded;
      } else if answer.value.NotActive? && !failed && ok {
        outcome := Inactive;
      }
      attempts := attempts[a := Returned(outcome)];
    }

    /** The attempt's own promise settles and clears itself if no later attempt replaced it. */
    method AfterAttempt(a: nat) returns (outcome: Outcome)
      requires Valid() && Enabled(model, OnAttempt(a))
      modifies this
      ensures Valid() && model == Next(old(model), OnAttempt(a))
      ensures old(attempts)[a] == Returned(outcome) && attempts == old(attempts)[a := Settled(outcome)]
      ensures resumeAttempt == if old(resumeAttempt) == Some(a) then None else old(resumeAttempt)
    {
      StepIsReachable(model, OnAttempt(a));
      model := Next(model, OnAttempt(a));
      outcome := attempts[a].outcome;
      attempts := attempts[a := Settled(outcome)];
      if resumeAttempt == Some(a) { resumeAttempt := None; }
    }

    /** One continuation of a teardown: leases gone, drained, or closed. */
    method AdvanceTeardown(r: nat)
      requires Valid() && Enabled(model, OnTeardown(r))
      modifies this
      ensures Valid() && model == Next(old(model), OnTeardown(r))
      ensures r == retirement && current.None? && held == map[]
      ensures OnlyAttempt(attempts, None) && OnlyTeardown(teardowns, Some(r)) && teardowns[r].stage != old(teardowns[r].stage)
      ensures teardowns[r].stage == Done ==> NoEngine()
    {
      TeardownMovesAlone(model, r);
      model := Next(model, OnTeardown(r));
      teardowns := teardowns[r := teardowns[r].(stage := StageAfter(teardowns[r].stage))];
    }
  }
}
