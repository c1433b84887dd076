/**
 * Any number of processes taking their stores in physical order, one lock at a time. Between ordering and
 * acquisition the environment may put another store at a target's path; the process then waits for that one.
 */
module LockDeadlock {
  import opened Wrappers
  import opened LockOrder

  type Process = nat

  /** The physical identity of one lock. */
  datatype LockId = LockId(device: nat, inode: nat)

  predicate Below(a: LockId, b: LockId) {
    a.device < b.device || (a.device == b.device && a.inode < b.inode)
  }

  datatype Phase = Acquiring | Acting | Releasing | Done

  /** The locks a process holds, in the order taken, and the one it waits for. */
  datatype Run = Run(targets: seq<LockId>, held: seq<LockId>, waiting: Option<LockId>, phase: Phase)

  type State = map<Process, Run>

  ghost predicate Ascending(ids: seq<LockId>) {
    forall i, j :: 0 <= i < j < |ids| ==> Below(ids[i], ids[j])
  }

  predicate MoreToTake(r: Run) {
    r.phase == Acquiring && |r.held| < |r.targets|
  }

  /** The store waited for is not the one that was ordered. */
  predicate Rebound(r: Run) {
    r.waiting.Some? && (|r.held| < |r.targets| ==> r.waiting.value != r.targets[|r.held|])
  }

  predicate Free(s: State, id: LockId) {
    forall p :: p in s ==> id !in s[p].held
  }

  /**
   * Start with any ordered targets; reach the store now at the next target's path; take its lock once free, which
   * ends in release unless it is the store ordered; give up; act; release the last one taken.
   */
  datatype Step = Start(process: Process, targets: seq<LockId>) | Reach(process: Process, found: LockId) | Take(process: Process)
                | GiveUp(process: Process) | Act(process: Process) | EndAction(process: Process)
                | ReleaseLast(process: Process) | Finish(process: Process)

  ghost predicate Enabled(s: State, step: Step) {
    match step
    case Start(p, targets) => p !in s && Ascending(targets)
    case Reach(p, _) => p in s && MoreToTake(s[p]) && s[p].waiting.None?
    case Take(p) => p in s && s[p].waiting.Some? && Free(s, s[p].waiting.value)
    case GiveUp(p) => p in s && s[p].phase == Acquiring
    case Act(p) => p in s && s[p].phase == Acquiring && |s[p].held| == |s[p].targets|
    case EndAction(p) => p in s && s[p].phase == Acting
    case ReleaseLast(p) => p in s && s[p].phase == Releasing && s[p].held != []
    case Finish(p) => p in s && s[p].phase == Releasing && s[p].held == []
  }

  function Taken(r: Run): Run
    requires r.waiting.Some?
  {
    r.(held := r.held + [r.waiting.value], waiting := None, phase := if Rebound(r) then Releasing else Acquiring)
  }

  ghost function Next(s: State, step: Step): State
    requires Enabled(s, step)
  {
    match step
    case Start(p, targets) => s[p := Run(targets, [], None, Acquiring)]
    case Reach(p, found) => s[p := s[p].(waiting := Some(found))]
    case Take(p) => s[p := Taken(s[p])]
    case GiveUp(p) => s[p := s[p].(waiting := None, phase := Releasing)]
    case Act(p) => s[p := s[p].(phase := Acting)]
    case EndAction(p) => s[p := s[p].(phase := Releasing)]
    case ReleaseLast(p) => s[p := s[p].(held := s[p].held[..|s[p].held| - 1])]
    case Finish(p) => s[p := s[p].(phase := Done)]
  }

  /** While acquiring and acting a process holds exactly its first targets. */
  ghost predicate SoundRun(r: Run) {
    && Ascending(r.targets)
    && (r.phase == Acquiring || r.phase == Acting ==> r.held <= r.targets)
    && (r.phase == Acting ==> r.held == r.targets)
    && (r.phase == Done ==> r.held == [])
    && (r.waiting.Some? ==> MoreToTake(r))
  }

  /** No lock has two holders. */
  ghost predicate Sound(s: State) {
    && (forall p :: p in s ==> SoundRun(s[p]))
    && (forall p, q, id :: p in s && q in s && id in s[p].held && id in s[q].held ==> p == q)
  }

  lemma StepKeepsSound(s: State, step: Step)
    requires Sound(s) && Enabled(s, step)
    ensures Sound(Next(s, step))
  {
    var p := step.process;
    var t := Next(s, step);
    assert SoundRun(t[p]);
    forall id | id in t[p].held ensures (p in s && id in s[p].held) || Free(s, id) { }
  }

  /** The state after some steps of any processes, if each was enabled when it ran. */
  ghost function After(steps: seq<Step>): Option<State> {
    if steps == [] then Some(map[])
    else match After(steps[..|steps| - 1])
      case None => None
      case Some(s) => if Enabled(s, steps[|steps| - 1]) then Some(Next(s, steps[|steps| - 1])) else None
  }

  lemma AfterExtended(steps: seq<Step>, s: State, step: Step)
    requires After(steps) == Some(s) && Enabled(s, step)
    ensures After(steps + [step]) == Some(Next(s, step))
  {
    assert (steps + [step])[..|steps|] == steps;
  }

  lemma {:induction false} ReachedIsSound(steps: seq<Step>)
    requires After(steps).Some?
    ensures Sound(After(steps).value)
  {
    if steps != [] {
      ReachedIsSound(steps[..|steps| - 1]);
      StepKeepsSound(After(steps[..|steps| - 1]).value, steps[|steps| - 1]);
    }
  }

  /** One process waits for a lock another holds. */
  ghost predicate WaitsFor(s: State, p: Process, q: Process) {
    p in s && q in s && s[p].waiting.Some? && s[p].waiting.value in s[q].held
  }

  ghost predicate WaitChain(s: State, chain: seq<Process>) {
    forall i :: 0 <= i < |chain| - 1 ==> WaitsFor(s, chain[i], chain[i + 1])
  }

  /** Waits for a store that is not above everything it holds. */
  predicate OutOfOrder(r: Run) {
    r.waiting.Some? && exists id :: id in r.held && !Below(id, r.waiting.value)
  }

  /** In a reachable state only a rebound store is out of order: the ordered ones ascend. */
  lemma OutOfOrderIsRebound(s: State, steps: seq<Step>, p: Process)
    requires After(steps) == Some(s) && p in s && OutOfOrder(s[p])
    ensures Rebound(s[p])
  {
    ReachedIsSound(steps);
    var id :| id in s[p].held && !Below(id, s[p].waiting.value);
    var i :| 0 <= i < |s[p].held| && s[p].held[i] == id;
    assert s[p].targets[i] == id;
  }

  predicate WaitsInOrder(s: State, p: Process) {
    p in s && s[p].waiting.Some? && !OutOfOrder(s[p])
  }

  lemma {:induction false} ChainAscends(s: State, chain: seq<Process>)
    requires WaitChain(s, chain) && |chain| >= 2
    requires forall i :: 0 < i < |chain| ==> WaitsInOrder(s, chain[i])
    ensures chain[0] in s && s[chain[0]].waiting.Some? && WaitsInOrder(s, chain[|chain| - 1])
    ensures Below(s[chain[0]].waiting.value, s[chain[|chain| - 1]].waiting.value)
  {
    var n := |chain|;
    assert WaitsFor(s, chain[n - 2], chain[n - 1]);
    if n > 2 {
      var front := chain[..n - 1];
      forall i | 0 <= i < |front| - 1 ensures WaitsFor(s, front[i], front[i + 1]) {
        assert WaitsFor(s, chain[i], chain[i + 1]);
      }
      ChainAscends(s, front);
    }
  }

  /** Every cycle of the wait-for graph contains a process that waits for a store not above everything it holds. */
  lemma CycleNeedsDescent(s: State, chain: seq<Process>)
    requires WaitChain(s, chain) && |chain| >= 2 && chain[0] == chain[|chain| - 1]
    ensures exists i :: 0 < i < |chain| && chain[i] in s && OutOfOrder(s[chain[i]])
  {
    forall i | 0 < i < |chain| ensures chain[i] in s && s[chain[i]].waiting.Some? {
      if i < |chain| - 1 {
        assert WaitsFor(s, chain[i], chain[i + 1]);
      } else {
        assert WaitsFor(s, chain[0], chain[1]);
      }
    }
    if forall i :: 0 < i < |chain| ==> WaitsInOrder(s, chain[i]) { ChainAscends(s, chain); }
  }

  /** In a reachable state such a process waits for a store other than the one it ordered. */
  lemma CycleNeedsRebound(s: State, steps: seq<Step>, chain: seq<Process>)
    requires After(steps) == Some(s) && WaitChain(s, chain) && |chain| >= 2 && chain[0] == chain[|chain| - 1]
    ensures exists i :: 0 < i < |chain| && chain[i] in s && OutOfOrder(s[chain[i]]) && Rebound(s[chain[i]])
  {
    CycleNeedsDescent(s, chain);
    var i :| 0 < i < |chain| && chain[i] in s && OutOfOrder(s[chain[i]]);
    OutOfOrderIsRebound(s, steps, chain[i]);
  }

  /** Hence while no process waits out of order, the wait-for graph has no cycle. */
  lemma NoWaitCycle(s: State, chain: seq<Process>)
    requires WaitChain(s, chain) && |chain| >= 2 && forall p :: p in s ==> !OutOfOrder(s[p])
    ensures chain[0] != chain[|chain| - 1]
  {
    if chain[0] == chain[|chain| - 1] { CycleNeedsDescent(s, chain); }
  }

  /** A new process takes the first of its targets. */
  lemma TakesFirst(steps: seq<Step>, s: State, p: Process, targets: seq<LockId>) returns (more: seq<Step>)
    requires After(steps) == Some(s) && p !in s && Ascending(targets) && targets != [] && Free(s, targets[0])
    ensures After(more) == Some(s[p := Run(targets, [targets[0]], None, Acquiring)])
  {
    AfterExtended(steps, s, Start(p, targets));
    more := steps + [Start(p, targets)];
    var started := s[p := Run(targets, [], None, Acquiring)];
    AfterExtended(more, started, Reach(p, targets[0]));
    more := more + [Reach(p, targets[0])];
    var reached := s[p := Run(targets, [], Some(targets[0]), Acquiring)];
    assert reached == Next(started, Reach(p, targets[0]));
    AfterExtended(more, reached, Take(p));
    more := more + [Take(p)];
    assert Taken(reached[p]) == Run(targets, [targets[0]], None, Acquiring) by {
      assert [] + [targets[0]] == [targets[0]];
    }
    assert Next(reached, Take(p)) == s[p := Run(targets, [targets[0]], None, Acquiring)];
  }

  /**
   * A rebound store can close a cycle: 0 holds the first store and waits for the second; 1 holds the second and
   * finds the first at its next path.
   */
  lemma ReboundCycle() returns (steps: seq<Step>, s: State)
    ensures After(steps) == Some(s) && WaitChain(s, [0, 1, 0])
    ensures WaitsInOrder(s, 0) && 1 in s && OutOfOrder(s[1])
  {
    var one, two, three := LockId(1, 1), LockId(1, 2), LockId(1, 3);
    steps := TakesFirst([], map[], 0, [one, two]);
    s := map[0 := Run([one, two], [one], None, Acquiring)];
    steps := TakesFirst(steps, s, 1, [two, three]);
    s := s[1 := Run([two, three], [two], None, Acquiring)];
    AfterExtended(steps, s, Reach(0, two));
    steps, s := steps + [Reach(0, two)], Next(s, Reach(0, two));
    AfterExtended(steps, s, Reach(1, one));
    steps, s := steps + [Reach(1, one)], Next(s, Reach(1, one));
    assert WaitsFor(s, 0, 1) && WaitsFor(s, 1, 0);
  }

  /** The process waiting for the greatest lock among those that wait. */
  lemma {:induction false} GreatestWanted(s: State, among: set<Process>) returns (p: Process)
    requires among != {} && forall q :: q in among ==> q in s && s[q].waiting.Some?
    ensures p in among && forall q :: q in among ==> !Below(s[p].waiting.value, s[q].waiting.value)
  {
    p :| p in among;
    var rest := among - {p};
    assert forall q :: q in among ==> q == p || q in rest;
    if rest != {} {
      var r := GreatestWanted(s, rest);
      if Below(s[p].waiting.value, s[r].waiting.value) { p := r; }
    }
  }

  /** A process that does not wait and is not done can go on. */
  lemma GoesOn(s: State, p: Process) returns (step: Step)
    requires p in s && SoundRun(s[p]) && s[p].phase != Done && s[p].waiting.None?
    ensures Enabled(s, step) && !step.GiveUp? && !step.Start?
  {
    match s[p].phase
    case Acquiring => step := if |s[p].held| < |s[p].targets| then Reach(p, s[p].targets[|s[p].held|]) else Act(p);
    case Acting => step := EndAction(p);
    case Releasing => step := if s[p].held != [] then ReleaseLast(p) else Finish(p);
  }

  /** With unfinished processes, none of which waits out of order, some process can go on without giving up. */
  lemma NoDeadlock(s: State, steps: seq<Step>) returns (step: Step)
    requires After(steps) == Some(s) && exists p :: p in s && s[p].phase != Done
    requires forall p :: p in s ==> !OutOfOrder(s[p])
    ensures Enabled(s, step) && !step.GiveUp? && !step.Start?
  {
    ReachedIsSound(steps);
    var waiting := set p | p in s && s[p].waiting.Some?;
    var p :| p in s && s[p].phase != Done;
    if p in waiting {
      var g := GreatestWanted(s, waiting);
      if Free(s, s[g].waiting.value) { return Take(g); }
      var q :| q in s && s[g].waiting.value in s[q].held;
      if s[q].waiting.Some? { assert false; }
      p := q;
    }
    step := GoesOn(s, p);
  }

  /** What the target list of a run contributes: its physical identities, in ascending order. */
  lemma TargetsAscend<T>(targets: seq<Target<T>>)
    requires Increasing(targets)
    ensures Ascending(seq(|targets|, i requires 0 <= i < |targets| => LockId(targets[i].binding.device, targets[i].binding.inode)))
  {
    var ids := seq(|targets|, i requires 0 <= i < |targets| => LockId(targets[i].binding.device, targets[i].binding.inode));
    forall i, j | 0 <= i < j < |ids| ensures Below(ids[i], ids[j]) {
      assert Ahead(targets[i], targets[j]);
    }
  }
}
