/** The life of replaceable engines, told as a log of lifecycle events. */
module EngineLedger {
  import opened Wrappers

  type Engine = nat

  datatype Event =
    | Bumped
    | ShutDown
    | CreateStarted(attempt: nat)
    | CreateFailed
    | Created(engine: Engine)
    | Published(engine: Engine, attempt: nat)
    | Acquired(engine: Engine)
    | Released(engine: Engine)
    | Retired(engine: Engine)
    | DrainStarted(engine: Engine)
    | CloseStarted(engine: Engine)
    | Closed(engine: Engine)

  datatype Stage = Building | Fresh | Running(leases: nat) | Retiring(leases: nat) | Draining | Closing

  /** `made` engines were created so far; the last of them is the one alive, unless one is being built. */
  datatype Ledger = Ledger(epoch: nat, shut: bool, made: nat, alive: Option<Stage>) | Broken

  /** The stage the last engine must be in for an event about it. */
  predicate At(l: Ledger, e: Engine) {
    l.Ledger? && l.alive.Some? && l.alive.value != Building && e + 1 == l.made
  }

  function Advance(l: Ledger, event: Event): Ledger {
    if l.Broken? then Broken
    else match event
      case Bumped => l.(epoch := l.epoch + 1)
      case ShutDown => l.(shut := true)
      case CreateStarted(a) =>
        if l.alive.None? && !l.shut && a == l.epoch then l.(alive := Some(Building)) else Broken
      case CreateFailed =>
        if l.alive == Some(Building) then l.(alive := None) else Broken
      case Created(e) =>
        if l.alive == Some(Building) && e == l.made then l.(alive := Some(Fresh), made := e + 1) else Broken
      case Published(e, a) =>
        if At(l, e) && l.alive.value == Fresh && a == l.epoch && !l.shut then l.(alive := Some(Running(0))) else Broken
      case Acquired(e) =>
        if At(l, e) && l.alive.value.Running? then l.(alive := Some(Running(l.alive.value.leases + 1))) else Broken
      case Released(e) =>
        if At(l, e) && l.alive.value.Running? && l.alive.value.leases > 0
        then l.(alive := Some(Running(l.alive.value.leases - 1)))
        else if At(l, e) && l.alive.value.Retiring? && l.alive.value.leases > 0
        then l.(alive := Some(Retiring(l.alive.value.leases - 1)))
        else Broken
      case Retired(e) =>
        if At(l, e) && l.alive.value == Fresh then l.(alive := Some(Retiring(0)))
        else if At(l, e) && l.alive.value.Running? then l.(alive := Some(Retiring(l.alive.value.leases)))
        else Broken
      case DrainStarted(e) =>
        if At(l, e) && l.alive.value == Retiring(0) then l.(alive := Some(Draining)) else Broken
      case CloseStarted(e) =>
        if At(l, e) && l.alive.value == Draining then l.(alive := Some(Closing)) else Broken
      case Closed(e) =>
        if At(l, e) && l.alive.value == Closing then l.(alive := None) else Broken
  }

  function Replay(log: seq<Event>): Ledger {
    if log == [] then Ledger(0, false, 0, None)
    else Advance(Replay(log[..|log| - 1]), log[|log| - 1])
  }

  lemma ReplayStep(log: seq<Event>, event: Event)
    ensures Replay(log + [event]) == Advance(Replay(log), event)
  {
    assert (log + [event])[..|log|] == log;
  }

  /** How often each thing happened to one engine. */
  datatype Tally = Tally(created: nat, retired: nat, drained: nat, closing: nat, closed: nat, acquired: nat, released: nat)

  function Note(t: Tally, event: Event, e: Engine): Tally {
    match event
    case Created(x) => if x == e then t.(created := t.created + 1) else t
    case Retired(x) => if x == e then t.(retired := t.retired + 1) else t
    case DrainStarted(x) => if x == e then t.(drained := t.drained + 1) else t
    case CloseStarted(x) => if x == e then t.(closing := t.closing + 1) else t
    case Closed(x) => if x == e then t.(closed := t.closed + 1) else t
    case Acquired(x) => if x == e then t.(acquired := t.acquired + 1) else t
    case Released(x) => if x == e then t.(released := t.released + 1) else t
    case _ => t
  }

  function TallyOf(log: seq<Event>, e: Engine): Tally {
    if log == [] then Tally(0, 0, 0, 0, 0, 0, 0)
    else Note(TallyOf(log[..|log| - 1], e), log[|log| - 1], e)
  }

  predicate Passed(t: Tally, created: nat, retired: nat, drained: nat, closing: nat, closed: nat, leases: nat) {
    && t.created == created && t.retired == retired && t.drained == drained
    && t.closing == closing && t.closed == closed && t.acquired == t.released + leases
  }

  /** The tally an engine must show in a given ledger. */
  predicate Fits(l: Ledger, t: Tally, e: Engine) requires l.Ledger? {
    if e >= l.made then Passed(t, 0, 0, 0, 0, 0, 0)
    else if e + 1 < l.made then Passed(t, 1, 1, 1, 1, 1, 0)
    else match l.alive
      case None => Passed(t, 1, 1, 1, 1, 1, 0)
      case Some(Building) => Passed(t, 1, 1, 1, 1, 1, 0)
      case Some(Fresh) => Passed(t, 1, 0, 0, 0, 0, 0)
      case Some(Running(n)) => Passed(t, 1, 0, 0, 0, 0, n)
      case Some(Retiring(n)) => Passed(t, 1, 1, 0, 0, 0, n)
      case Some(Draining) => Passed(t, 1, 1, 1, 0, 0, 0)
      case Some(Closing) => Passed(t, 1, 1, 1, 1, 0, 0)
  }

  /** One event moves the tally as it moves the ledger. */
  lemma AdvanceFits(l: Ledger, t: Tally, event: Event, e: Engine)
    requires l.Ledger? && Fits(l, t, e) && Advance(l, event).Ledger?
    ensures Fits(Advance(l, event), Note(t, event, e), e)
  { }

  lemma AdvanceCounts(l: Ledger, event: Event)
    requires l.Ledger? && Advance(l, event).Ledger?
    ensures Advance(l, event).epoch == l.epoch + if event == Bumped then 1 else 0
    ensures Advance(l, event).shut <==> l.shut || event == ShutDown
  { }

  /**
   * Every engine is created, retired, drained and closed in that order and at most once each, and by the
   * time it drains every lease on it has been released.
   */
  lemma {:induction false} EachEngineLivesOnce(log: seq<Event>, e: Engine)
    requires Replay(log).Ledger?
    ensures Fits(Replay(log), TallyOf(log, e), e)
  {
    if log != [] {
      var front, last := log[..|log| - 1], log[|log| - 1];
      EachEngineLivesOnce(front, e);
      AdvanceFits(Replay(front), TallyOf(front, e), last, e);
    }
  }

  /** While an engine is alive or being built, no other creation starts; a publication is the latest attempt's. */
  lemma {:induction false} OneEngineAtATime(log: seq<Event>, i: nat)
    requires i < |log| && Replay(log).Ledger?
    ensures Replay(log[..i]).Ledger?
    ensures log[i].CreateStarted? ==> Replay(log[..i]).alive.None? && !Replay(log[..i]).shut
    ensures log[i].Published? ==> log[i].attempt == Replay(log[..i]).epoch && !Replay(log[..i]).shut
    ensures log[i].CloseStarted? || log[i].Closed? ==>
              var t := TallyOf(log[..i], log[i].engine); t.retired == 1 && t.closed == 0 && t.acquired == t.released
  {
    if i + 1 == |log| {
      if log[i].CloseStarted? || log[i].Closed? { EachEngineLivesOnce(log[..i], log[i].engine); }
    } else {
      var front := log[..|log| - 1];
      OneEngineAtATime(front, i);
      assert front[..i] == log[..i] && front[i] == log[i];
    }
  }

  /** The epoch counts the bumps, so an attempt older than the last bump never publishes again. */
  lemma {:induction false} EpochCountsBumps(log: seq<Event>)
    requires Replay(log).Ledger?
    ensures Replay(log).epoch == multiset(log)[Bumped] && (Replay(log).shut <==> ShutDown in log)
  {
    if log != [] {
      var front, last := log[..|log| - 1], log[|log| - 1];
      EpochCountsBumps(front);
      AdvanceCounts(Replay(front), last);
      assert log == front + [last];
      assert multiset(log) == multiset(front) + multiset{last};
    }
  }
}
