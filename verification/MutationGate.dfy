/** One-shot authority to cross from observation into workspace mutation. */
module MutationGate {
  import opened Wrappers

  type Access = nat

  datatype Cause = Unavailable | CutoverFailed(code: nat) | AuthorityLost(code: nat)

  datatype LeaseState = Pending | Granted(access: Access) | Denied(cause: Cause)

  /** The minting callback: it may itself try to consume the lease before it settles. */
  datatype Callback = Callback(retries: nat, outcome: Result<Access, Cause>)

  class MutationLease {
    var state: LeaseState
    ghost var runs: nat

    ghost predicate Valid() reads this {
      runs == if state.Pending? then 0 else 1
    }

    constructor ()
      ensures Valid() && state == Pending
    {
      state, runs := Pending, 0;
    }

    /** The callback runs at most once over the lease's life, whatever it does while running. */
    method Consume(callback: Callback) returns (r: Result<Access, Cause>)
      requires Valid()
      modifies this
      ensures Valid()
      ensures old(state) != Pending ==> r == Err(Unavailable) && state == old(state) && runs == old(runs)
      ensures old(state) == Pending ==> runs == 1 && r == callback.outcome
      ensures old(state) == Pending ==>
                state == match callback.outcome case Ok(access) => Granted(access) case Err(cause) => Denied(cause)
      decreases callback.retries
    {
      if state != Pending { return Err(Unavailable); }
      state, runs := Denied(Unavailable), 1;
      var i := 0;
      while i < callback.retries
        invariant Valid() && runs == 1 && state == Denied(Unavailable)
      {
        var again := Consume(Callback(0, callback.outcome));
        assert again.Err?;
        i := i + 1;
      }
      r := callback.outcome;
      state := match r case Ok(access) => Granted(access) case Err(cause) => Denied(cause);
    }
  }

  datatype GateState = Ready | Authorized(access: Access) | Rejected(cause: Cause)

  datatype Event = CutOver | Refused | Mutated

  datatype Phase = Before | Open | Shut | Broken

  function Advance(p: Phase, e: Event): Phase {
    match (p, e)
    case (Before, CutOver) => Open
    case (Before, Refused) => Shut
    case (Open, Mutated) => Open
    case (Open, Refused) => Shut
    case _ => Broken
  }

  function PhaseOf(trace: seq<Event>): Phase {
    if trace == [] then Before
    else Advance(PhaseOf(trace[..|trace| - 1]), trace[|trace| - 1])
  }

  lemma PhaseStep(trace: seq<Event>, e: Event)
    ensures PhaseOf(trace + [e]) == Advance(PhaseOf(trace), e)
  {
    assert (trace + [e])[..|trace|] == trace;
  }

  /** One single cutover, every mutation after it, and nothing after a refusal. */
  ghost predicate Disciplined(trace: seq<Event>) {
    && (forall i, j :: 0 <= i < j < |trace| && trace[i] == CutOver ==> trace[j] != CutOver)
    && (forall i :: 0 <= i < |trace| && trace[i] == Mutated ==> CutOver in trace[..i])
    && (forall i :: 0 <= i < |trace| - 1 ==> trace[i] != Refused)
  }

  /** The phase a trace ends in says whether the cutover or a refusal has happened. */
  lemma {:induction false} PhaseTells(trace: seq<Event>)
    ensures PhaseOf(trace) == Before ==> trace == []
    ensures PhaseOf(trace) == Open ==> CutOver in trace && Refused !in trace
    ensures PhaseOf(trace) == Shut ==> Refused in trace && trace[|trace| - 1] == Refused
  {
    if trace != [] { PhaseTells(trace[..|trace| - 1]); }
  }

  lemma {:induction false} UnbrokenPrefix(trace: seq<Event>, n: nat)
    requires n <= |trace| && PhaseOf(trace) != Broken
    ensures PhaseOf(trace[..n]) != Broken
    ensures n < |trace| ==> Advance(PhaseOf(trace[..n]), trace[n]) != Broken
  {
    if n == |trace| {
      assert trace[..n] == trace;
    } else {
      UnbrokenPrefix(trace[..|trace| - 1], n);
      assert trace[..|trace| - 1][..n] == trace[..n];
    }
  }

  lemma CutOverStandsAlone(trace: seq<Event>, i: nat, j: nat)
    requires i < j < |trace| && PhaseOf(trace) != Broken && trace[i] == CutOver
    ensures trace[j] != CutOver
  {
    UnbrokenPrefix(trace, j);
    PhaseTells(trace[..j]);
  }

  lemma MutationFollowsCutOver(trace: seq<Event>, i: nat)
    requires i < |trace| && PhaseOf(trace) != Broken && trace[i] == Mutated
    ensures CutOver in trace[..i]
  {
    UnbrokenPrefix(trace, i);
    PhaseTells(trace[..i]);
  }

  lemma RefusalIsLast(trace: seq<Event>, i: nat)
    requires i + 1 < |trace| && PhaseOf(trace) != Broken
    ensures trace[i] != Refused
  {
    UnbrokenPrefix(trace, i + 1);
    assert trace[..i + 1] == trace[..i] + [trace[i]];
    PhaseStep(trace[..i], trace[i]);
  }

  lemma UnbrokenIsDisciplined(trace: seq<Event>)
    requires PhaseOf(trace) != Broken
    ensures Disciplined(trace)
    ensures PhaseOf(trace) == Before ==> trace == []
    ensures PhaseOf(trace) == Open ==> CutOver in trace && Refused !in trace
    ensures PhaseOf(trace) == Shut ==> Refused in trace && trace[|trace| - 1] == Refused
  {
    PhaseTells(trace);
    forall i, j | 0 <= i < j < |trace| && trace[i] == CutOver ensures trace[j] != CutOver {
      CutOverStandsAlone(trace, i, j);
    }
    forall i | 0 <= i < |trace| && trace[i] == Mutated ensures CutOver in trace[..i] {
      MutationFollowsCutOver(trace, i);
    }
    forall i | 0 <= i < |trace| - 1 ensures trace[i] != Refused {
      RefusalIsLast(trace, i);
    }
  }

  function Entered(s: GateState, cut: Result<Access, Cause>, held: Option<Cause>): GateState {
    match s
    case Rejected(_) => s
    case Authorized(_) => if held.Some? then Rejected(held.value) else s
    case Ready =>
      match cut
      case Err(cause) => Rejected(cause)
      case Ok(access) => if held.Some? then Rejected(held.value) else Authorized(access)
  }

  function PhaseFor(s: GateState): Phase {
    match s case Ready => Before case Authorized(_) => Open case Rejected(_) => Shut
  }

  /** What one entry appends to the trace. */
  function Logged(s: GateState, cut: Result<Access, Cause>, held: Option<Cause>): seq<Event> {
    (if s == Ready && cut.Ok? then [CutOver] else [])
    + if !s.Rejected? && Entered(s, cut, held).Rejected? then [Refused] else []
  }

  lemma LoggedFollowsState(trace: seq<Event>, s: GateState, cut: Result<Access, Cause>, held: Option<Cause>)
    requires PhaseOf(trace) == PhaseFor(s)
    ensures PhaseOf(trace + Logged(s, cut, held)) == PhaseFor(Entered(s, cut, held))
  {
    var first := if s == Ready && cut.Ok? then [CutOver] else [];
    var second := if !s.Rejected? && Entered(s, cut, held).Rejected? then [Refused] else [];
    assert trace + Logged(s, cut, held) == (trace + first) + second;
    assert trace + [] == trace && (trace + first) + [] == trace + first;
    PhaseStep(trace, CutOver);
    PhaseStep(trace + first, Refused);
  }

  class Gate {
    const lease: MutationLease
    var state: GateState
    ghost var trace: seq<Event>

    ghost predicate Valid() reads this, lease {
      lease.Valid() && PhaseOf(trace) == PhaseFor(state)
    }

    constructor (lease: MutationLease)
      requires lease.Valid()
      ensures Valid() && this.lease == lease && state == Ready && trace == []
    {
      this.lease, state, trace := lease, Ready, [];
    }

    /** How the lease answers this gate's cutover: an already consumed one refuses. */
    ghost function Cut(callback: Callback): Result<Access, Cause> reads lease {
      if lease.state == Pending then callback.outcome else Err(Unavailable)
    }

    /** The first entry, with a lease nobody consumed yet and a callback that authorizes. */
    ghost predicate CutsOver(callback: Callback) reads this, lease {
      state == Ready && lease.state == Pending && callback.outcome.Ok?
    }

    /** `held` is the failure, if any, of re-authenticating the write authority. */
    method AuthorizeMutation(callback: Callback, held: Option<Cause>) returns (failure: Option<Cause>)
      requires Valid()
      modifies this, lease
      ensures Valid()
      ensures state == Entered(old(state), old(Cut(callback)), held)
      ensures failure == match state case Rejected(cause) => Some(cause) case _ => None
      ensures old(state) != Ready ==> lease.state == old(lease.state)
      ensures trace == old(trace) + Logged(old(state), old(Cut(callback)), held)
      ensures failure.None? <==> held.None? && (old(state).Authorized? || old(CutsOver(callback)))
      ensures failure.None? ==> state == if old(state) == Ready then Authorized(callback.outcome.value) else old(state)
      ensures failure.Some? ==> state == Rejected(failure.value)
      ensures old(state).Rejected? ==> state == old(state)
    {
      LoggedFollowsState(trace, state, Cut(callback), held);
      trace := trace + Logged(state, Cut(callback), held);
      if state.Rejected? { return Some(state.cause); }
      if state == Ready {
        var cut := lease.Consume(callback);
        if cut.Err? {
          state := Rejected(cut.error);
          return Some(cut.error);
        }
        state := Authorized(cut.value);
      }
      if held.Some? { state := Rejected(held.value); }
      return held;
    }

    /** Later writes of one stream: only an authority already closed or revoked refuses. */
    method ContinueMutation(callback: Callback, held: Option<Cause>) returns (failure: Option<Cause>)
      requires Valid()
      modifies this, lease
      ensures Valid()
      ensures state == Entered(old(state), old(Cut(callback)), held)
      ensures failure == match state case Rejected(cause) => Some(cause) case _ => None
      ensures old(state) != Ready ==> lease.state == old(lease.state)
      ensures trace == old(trace) + Logged(old(state), old(Cut(callback)), held)
      ensures failure.None? <==> held.None? && (old(state).Authorized? || old(CutsOver(callback)))
      ensures failure.None? ==> state == if old(state) == Ready then Authorized(callback.outcome.value) else old(state)
      ensures failure.Some? ==> state == Rejected(failure.value)
      ensures old(state).Rejected? ==> state == old(state)
    {
      if state == Ready {
        failure := AuthorizeMutation(callback, held);
        return;
      }
      LoggedFollowsState(trace, state, Cut(callback), held);
      trace := trace + Logged(state, Cut(callback), held);
      if state.Rejected? { return Some(state.cause); }
      if held.Some? { state := Rejected(held.value); }
      return held;
    }

    /** One mutation of the workspace; the environment allows it only through an open gate. */
    ghost method Mutate()
      requires Valid() && state.Authorized?
      modifies this`trace
      ensures Valid() && trace == old(trace) + [Mutated]
    {
      PhaseStep(trace, Mutated);
      trace := trace + [Mutated];
    }
  }
}
