/** Taking an ordered set of workspace locks, running one action under them, and giving them all back. */
module OrderedLocks {
  import opened Wrappers
  import opened LockOrder

  type Loss = nat

  datatype AuthorityPhase = Active | Revoked(cause: Loss) | Closed(cause: Loss)

  /** Write authority over one locked store. */
  class Authority {
    const binding: Binding
    var phase: AuthorityPhase

    constructor (binding: Binding)
      ensures this.binding == binding && phase == Active
    {
      this.binding, phase := binding, Active;
    }

    /** The first loss sticks; a later one reports it. */
    method Revoke(cause: Loss) returns (loss: Loss)
      modifies this
      ensures phase == if old(phase) == Active then Revoked(cause) else old(phase)
      ensures phase != Active && loss == phase.cause
    {
      if phase != Active { return phase.cause; }
      phase := Revoked(cause);
      return cause;
    }

    method Close(cause: Loss)
      modifies this
      ensures phase == match old(phase) case Active => Closed(cause) case Revoked(c) => Closed(c) case Closed(c) => Closed(c)
    {
      if phase.Closed? { return; }
      phase := Closed(if phase.Revoked? then phase.cause else cause);
    }

    /** Re-verify before one durable write; a failed verification revokes for good. */
    method AssertHeld(verifies: bool, cause: Loss) returns (failure: Option<Loss>)
      modifies this
      ensures failure.None? <==> old(phase) == Active && verifies
      ensures failure.None? ==> phase == Active
      ensures failure.Some? ==> phase != Active && failure.value == phase.cause
      ensures old(phase) != Active ==> phase == old(phase)
    {
      if phase != Active { return Some(phase.cause); }
      if verifies { return None; }
      var loss := Revoke(cause);
      return Some(loss);
    }
  }

  datatype Event = Took(binding: Binding) | RanAction | ClosedAuthority(binding: Binding)
                 | Gave(binding: Binding) | KeptByFailure(binding: Binding)

  datatype Member<T> = Member(target: Target<T>, authority: Authority)

  datatype Outcome = Completed | ActionFailed | AcquisitionFailed(at: nat)

  /** Which members could not be released cleanly. */
  datatype Execution = Execution(outcome: Outcome, unreleased: seq<Binding>)

  function TookAll<T>(targets: seq<Target<T>>): seq<Event> {
    if targets == [] then [] else TookAll(targets[..|targets| - 1]) + [Took(targets[|targets| - 1].binding)]
  }

  function ClosedAll<T>(targets: seq<Target<T>>): seq<Event> {
    if targets == [] then [] else ClosedAll(targets[..|targets| - 1]) + [ClosedAuthority(targets[|targets| - 1].binding)]
  }

  /** Last taken, first given back; `clean` says whose release succeeds. */
  function GaveAll<T>(targets: seq<Target<T>>, clean: seq<bool>): seq<Event>
    requires |clean| == |targets|
  {
    if targets == [] then []
    else
      var b := targets[0].binding;
      GaveAll(targets[1..], clean[1..]) + [if clean[0] then Gave(b) else KeptByFailure(b)]
  }

  /** The bindings whose release fails, last taken first. */
  function Unreleased<T>(targets: seq<Target<T>>, clean: seq<bool>): seq<Binding>
    requires |clean| == |targets|
  {
    if targets == [] then []
    else Unreleased(targets[1..], clean[1..]) + if clean[0] then [] else [targets[0].binding]
  }

  function TargetsOf<T>(members: seq<Member<T>>): seq<Target<T>> {
    seq(|members|, i requires 0 <= i < |members| => members[i].target)
  }

  ghost predicate AllClosed<T>(members: seq<Member<T>>)
    reads set i | 0 <= i < |members| :: members[i].authority
  {
    forall i :: 0 <= i < |members| ==> members[i].authority.phase.Closed?
  }

  ghost function AuthoritiesOf<T>(members: seq<Member<T>>): set<Authority> {
    set i | 0 <= i < |members| :: members[i].authority
  }

  method CloseAll<T>(members: seq<Member<T>>) returns (ghost log: seq<Event>)
    modifies AuthoritiesOf(members)
    ensures AllClosed(members) && log == ClosedAll(TargetsOf(members))
  {
    ghost var targets := TargetsOf(members);
    log := [];
    for n := 0 to |members|
      invariant forall i :: 0 <= i < n ==> members[i].authority.phase.Closed?
      invariant log == ClosedAll(targets[..n])
    {
      assert members[n].authority in AuthoritiesOf(members);
      var cause: Loss := *;
      members[n].authority.Close(cause);
      assert targets[..n + 1][..n] == targets[..n];
      log := log + [ClosedAuthority(members[n].target.binding)];
    }
    assert targets[..|members|] == targets;
  }

  /** Close every authority first, then release in reverse; a failing release does not stop the others. */
  method ReleaseOrdered<T>(members: seq<Member<T>>)
    returns (unreleased: seq<Binding>, ghost log: seq<Event>, ghost clean: seq<bool>)
    modifies AuthoritiesOf(members)
    ensures AllClosed(members) && |clean| == |members|
    ensures log == ClosedAll(TargetsOf(members)) + GaveAll(TargetsOf(members), clean)
    ensures unreleased == Unreleased(TargetsOf(members), clean)
  {
    ghost var targets := TargetsOf(members);
    ghost var closing := CloseAll(members);
    ghost var giving: seq<Event> := [];
    unreleased, clean := [], [];
    var left := |members|;
    while left > 0
      invariant 0 <= left <= |members| && AllClosed(members) && |clean| == |members| - left
      invariant giving == GaveAll(targets[left..], clean)
      invariant unreleased == Unreleased(targets[left..], clean)
    {
      left := left - 1;
      assert targets[left..][1..] == targets[left + 1..];
      var fails: bool := *;
      var b := members[left].target.binding;
      ghost var before := clean;
      clean := [!fails] + clean;
      assert clean[1..] == before;
      if fails { unreleased := unreleased + [b]; }
      giving := giving + [if fails then KeptByFailure(b) else Gave(b)];
    }
    assert targets[0..] == targets;
    log := closing + giving;
  }

  /** Take every lock in order; stop at the first that fails or is not the store it was ordered as. */
  method AcquireOrdered<T>(targets: seq<Target<T>>) returns (members: seq<Member<T>>, failed: Option<nat>, ghost log: seq<Event>)
    requires Increasing(targets)
    ensures |members| <= |targets| && TargetsOf(members) == targets[..|members|] && log == TookAll(targets[..|members|])
    ensures forall i :: 0 <= i < |members| ==> fresh(members[i].authority)
    ensures failed.None? ==> |members| == |targets|
                             && forall i :: 0 <= i < |members| ==> SameBinding(members[i].authority.binding, targets[i].binding)
    ensures failed.Some? ==> failed.value < |targets| && failed.value <= |members| <= failed.value + 1
  {
    members, log := [], [];
    for n := 0 to |targets|
      invariant |members| == n && log == TookAll(targets[..n])
      invariant forall i :: 0 <= i < n ==> members[i].target == targets[i] && fresh(members[i].authority)
      invariant forall i :: 0 <= i < n ==> SameBinding(members[i].authority.binding, targets[i].binding)
    {
      var fails: bool := *;
      if fails { return members, Some(n), log; }
      var found: Binding := *;
      var authority := new Authority(found);
      members := members + [Member(targets[n], authority)];
      assert targets[..n + 1][..n] == targets[..n];
      log := log + [Took(targets[n].binding)];
      if !SameBinding(found, targets[n].binding) { return members, Some(n), log; }
    }
    assert targets[..|targets|] == targets;
    return members, None, log;
  }

  /** What a run logs once `taken` locks are held. */
  ghost function RunLog<T>(held: seq<Target<T>>, ran: bool, clean: seq<bool>): seq<Event>
    requires |clean| == |held|
  {
    TookAll(held) + (if ran then [RanAction] else []) + ClosedAll(held) + GaveAll(held, clean)
  }

  /**
   * Whatever fails, every lock taken is released once, in reverse order, after every authority was closed;
   * the action runs only with all of them held.
   */
  method RunWithOrderedLocks<T>(targets: seq<Target<T>>)
    returns (r: Execution, ghost log: seq<Event>, ghost taken: nat, ghost members: seq<Member<T>>, ghost clean: seq<bool>)
    requires Increasing(targets)
    ensures taken <= |targets| && TargetsOf(members) == targets[..taken] && AllClosed(members) && |clean| == taken
    ensures forall i :: 0 <= i < |members| ==> fresh(members[i].authority)
    ensures log == RunLog(targets[..taken], !r.outcome.AcquisitionFailed?, clean)
    ensures !r.outcome.AcquisitionFailed? ==> taken == |targets|
    ensures r.outcome.AcquisitionFailed? ==> r.outcome.at < |targets| && r.outcome.at <= taken <= r.outcome.at + 1
    ensures r.unreleased == Unreleased(targets[..taken], clean)
  {
    var acquired, failed;
    ghost var tookLog, gaveLog;
    acquired, failed, tookLog := AcquireOrdered(targets);
    taken, members := |acquired|, acquired;
    var outcome := Completed;
    log := tookLog;
    if failed.Some? {
      outcome := AcquisitionFailed(failed.value);
    } else {
      log := log + [RanAction];
      var actionFails: bool := *;
      if actionFails { outcome := ActionFailed; }
      for n := 0 to |acquired|
      {
        var verifies: bool, cause: Loss := *, *;
        var failure := acquired[n].authority.AssertHeld(verifies, cause);
      }
    }
    var unreleased;
    unreleased, gaveLog, clean := ReleaseOrdered(acquired);
    log := log + gaveLog;
    r := Execution(outcome, unreleased);
  }

  lemma {:induction false} TookInOrder<T>(targets: seq<Target<T>>, i: nat)
    requires i < |targets|
    ensures |TookAll(targets)| == |ClosedAll(targets)| == |targets|
    ensures TookAll(targets)[i] == Took(targets[i].binding) && ClosedAll(targets)[i] == ClosedAuthority(targets[i].binding)
  {
    var front := targets[..|targets| - 1];
    if front != [] { TookInOrder(front, if i < |front| then i else 0); }
  }

  lemma {:induction false} GaveInReverse<T>(targets: seq<Target<T>>, clean: seq<bool>, i: nat)
    requires i < |targets| == |clean|
    ensures |GaveAll(targets, clean)| == |targets|
    ensures GaveAll(targets, clean)[|targets| - 1 - i]
            == if clean[i] then Gave(targets[i].binding) else KeptByFailure(targets[i].binding)
  {
    if |targets| > 1 { GaveInReverse(targets[1..], clean[1..], if i > 0 then i - 1 else 0); }
  }

  /**
   * One whole run read back: with n locks taken, the i-th taken is the i-th closed and the (n-1-i)-th released,
   * and every close comes before every release.
   */
  lemma GivenBackInReverse<T>(held: seq<Target<T>>, ran: bool, clean: seq<bool>, i: nat)
    requires i < |held| == |clean|
    ensures var log, n, k := RunLog(held, ran, clean), |held|, if ran then 1 else 0;
            && |log| == 3 * n + k
            && log[i] == Took(held[i].binding) && log[n + k + i] == ClosedAuthority(held[i].binding)
            && log[3 * n + k - 1 - i] == if clean[i] then Gave(held[i].binding) else KeptByFailure(held[i].binding)
  {
    TookInOrder(held, i);
    GaveInReverse(held, clean, i);
  }

  /** The reported failures are exactly the locks kept by a failing release. */
  lemma {:induction false} UnreleasedExactly<T>(targets: seq<Target<T>>, clean: seq<bool>, b: Binding)
    requires |clean| == |targets|
    ensures b in Unreleased(targets, clean) <==> exists i :: 0 <= i < |targets| && !clean[i] && targets[i].binding == b
    ensures b in Unreleased(targets, clean) <==> KeptByFailure(b) in GaveAll(targets, clean)
  {
    if targets != [] {
      UnreleasedExactly(targets[1..], clean[1..], b);
      if i :| 0 <= i < |targets| && !clean[i] && targets[i].binding == b {
        if i > 0 { assert targets[1..][i - 1] == targets[i] && !clean[1..][i - 1]; }
      }
    }
  }
}
