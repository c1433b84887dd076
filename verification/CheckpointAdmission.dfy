/** The admission object: its fields and its methods, each proved against the transition it carries out. */
module CheckpointAdmission {
  import opened Wrappers
  import Laws = AdmissionLaws
  import M = AdmissionModel

  class Admission {
    const host: M.Host
    var state: M.Authority
    var proposal: Option<M.Proposal>
    var preparing: Option<nat>
    var leases: map<nat, nat>
    var next: nat

    function Now(): M.State reads this {
      M.State(state, proposal, preparing, leases, next)
    }

    /** A proposal implies live authority, and every identity in use was handed out before. */
    ghost predicate Valid() reads this {
      M.Sound(Now())
    }

    /** No lease handed out so far authorizes a capture, now or ever again. */
    ghost predicate LeasesOver() reads this {
      forall l :: l in leases ==> M.LeaseOver(host, Now(), l)
    }

    constructor (host: M.Host)
      ensures Now() == M.INITIAL && this.host == host && Valid()
    {
      this.host, state, proposal, preparing, leases, next := host, M.Closed, None, None, map[], 0;
    }

    method InvalidateLifecycle()
      modifies this`preparing
      ensures preparing == None
    {
      preparing := None;
    }

    method Close()
      modifies this`proposal, this`state
      ensures Now() == M.Close(old(Now()))
    {
      proposal, state := None, M.Closed;
    }

    /** Drop all authority; nothing handed out before is ever current again. */
    method Reset()
      requires Valid()
      modifies this
      ensures Valid() && M.OnlyFresh(old(Now()), Now()) && LeasesOver()
      ensures Now() == M.Reset(old(Now())) && Laws.Dropped(old(Now()), Now())
      ensures old(preparing).Some? ==> M.PermitOver(host, Now(), old(preparing).value)
      ensures old(state).Arrival? ==> M.ArrivalOver(host, Now(), old(state).attempt.id)
    {
      M.StepIsFresh(host, Now(), M.DoReset);
      InvalidateLifecycle();
      Close();
      M.StaleIsOver(host, Now());
    }

    method RetireProposal() returns (retired: bool)
      modifies this`proposal
      ensures proposal == None && retired == old(proposal).Some?
    {
      retired := proposal.Some?;
      proposal := None;
    }

    method FinishPreparation(permit: nat)
      modifies this`preparing
      ensures Now() == M.FinishPreparation(old(Now()), permit)
    {
      if preparing != Some(permit) { return; }
      preparing := None;
    }

    /** An older proposal is ambiguous: retire it and refuse this preparation. */
    method BeginPreparation() returns (permit: Option<nat>)
      requires Valid()
      modifies this
      ensures Valid() && M.OnlyFresh(old(Now()), Now())
      ensures (Now(), permit) == M.BeginPreparation(old(Now()))
      ensures permit.Some? ==> proposal.None? && preparing == permit && permit.value >= old(next)
      ensures Laws.PreparationBegins(old(Now()), Now(), permit)
    {
      Laws.PreparationLaw(Now());
      M.StepIsFresh(host, Now(), M.DoBegin);
      if preparing.Some? { return None; }
      var drawn := next;
      next := next + 1;
      preparing := Some(drawn);
      var retired := RetireProposal();
      if retired {
        FinishPreparation(drawn);
        return None;
      }
      return Some(drawn);
    }

    method Propose(plan: M.Plan) returns (r: M.TreeResult)
      modifies this`proposal
      ensures (Now(), r) == M.Propose(old(Now()), plan)
    {
      if !state.IsLive? { return M.WasClosed; }
      if proposal.Some? {
        proposal := None;
        return M.RetiredConflict;
      }
      proposal := Some(M.Proposal(plan, state.live));
      return M.Accepted;
    }

    /** The action of a tree preparation settled; a cut-short preparation publishes nothing. */
    method FinishTreePreparation(permit: nat, outcome: Option<M.Plan>) returns (r: M.TreeResult)
      requires Valid()
      modifies this
      ensures Valid() && M.OnlyFresh(old(Now()), Now())
      ensures (Now(), r) == M.FinishTree(old(Now()), permit, outcome)
      ensures r == M.Accepted <==> proposal.Some? && proposal != old(proposal)
      ensures r == M.Accepted ==> old(preparing) == Some(permit) && state.IsLive? && outcome.Some?
                                  && proposal == Some(M.Proposal(outcome.value, state.live))
      ensures permit < next ==> M.PermitOver(host, Now(), permit)
      ensures Laws.TreeMeans(old(Now()), Now(), permit, outcome, r)
    {
      Laws.TreeLaw(Now(), permit, outcome);
      M.StepIsFresh(host, Now(), M.DoFinishTree(permit, outcome));
      if preparing != Some(permit) {
        r := M.Stale;
      } else if outcome.None? {
        r := M.Cancelled;
      } else {
        r := Propose(outcome.value);
      }
      FinishPreparation(permit);
      M.StaleIsOver(host, Now());
    }

    method RejectTransitionConflict() returns (r: bool)
      requires Valid()
      modifies this`proposal
      ensures Valid() && M.OnlyFresh(old(Now()), Now())
      ensures (Now(), r) == M.RejectTransitionConflict(old(Now()))
      ensures r <==> Laws.OwnedByTransition(old(Now())) || old(proposal).Some?
      ensures proposal == if Laws.OwnedByTransition(old(Now())) then old(proposal) else None
    {
      if preparing.Some? || state.Arrival? { return true; }
      r := RetireProposal();
    }

    method GoLive(view: M.View, location: M.Location)
      modifies this`state, this`next
      ensures Now() == M.GoLive(old(Now()), view, location)
    {
      state, next := M.IsLive(M.Live(next, view, location)), next + 1;
    }

    /** Replace ordinary live authority; the old one is gone before the new snapshot is read. */
    method ClaimOrdinaryMutation(view: M.View, node: Option<M.NodeKey>) returns (r: M.Claim)
      requires Valid()
      modifies this
      ensures Valid() && M.OnlyFresh(old(Now()), Now())
      ensures (Now(), r) == M.ClaimOrdinaryMutation(old(Now()), view, node)
      ensures r != M.TransitionConflict ==> LeasesOver()
      ensures r == M.Claimed ==> state.IsLive? && state.live.id >= old(next) && state.live.observation == view
      ensures Laws.ClaimMeans(old(Now()), Now(), view, node, r)
    {
      Laws.ClaimLaw(Now(), view, node);
      M.StepIsFresh(host, Now(), M.DoClaim(view, node));
      if preparing.Some? || state.Arrival? { return M.TransitionConflict; }
      var retired := RetireProposal();
      if retired { return M.TransitionConflict; }
      Reset();
      var location := M.LocationOf(view, node);
      if location.None? { return M.Raises; }
      if location.value.None? { return M.InvalidLocation; }
      GoLive(view, location.value.value);
      M.StaleIsOver(host, Now());
      return M.Claimed;
    }

    /** Suspend live authority inside a fresh one-shot attempt. */
    method BeginTreeArrival() returns (attempt: M.Attempt)
      requires Valid()
      modifies this
      ensures Valid() && M.OnlyFresh(old(Now()), Now()) && LeasesOver()
      ensures (Now(), attempt) == M.BeginTreeArrival(old(Now()))
      ensures attempt.id >= old(next) && M.ArrivalIsCurrent(Now(), attempt.id)
      ensures old(preparing).Some? ==> M.PermitOver(host, Now(), old(preparing).value)
      ensures old(state).Arrival? ==> M.ArrivalOver(host, Now(), old(state).attempt.id)
      ensures Laws.BeginsArrival(old(Now()), Now(), attempt)
    {
      Laws.BeginLaw(Now());
      M.StepIsFresh(host, Now(), M.DoBeginArrival);
      InvalidateLifecycle();
      var pending := if state.IsLive? then proposal else None;
      var source := if pending.Some? then Some(pending.value.source)
                    else if state.IsLive? then Some(state.live) else None;
      proposal := None;
      attempt := M.Attempt(next, if pending.Some? then Some(pending.value.plan) else None);
      state, next := M.Arrival(attempt, source), next + 1;
      M.StaleIsOver(host, Now());
    }

    method CloseArrival(attempt: nat) returns (closed: bool)
      requires Valid()
      modifies this
      ensures Valid() && M.OnlyFresh(old(Now()), Now())
      ensures Now() == M.CloseArrival(old(Now()), attempt) && (closed <==> Laws.IsCurrent(old(Now()), attempt))
      ensures if closed then Laws.Dropped(old(Now()), Now()) else Now() == old(Now())
      ensures attempt < next ==> M.ArrivalOver(host, Now(), attempt)
    {
      M.StaleIsOver(host, Now());
      if !M.ArrivalIsCurrent(Now(), attempt) { return false; }
      Reset();
      return true;
    }

    /** Whether it settles or not, the attempt is used up. */
    method SettleArrival(attempt: nat, view: M.View, node: Option<M.NodeKey>) returns (settled: bool)
      requires Valid()
      modifies this
      ensures Valid() && M.OnlyFresh(old(Now()), Now())
      ensures (Now(), settled) == M.SettleArrival(old(Now()), attempt, view, node)
      ensures attempt < next ==> M.ArrivalOver(host, Now(), attempt)
      ensures settled ==> M.ArrivalIsCurrent(old(Now()), attempt) && state.IsLive? && state.live.id >= old(next)
                          && state.live.observation == view && LeasesOver()
      ensures Laws.SettleMeans(old(Now()), Now(), attempt, view, node, settled)
    {
      Laws.SettleLaw(Now(), attempt, view, node);
      M.StepIsFresh(host, Now(), M.DoSettleArrival(attempt, view, node));
      M.StaleIsOver(host, M.Next(host, Now(), M.DoSettleArrival(attempt, view, node)));
      if !M.ArrivalIsCurrent(Now(), attempt) { return false; }
      var location := M.LocationOf(view, node);
      if location.None? {
        Reset();
        return false;
      }
      InvalidateLifecycle();
      if location.value.None? {
        Close();
        return false;
      }
      GoLive(view, location.value.value);
      return true;
    }

    method AdmitArrival(attempt: nat, view: M.View, node: Option<M.NodeKey>) returns (admitted: Option<bool>)
      requires Valid()
      modifies this
      ensures Valid() && M.OnlyFresh(old(Now()), Now())
      ensures admitted.Some? && attempt < next ==> M.ArrivalOver(host, Now(), attempt)
      ensures admitted == Some(true) ==> LeasesOver()
      ensures (Now(), admitted) == M.AdmitArrival(host, old(Now()), attempt, view, node)
      ensures Laws.AdmitMeans(host, old(Now()), Now(), attempt, view, node, admitted)
    {
      Laws.AdmitLaw(host, Now(), attempt, view, node);
      var proceeds := M.ArrivalCanProceed(host, Now(), attempt, view, node);
      if proceeds.None? { return None; }
      if !proceeds.value {
        var closed := CloseArrival(attempt);
        return Some(false);
      }
      var settled := SettleArrival(attempt, view, node);
      return Some(settled);
    }

    method CarryArrival(attempt: nat, view: M.View, node: Option<M.NodeKey>) returns (carried: bool)
      requires Valid()
      modifies this
      ensures Valid() && M.OnlyFresh(old(Now()), Now())
      ensures attempt < next ==> M.ArrivalOver(host, Now(), attempt)
      ensures carried ==> LeasesOver()
      ensures (Now(), carried) == M.CarryArrival(host, old(Now()), attempt, view, node)
      ensures Laws.CarryArrivalMeans(host, old(Now()), Now(), attempt, view, node, carried)
    {
      Laws.CarryArrivalLaw(host, Now(), attempt, view, node);
      var source := if M.ArrivalIsCurrent(Now(), attempt) then state.source else None;
      if source.None? || M.NodeMatches(view, node) != Some(true)
         || source.value.location.entryId != M.EntryOf(node) || !M.Extends(host, source.value.observation, view) {
        var closed := CloseArrival(attempt);
        return false;
      }
      carried := SettleArrival(attempt, view, node);
    }

    method Carry(view: M.View, node: Option<M.NodeKey>) returns (carried: bool)
      requires Valid()
      modifies this
      ensures Valid() && M.OnlyFresh(old(Now()), Now())
      ensures (Now(), carried) == M.Carry(host, old(Now()), view, node)
      ensures Laws.CarryMeans(host, old(Now()), Now(), view, node, carried)
    {
      Laws.CarryLaw(host, Now(), view, node);
      M.StepIsFresh(host, Now(), M.DoCarry(view, node));
      if !state.IsLive? { return false; }
      if M.NodeMatches(view, node) != Some(true) || state.live.location.entryId != M.EntryOf(node)
         || !M.Extends(host, state.live.observation, view) {
        Reset();
        return false;
      }
      // An extension has a session file and the node matches, so the location is there.
      var location := M.LocationOf(view, node);
      if location.None? || location.value.None? { assert false; }
      GoLive(view, location.value.value);
      return true;
    }

    method IssueLease() returns (lease: nat)
      requires state.IsLive?
      modifies this`leases, this`next
      ensures (Now(), M.Capture(lease)) == M.Issue(old(Now())) && M.Holds(Now(), lease)
    {
      lease := next;
      leases, next := leases[lease := state.live.id], next + 1;
    }

    method DecideAt(view: M.View, node: Option<M.NodeKey>, writeProtected: bool) returns (d: M.Decision)
      requires Valid()
      modifies this
      ensures Valid() && M.OnlyFresh(old(Now()), Now())
      ensures (Now(), d) == M.DecideAt(host, old(Now()), view, node, writeProtected)
    {
      M.DecideAtIsFresh(host, Now(), view, node, writeProtected);
      if !state.IsLive? { return M.NotAdmitted; }
      var live := state.live;
      if node.None? {
        if live.location.leafId == view.leafId && live.location.entryId == None { return M.NoCoordinate; }
        Reset();
        return M.NotAdmitted;
      }
      if live.location.leafId != view.leafId || live.location.entryId != Some(node.value.entryId) {
        if !M.NaturalDescendant(host, live.observation, live.location.entryId, view, node.value.entryId) {
          Reset();
          return M.NotAdmitted;
        }
        var location := M.LocationOf(view, node);
        if location.None? || location.value.None? {
          Reset();
          return M.NotAdmitted;
        }
        GoLive(view, location.value.value);
      }
      if writeProtected { return M.WriteProtected; }
      var lease := IssueLease();
      return M.Capture(lease);
    }

    /** A granted capture is for this very snapshot and node, under a lease nobody held before. */
    method DecideCapture(view: M.View, node: Option<M.NodeKey>, writeProtected: bool) returns (d: M.Decision)
      requires Valid()
      modifies this
      ensures Valid() && M.OnlyFresh(old(Now()), Now())
      ensures (Now(), d) == M.DecideCapture(host, old(Now()), view, node, writeProtected)
      ensures d.Capture? && M.Reflexive(host) ==>
                && !writeProtected && node.Some? && d.lease !in old(leases)
                && M.LeaseIsCurrent(host, Now(), d.lease, view, node.value)
      ensures Laws.DecisionAnswers(host, old(Now()), view, node, writeProtected, d)
      ensures Laws.DecisionChanges(host, old(Now()), Now(), view, node, d)
    {
      Laws.DecisionMeans(host, Now(), view, node, writeProtected);
      M.DecideIsFresh(host, Now(), view, node, writeProtected);
      if M.Reflexive(host) { M.GrantedLeaseIsCurrent(host, Now(), view, node, writeProtected); }
      if !state.IsLive? { return M.NotAdmitted; }
      if !M.SameSession(host, state.live.observation, view) || M.NodeMatches(view, node) != Some(true)
         || !M.Extends(host, state.live.observation, view) {
        Reset();
        return M.NotAdmitted;
      }
      var here := state.live.location;
      if here.leafId != view.leafId && here.entryId == M.EntryOf(node) {
        var carried := Carry(view, node);
        if !carried { return M.NotAdmitted; }
      }
      d := DecideAt(view, node, writeProtected);
    }

    /** Whether a lease still authorizes a capture of this snapshot and node. */
    method LeaseIsCurrent(lease: nat, view: M.View, node: M.NodeKey) returns (current: bool)
      ensures current <==> Laws.AuthorizesAt(host, Now(), lease, view, node)
    {
      if lease !in leases || !state.IsLive? || leases[lease] != state.live.id { return false; }
      current := M.SameSession(host, state.live.observation, view) && M.Extends(host, state.live.observation, view)
                 && M.NodeMatches(view, Some(node)) == Some(true)
                 && state.live.location.leafId == view.leafId && state.live.location.entryId == Some(node.entryId);
    }

    method CutoverMutation(view: M.View, node: Option<M.NodeKey>) returns (crossed: bool)
      requires Valid()
      modifies this
      ensures Valid() && M.OnlyFresh(old(Now()), Now())
      ensures (Now(), crossed) == M.CutoverMutation(host, old(Now()), view, node)
      ensures crossed ==> host.sameSnapshot(view, old(state).live.observation) && state == M.Closed && LeasesOver()
      ensures Laws.CutoverMeans(host, old(Now()), Now(), view, node, crossed)
    {
      Laws.CutoverLaw(host, Now(), view, node);
      if !state.IsLive? || !M.SameSession(host, state.live.observation, view)
         || !host.sameSnapshot(view, state.live.observation) { return false; }
      var location := M.LocationOf(view, node);
      if location.None? || location.value.None? { return false; }
      Reset();
      return true;
    }

    method CutoverArrivalMutation(attempt: nat, view: M.View, node: Option<M.NodeKey>) returns (crossed: Option<bool>)
      requires Valid()
      modifies this
      ensures Valid() && M.OnlyFresh(old(Now()), Now())
      ensures (Now(), crossed) == M.CutoverArrivalMutation(host, old(Now()), attempt, view, node)
      ensures crossed == Some(true) ==> M.ArrivalIsCurrent(old(Now()), attempt) && M.ArrivalOver(host, Now(), attempt)
      ensures Laws.CutoverArrivalMeans(host, old(Now()), Now(), attempt, view, node, crossed)
    {
      Laws.CutoverArrivalLaw(host, Now(), attempt, view, node);
      var proceeds := M.ArrivalCanProceed(host, Now(), attempt, view, node);
      if proceeds.None? { return None; }
      var location := M.LocationOf(view, node);
      if !proceeds.value || location.None? || location.value.None? { return Some(false); }
      Reset();
      return Some(true);
    }
  }
}
