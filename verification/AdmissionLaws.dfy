/** What every admission operation answers and changes, said without the transitions' own code. */
module AdmissionLaws {
  import opened Wrappers
  import opened AdmissionModel

  /** The snapshot's coordinate is this node's, or the root for none. */
  ghost predicate Anchors(view: View, node: Option<NodeKey>) {
    match node
    case None => view.coordinate == Stable(None)
    case Some(key) => view.coordinate == Stable(Some(key.entryId)) && key.sessionId == view.sessionId
  }

  /** It also belongs to a session file, so authority may live there. */
  ghost predicate StandsAt(view: View, node: Option<NodeKey>) {
    view.sessionFile.Some? && Anchors(view, node)
  }

  ghost function Place(view: View, node: Option<NodeKey>): Location {
    Location(view.leafId, match node case None => None case Some(key) => Some(key.entryId))
  }

  /** The snapshot stands at the node, in the same session, and only adds to what the authority observed. */
  ghost predicate Continues(h: Host, from: Live, view: View, node: Option<NodeKey>) {
    StandsAt(view, node) && h.sameIdentity(view, from.observation) && h.appendOnly(view, from.observation)
  }

  /** The authority already stands at the entry, or the entry descends from where it stands. */
  ghost predicate Reaches(h: Host, from: Live, view: View, entry: EntryId) {
    from.location.entryId == Some(entry) || h.descendant(view, from.location.entryId, from.observation, entry)
  }

  /** No authority, proposal or preparation is left. */
  ghost predicate Dropped(s: State, t: State) {
    t.authority == Closed && t.proposal.None? && t.preparing.None? && t.leases == s.leases && t.next == s.next
  }

  ghost predicate IsCurrent(s: State, attempt: nat) {
    s.authority.Arrival? && s.authority.attempt.id == attempt
  }

  /** Authority under a new identity, for this snapshot at this node. */
  ghost predicate FreshLive(s: State, t: State, view: View, node: Option<NodeKey>) {
    && t.authority.IsLive? && t.authority.live.id >= s.next
    && t.authority.live.observation == view && t.authority.live.location == Place(view, node)
  }

  ghost predicate GoesLive(s: State, t: State, view: View, node: Option<NodeKey>) {
    FreshLive(s, t, view, node) && t.proposal.None? && t.preparing.None? && t.leases == s.leases
  }

  // ---- Capture ----

  ghost predicate MayDecide(h: Host, s: State, view: View, node: Option<NodeKey>) {
    s.authority.IsLive? && Continues(h, s.authority.live, view, node)
  }

  /** A capture, or a refusal by write protection, exactly where live authority reaches; the root has no coordinate. */
  ghost predicate DecisionAnswers(h: Host, s: State, view: View, node: Option<NodeKey>, writeProtected: bool, d: Decision) {
    var reached := MayDecide(h, s, view, node) && node.Some? && Reaches(h, s.authority.live, view, node.value.entryId);
    var atRoot := MayDecide(h, s, view, node) && node.None? && s.authority.live.location.entryId.None?;
    && (d.Capture? <==> reached && !writeProtected)
    && (d.WriteProtected? <==> reached && writeProtected)
    && (d.NoCoordinate? <==> atRoot)
    && (d.NotAdmitted? <==> !reached && !atRoot)
  }

  /** Authority that is already at the place stays; otherwise it moves there under a new identity. */
  ghost predicate MovesTo(s: State, t: State, view: View, node: Option<NodeKey>)
    requires s.authority.IsLive?
  {
    && t.proposal == s.proposal && t.preparing == s.preparing
    && if s.authority.live.location == Place(view, node) then t.authority == s.authority else FreshLive(s, t, view, node)
  }

  ghost predicate DecisionChanges(h: Host, s: State, t: State, view: View, node: Option<NodeKey>, d: Decision) {
    match d
    case NotAdmitted => if s.authority.IsLive? then Dropped(s, t) else t == s
    case Capture(lease) =>
      && s.authority.IsLive? && MovesTo(s, t, view, node)
      && lease >= s.next && t.leases == s.leases[lease := t.authority.live.id]
    case _ => s.authority.IsLive? && MovesTo(s, t, view, node) && t.leases == s.leases
  }

  /** Where the authority stands already, the decision needs no move. */
  lemma DecisionInPlace(h: Host, s: State, view: View, node: Option<NodeKey>, writeProtected: bool)
    requires Sound(s) && MayDecide(h, s, view, node) && s.authority.live.location == Place(view, node)
    ensures var (t, d) := DecideAt(h, s, view, node, writeProtected);
            DecisionAnswers(h, s, view, node, writeProtected, d) && DecisionChanges(h, s, t, view, node, d)
  { }

  /** A label or raw leaf that moved around the same entry is followed first. */
  lemma CarriesToPlace(h: Host, s: State, view: View, node: Option<NodeKey>)
    requires Sound(s) && MayDecide(h, s, view, node) && s.authority.live.location.entryId == Place(view, node).entryId
    ensures var (t, carried) := Carry(h, s, view, node);
            carried && Sound(t) && FreshLive(s, t, view, node) && t.next == s.next + 1
            && t.proposal == s.proposal && t.preparing == s.preparing && t.leases == s.leases
  { }

  lemma DecisionByDescent(h: Host, s: State, view: View, node: Option<NodeKey>, writeProtected: bool)
    requires Sound(s) && MayDecide(h, s, view, node) && s.authority.live.location.entryId != Place(view, node).entryId
    ensures var (t, d) := DecideAt(h, s, view, node, writeProtected);
            DecisionAnswers(h, s, view, node, writeProtected, d) && DecisionChanges(h, s, t, view, node, d)
  { }

  lemma DecisionAfterCarry(h: Host, s: State, view: View, node: Option<NodeKey>, writeProtected: bool)
    requires Sound(s) && MayDecide(h, s, view, node) && s.authority.live.location.entryId == Place(view, node).entryId
    requires s.authority.live.location.leafId != view.leafId
    ensures var (t, d) := DecideCapture(h, s, view, node, writeProtected);
            DecisionAnswers(h, s, view, node, writeProtected, d) && DecisionChanges(h, s, t, view, node, d)
  {
    CarriesToPlace(h, s, view, node);
  }

  lemma DecisionMeans(h: Host, s: State, view: View, node: Option<NodeKey>, writeProtected: bool)
    requires Sound(s)
    ensures var (t, d) := DecideCapture(h, s, view, node, writeProtected);
            DecisionAnswers(h, s, view, node, writeProtected, d) && DecisionChanges(h, s, t, view, node, d)
  {
    if MayDecide(h, s, view, node) {
      var here := s.authority.live.location;
      if here.entryId != Place(view, node).entryId {
        DecisionByDescent(h, s, view, node, writeProtected);
      } else if here.leafId == view.leafId {
        DecisionInPlace(h, s, view, node, writeProtected);
      } else {
        DecisionAfterCarry(h, s, view, node, writeProtected);
      }
    }
  }

  /** Authority follows a moved label or raw leaf only around the entry it stands at. */
  ghost predicate CarryMeans(h: Host, s: State, t: State, view: View, node: Option<NodeKey>, carried: bool) {
    && (carried <==> MayDecide(h, s, view, node) && s.authority.live.location.entryId == Place(view, node).entryId)
    && if carried then FreshLive(s, t, view, node) && t.proposal == s.proposal && t.preparing == s.preparing && t.leases == s.leases
       else if s.authority.IsLive? then Dropped(s, t) else t == s
  }

  lemma CarryLaw(h: Host, s: State, view: View, node: Option<NodeKey>)
    requires Sound(s)
    ensures var (t, carried) := Carry(h, s, view, node); CarryMeans(h, s, t, view, node, carried)
  { }

  // ---- Mutations ----

  ghost predicate OwnedByTransition(s: State) {
    s.preparing.Some? || s.authority.Arrival?
  }

  ghost predicate ClaimMeans(s: State, t: State, view: View, node: Option<NodeKey>, r: Claim) {
    if OwnedByTransition(s) then r == TransitionConflict && t == s
    else if s.proposal.Some? then r == TransitionConflict && t == s.(proposal := None)
    else if StandsAt(view, node) then r == Claimed && GoesLive(s, t, view, node)
    else r == (if view.sessionFile.Some? && view.coordinate.Unreadable? then Raises else InvalidLocation) && Dropped(s, t)
  }

  lemma ClaimLaw(s: State, view: View, node: Option<NodeKey>)
    requires Sound(s)
    ensures var (t, r) := ClaimOrdinaryMutation(s, view, node); ClaimMeans(s, t, view, node, r)
  { }

  /** A live cutover crosses exactly at the very snapshot observed, and ends all authority. */
  ghost predicate CutoverMeans(h: Host, s: State, t: State, view: View, node: Option<NodeKey>, crossed: bool) {
    && (crossed <==> s.authority.IsLive? && StandsAt(view, node) && h.sameIdentity(view, s.authority.live.observation)
                     && h.sameSnapshot(view, s.authority.live.observation))
    && if crossed then Dropped(s, t) else t == s
  }

  lemma CutoverLaw(h: Host, s: State, view: View, node: Option<NodeKey>)
    ensures var (t, crossed) := CutoverMutation(h, s, view, node); CutoverMeans(h, s, t, view, node, crossed)
  { }

  // ---- Arrivals ----

  /** The live authority, and a proposal made from it, move into the attempt. */
  ghost predicate BeginsArrival(s: State, t: State, attempt: Attempt) {
    && t.authority.Arrival? && t.authority.attempt == attempt && attempt.id >= s.next
    && t.proposal.None? && t.preparing.None? && t.leases == s.leases
    && match s.authority
       case IsLive(live) =>
         && t.authority.source == Some(if s.proposal.Some? then s.proposal.value.source else live)
         && attempt.plan == (if s.proposal.Some? then Some(s.proposal.value.plan) else None)
       case _ => t.authority.source.None? && attempt.plan.None?
  }

  lemma BeginLaw(s: State)
    ensures var (t, attempt) := BeginTreeArrival(s); BeginsArrival(s, t, attempt)
  { }

  /** The attempt is current, and the snapshot continues what its source observed. */
  ghost predicate MayArrive(h: Host, s: State, attempt: nat, view: View, node: Option<NodeKey>) {
    IsCurrent(s, attempt) && s.authority.source.Some? && Continues(h, s.authority.source.value, view, node)
  }

  /** A settled attempt becomes live authority; one that does not settle is dropped if it was current. */
  ghost predicate Concludes(s: State, t: State, attempt: nat, view: View, node: Option<NodeKey>, settled: bool) {
    if settled then GoesLive(s, t, view, node)
    else if IsCurrent(s, attempt) then Dropped(s, t) else t == s
  }

  ghost predicate SettleMeans(s: State, t: State, attempt: nat, view: View, node: Option<NodeKey>, settled: bool) {
    (settled <==> IsCurrent(s, attempt) && StandsAt(view, node)) && Concludes(s, t, attempt, view, node, settled)
  }

  lemma SettleLaw(s: State, attempt: nat, view: View, node: Option<NodeKey>)
    requires Sound(s)
    ensures var (t, settled) := SettleArrival(s, attempt, view, node); SettleMeans(s, t, attempt, view, node, settled)
  { }

  /** Reading the snapshot of a current attempt with a source raises. */
  ghost predicate CannotRead(s: State, attempt: nat, view: View) {
    IsCurrent(s, attempt) && s.authority.source.Some? && view.coordinate.Unreadable?
  }

  ghost predicate AdmitMeans(h: Host, s: State, t: State, attempt: nat, view: View, node: Option<NodeKey>, r: Option<bool>) {
    if CannotRead(s, attempt, view) then r.None? && t == s
    else r == Some(MayArrive(h, s, attempt, view, node)) && Concludes(s, t, attempt, view, node, r.value)
  }

  lemma AdmitLaw(h: Host, s: State, attempt: nat, view: View, node: Option<NodeKey>)
    requires Sound(s)
    ensures var (t, r) := AdmitArrival(h, s, attempt, view, node); AdmitMeans(h, s, t, attempt, view, node, r)
  { }

  ghost predicate CarryArrivalMeans(h: Host, s: State, t: State, attempt: nat, view: View, node: Option<NodeKey>, carried: bool) {
    && (carried <==> MayArrive(h, s, attempt, view, node)
                     && s.authority.source.value.location.entryId == Place(view, node).entryId)
    && Concludes(s, t, attempt, view, node, carried)
  }

  lemma CarryArrivalLaw(h: Host, s: State, attempt: nat, view: View, node: Option<NodeKey>)
    requires Sound(s)
    ensures var (t, carried) := CarryArrival(h, s, attempt, view, node);
            CarryArrivalMeans(h, s, t, attempt, view, node, carried)
  { }

  ghost predicate CutoverArrivalMeans(h: Host, s: State, t: State, attempt: nat, view: View, node: Option<NodeKey>,
                                      r: Option<bool>)
  {
    if CannotRead(s, attempt, view) then r.None? && t == s
    else r == Some(MayArrive(h, s, attempt, view, node)) && if r.value then Dropped(s, t) else t == s
  }

  lemma CutoverArrivalLaw(h: Host, s: State, attempt: nat, view: View, node: Option<NodeKey>)
    ensures var (t, r) := CutoverArrivalMutation(h, s, attempt, view, node);
            CutoverArrivalMeans(h, s, t, attempt, view, node, r)
  { }

  // ---- Preparations ----

  ghost predicate PreparationBegins(s: State, t: State, permit: Option<nat>) {
    && (permit.Some? <==> s.preparing.None? && s.proposal.None?)
    && t.authority == s.authority && t.leases == s.leases
    && (permit.Some? ==> permit.value >= s.next && t.preparing == permit && t.proposal.None?)
    && (permit.None? ==> t.preparing == s.preparing && t.proposal == if s.preparing.Some? then s.proposal else None)
  }

  lemma PreparationLaw(s: State)
    ensures var (t, permit) := BeginPreparation(s); PreparationBegins(s, t, permit)
  { }

  /** Only the permit's holder ends the preparation, and only its plan from live authority is published, if none is. */
  ghost predicate TreeMeans(s: State, t: State, permit: nat, outcome: Option<Plan>, r: TreeResult) {
    if s.preparing != Some(permit) then r == Stale && t == s
    else
      && t.authority == s.authority && t.leases == s.leases && t.next == s.next && t.preparing.None?
      && if outcome.None? then r == Cancelled && t.proposal == s.proposal
         else if !s.authority.IsLive? then r == WasClosed && t.proposal == s.proposal
         else if s.proposal.Some? then r == RetiredConflict && t.proposal.None?
         else r == Accepted && t.proposal == Some(Proposal(outcome.value, s.authority.live))
  }

  lemma TreeLaw(s: State, permit: nat, outcome: Option<Plan>)
    ensures var (t, r) := FinishTree(s, permit, outcome); TreeMeans(s, t, permit, outcome, r)
  { }

  // ---- Leases ----

  /** The lease is of the live authority, and the snapshot continues what that observed, at its place. */
  ghost predicate AuthorizesAt(h: Host, s: State, lease: nat, view: View, node: NodeKey) {
    && lease in s.leases && s.authority.IsLive? && s.leases[lease] == s.authority.live.id
    && Continues(h, s.authority.live, view, Some(node)) && s.authority.live.location == Place(view, Some(node))
  }

  lemma LeaseLaw(h: Host, s: State, lease: nat, view: View, node: NodeKey)
    ensures LeaseIsCurrent(h, s, lease, view, node) <==> AuthorizesAt(h, s, lease, view, node)
  { }
}
