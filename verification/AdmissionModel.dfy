/** Runtime authority for checkpoint capture, as transitions of one small state. */
module AdmissionModel {
  import opened Wrappers

  type EntryId = nat

  datatype NodeKey = NodeKey(sessionId: string, entryId: EntryId)

  /** What reading a snapshot's stable coordinate gives: it may raise, be undefined, or name an entry or the root. */
  datatype Coordinate = Unreadable | Undefined | Stable(entry: Option<EntryId>)

  /** An immutable session snapshot. */
  datatype View = View(snapshot: nat, sessionFile: Option<string>, sessionId: string, leafId: Option<EntryId>, coordinate: Coordinate)

  /** The snapshot comparisons the host provides; a comparison that raises counts as false. */
  datatype Host = Host(sameIdentity: (View, View) -> bool, appendOnly: (View, View) -> bool,
                       descendant: (View, Option<EntryId>, View, EntryId) -> bool, sameSnapshot: (View, View) -> bool)

  datatype Location = Location(leafId: Option<EntryId>, entryId: Option<EntryId>)

  /** Live authority; the number stands for the identity of the admission object. */
  datatype Live = Live(id: nat, observation: View, location: Location)

  type Plan = nat

  datatype Attempt = Attempt(id: nat, plan: Option<Plan>)

  datatype Authority = Closed | IsLive(live: Live) | Arrival(attempt: Attempt, source: Option<Live>)

  datatype Proposal = Proposal(plan: Plan, source: Live)

  /** `next` is the first identity not handed out yet; leases name the live authority they were issued under. */
  datatype State = State(authority: Authority, proposal: Option<Proposal>, preparing: Option<nat>, leases: map<nat, nat>, next: nat)

  const INITIAL: State := State(Closed, None, None, map[], 0)

  datatype Decision = Capture(lease: nat) | NoCoordinate | WriteProtected | NotAdmitted

  function EntryOf(node: Option<NodeKey>): Option<EntryId> {
    if node.None? then None else Some(node.value.entryId)
  }

  /** None when reading the snapshot raises. */
  function NodeMatches(view: View, node: Option<NodeKey>): Option<bool> {
    match view.coordinate
    case Unreadable => None
    case Undefined => Some(false)
    case Stable(entry) => Some(entry == EntryOf(node) && (node.None? || node.value.sessionId == view.sessionId))
  }

  /** None when reading raises, otherwise the location if the snapshot has one for this node. */
  function LocationOf(view: View, node: Option<NodeKey>): Option<Option<Location>> {
    if view.sessionFile.None? then Some(None)
    else match NodeMatches(view, node)
      case None => None
      case Some(false) => Some(None)
      case Some(true) => Some(Some(Location(view.leafId, EntryOf(node))))
  }

  function SameSession(h: Host, previous: View, view: View): bool {
    view.sessionFile.Some? && h.sameIdentity(view, previous)
  }

  function Extends(h: Host, previous: View, current: View): bool {
    SameSession(h, previous, current) && h.appendOnly(current, previous)
  }

  function NaturalDescendant(h: Host, previous: View, entry: Option<EntryId>, current: View, descendant: EntryId): bool {
    SameSession(h, previous, current) && entry != Some(descendant) && h.descendant(current, entry, previous, descendant)
  }

  function Close(s: State): State { s.(proposal := None, authority := Closed) }

  function Reset(s: State): State { Close(s.(preparing := None)) }

  function GoLive(s: State, view: View, location: Location): State {
    s.(authority := IsLive(Live(s.next, view, location)), next := s.next + 1)
  }

  /** A preparation begins unless one is under way; an ambiguous older proposal is retired instead. */
  function BeginPreparation(s: State): (State, Option<nat>) {
    if s.preparing.Some? then (s, None)
    else if s.proposal.Some? then (s.(proposal := None, next := s.next + 1), None)
    else (s.(preparing := Some(s.next), next := s.next + 1), Some(s.next))
  }

  function FinishPreparation(s: State, permit: nat): State {
    if s.preparing == Some(permit) then s.(preparing := None) else s
  }

  datatype TreeResult = Accepted | RetiredConflict | WasClosed | Cancelled | Stale

  function Propose(s: State, plan: Plan): (State, TreeResult) {
    if !s.authority.IsLive? then (s, WasClosed)
    else if s.proposal.Some? then (s.(proposal := None), RetiredConflict)
    else (s.(proposal := Some(Proposal(plan, s.authority.live))), Accepted)
  }

  /** The end of a tree preparation: only the current permit's outcome reaches the host. */
  function FinishTree(s: State, permit: nat, outcome: Option<Plan>): (State, TreeResult) {
    if s.preparing != Some(permit) then (s, Stale)
    else if outcome.None? then (FinishPreparation(s, permit), Cancelled)
    else var (t, r) := Propose(s, outcome.value); (FinishPreparation(t, permit), r)
  }

  function RejectTransitionConflict(s: State): (State, bool) {
    if s.preparing.Some? || s.authority.Arrival? then (s, true)
    else if s.proposal.Some? then (s.(proposal := None), true)
    else (s, false)
  }

  datatype Claim = Claimed | TransitionConflict | InvalidLocation | Raises

  function ClaimOrdinaryMutation(s: State, view: View, node: Option<NodeKey>): (State, Claim) {
    if s.preparing.Some? || s.authority.Arrival? then (s, TransitionConflict)
    else if s.proposal.Some? then (s.(proposal := None), TransitionConflict)
    else match LocationOf(view, node)
      case None => (Reset(s), Raises)
      case Some(None) => (Reset(s), InvalidLocation)
      case Some(Some(location)) => (GoLive(Reset(s), view, location), Claimed)
  }

  function BeginTreeArrival(s: State): (State, Attempt) {
    var proposal := if s.authority.IsLive? then s.proposal else None;
    var source := if proposal.Some? then Some(proposal.value.source)
                  else if s.authority.IsLive? then Some(s.authority.live) else None;
    var attempt := Attempt(s.next, if proposal.Some? then Some(proposal.value.plan) else None);
    (s.(preparing := None, proposal := None, authority := Arrival(attempt, source), next := s.next + 1), attempt)
  }

  predicate ArrivalIsCurrent(s: State, attempt: nat) {
    s.authority.Arrival? && s.authority.attempt.id == attempt
  }

  function CloseArrival(s: State, attempt: nat): State {
    if ArrivalIsCurrent(s, attempt) then Reset(s) else s
  }

  /** None when reading the snapshot raises. */
  function ArrivalCanProceed(h: Host, s: State, attempt: nat, view: View, node: Option<NodeKey>): Option<bool> {
    if !ArrivalIsCurrent(s, attempt) || s.authority.source.None? then Some(false)
    else match NodeMatches(view, node)
      case None => None
      case Some(matches) => Some(matches && Extends(h, s.authority.source.value.observation, view))
  }

  function SettleArrival(s: State, attempt: nat, view: View, node: Option<NodeKey>): (State, bool) {
    if !ArrivalIsCurrent(s, attempt) then (s, false)
    else match LocationOf(view, node)
      case Some(Some(location)) => (GoLive(s.(preparing := None), view, location), true)
      case _ => (Reset(s), false)
  }

  /** None when reading the snapshot raises, which leaves the arrival as it was. */
  function AdmitArrival(h: Host, s: State, attempt: nat, view: View, node: Option<NodeKey>): (State, Option<bool>) {
    match ArrivalCanProceed(h, s, attempt, view, node)
    case None => (s, None)
    case Some(false) => (CloseArrival(s, attempt), Some(false))
    case Some(true) => var (t, settled) := SettleArrival(s, attempt, view, node); (t, Some(settled))
  }

  function CarryArrival(h: Host, s: State, attempt: nat, view: View, node: Option<NodeKey>): (State, bool) {
    if !ArrivalIsCurrent(s, attempt) || s.authority.source.None? || NodeMatches(view, node) != Some(true)
       || s.authority.source.value.location.entryId != EntryOf(node)
       || !Extends(h, s.authority.source.value.observation, view)
    then (CloseArrival(s, attempt), false)
    else SettleArrival(s, attempt, view, node)
  }

  function Carry(h: Host, s: State, view: View, node: Option<NodeKey>): (State, bool) {
    if !s.authority.IsLive? then (s, false)
    else if NodeMatches(view, node) != Some(true) || s.authority.live.location.entryId != EntryOf(node)
            || !Extends(h, s.authority.live.observation, view)
    then (Reset(s), false)
    else match LocationOf(view, node)
      case Some(Some(location)) => (GoLive(s, view, location), true)
      case _ => (Reset(s), false)
  }

  function Issue(s: State): (State, Decision) {
    if s.authority.IsLive? then (s.(leases := s.leases[s.next := s.authority.live.id], next := s.next + 1), Capture(s.next))
    else (s, NotAdmitted)
  }

  function DecideCapture(h: Host, s: State, view: View, node: Option<NodeKey>, writeProtected: bool): (State, Decision) {
    if !s.authority.IsLive? then (s, NotAdmitted)
    else if !(SameSession(h, s.authority.live.observation, view) && NodeMatches(view, node) == Some(true)
              && Extends(h, s.authority.live.observation, view))
    then (Reset(s), NotAdmitted)
    else
      var here := s.authority.live.location;
      if here.leafId != view.leafId && here.entryId == EntryOf(node) then
        var (t, carried) := Carry(h, s, view, node);
        if carried then DecideAt(h, t, view, node, writeProtected) else (t, NotAdmitted)
      else DecideAt(h, s, view, node, writeProtected)
  }

  /** The decision once structural authority has been carried to the snapshot's anchor. */
  function DecideAt(h: Host, s: State, view: View, node: Option<NodeKey>, writeProtected: bool): (State, Decision) {
    if !s.authority.IsLive? then (s, NotAdmitted)
    else
      var live := s.authority.live;
      if node.None? then
        if live.location == Location(view.leafId, None) then (s, NoCoordinate) else (Reset(s), NotAdmitted)
      else if live.location == Location(view.leafId, EntryOf(node)) then
        if writeProtected then (s, WriteProtected) else Issue(s)
      else if !NaturalDescendant(h, live.observation, live.location.entryId, view, node.value.entryId) then (Reset(s), NotAdmitted)
      else match LocationOf(view, node)
        case Some(Some(location)) =>
          if writeProtected then (GoLive(s, view, location), WriteProtected) else Issue(GoLive(s, view, location))
        case _ => (Reset(s), NotAdmitted)
  }

  /** Whether a lease still carries the current live authority. */
  predicate Holds(s: State, lease: nat) {
    lease in s.leases && s.authority.IsLive? && s.authority.live.id == s.leases[lease]
  }

  predicate LeaseIsCurrent(h: Host, s: State, lease: nat, view: View, node: NodeKey) {
    && Holds(s, lease)
    && SameSession(h, s.authority.live.observation, view) && Extends(h, s.authority.live.observation, view)
    && NodeMatches(view, Some(node)) == Some(true)
    && s.authority.live.location == Location(view.leafId, Some(node.entryId))
  }

  function CutoverMutation(h: Host, s: State, view: View, node: Option<NodeKey>): (State, bool) {
    if s.authority.IsLive? && SameSession(h, s.authority.live.observation, view)
       && h.sameSnapshot(view, s.authority.live.observation) && (LocationOf(view, node).Some? && LocationOf(view, node).value.Some?)
    then (Reset(s), true) else (s, false)
  }

  /** None when reading the snapshot raises. */
  function CutoverArrivalMutation(h: Host, s: State, attempt: nat, view: View, node: Option<NodeKey>): (State, Option<bool>) {
    match ArrivalCanProceed(h, s, attempt, view, node)
    case None => (s, None)
    case Some(false) => (s, Some(false))
    case Some(true) =>
      if LocationOf(view, node).Some? && LocationOf(view, node).value.Some? then (Reset(s), Some(true)) else (s, Some(false))
  }

  datatype Step =
    | DoReset | DoBegin | DoFinish(permit: nat) | DoFinishTree(permit: nat, outcome: Option<Plan>) | DoReject
    | DoClaim(view: View, node: Option<NodeKey>) | DoBeginArrival | DoCloseArrival(attempt: nat)
    | DoAdmitArrival(attempt: nat, view: View, node: Option<NodeKey>)
    | DoSettleArrival(attempt: nat, view: View, node: Option<NodeKey>)
    | DoCarryArrival(attempt: nat, view: View, node: Option<NodeKey>)
    | DoCarry(view: View, node: Option<NodeKey>)
    | DoDecide(view: View, node: Option<NodeKey>, writeProtected: bool)
    | DoCutover(view: View, node: Option<NodeKey>)
    | DoCutoverArrival(attempt: nat, view: View, node: Option<NodeKey>)

  function Next(h: Host, s: State, step: Step): State {
    match step
    case DoReset => Reset(s)
    case DoBegin => BeginPreparation(s).0
    case DoFinish(permit) => FinishPreparation(s, permit)
    case DoFinishTree(permit, outcome) => FinishTree(s, permit, outcome).0
    case DoReject => RejectTransitionConflict(s).0
    case DoClaim(view, node) => ClaimOrdinaryMutation(s, view, node).0
    case DoBeginArrival => BeginTreeArrival(s).0
    case DoCloseArrival(attempt) => CloseArrival(s, attempt)
    case DoAdmitArrival(attempt, view, node) => AdmitArrival(h, s, attempt, view, node).0
    case DoSettleArrival(attempt, view, node) => SettleArrival(s, attempt, view, node).0
    case DoCarryArrival(attempt, view, node) => CarryArrival(h, s, attempt, view, node).0
    case DoCarry(view, node) => Carry(h, s, view, node).0
    case DoDecide(view, node, writeProtected) => DecideCapture(h, s, view, node, writeProtected).0
    case DoCutover(view, node) => CutoverMutation(h, s, view, node).0
    case DoCutoverArrival(attempt, view, node) => CutoverArrivalMutation(h, s, attempt, view, node).0
  }

  function Run(h: Host, s: State, steps: seq<Step>): State
    decreases |steps|
  {
    if steps == [] then s else Run(h, Next(h, s, steps[0]), steps[1..])
  }

  /** Every identity in use was handed out, and a pending proposal implies live authority. */
  ghost predicate Sound(s: State) {
    && (s.proposal.Some? ==> s.authority.IsLive?)
    && (s.authority.IsLive? ==> s.authority.live.id < s.next)
    && (s.authority.Arrival? ==> s.authority.attempt.id < s.next)
    && (s.preparing.Some? ==> s.preparing.value < s.next)
    && (forall l :: l in s.leases ==> l < s.next && s.leases[l] < s.next)
  }

  /** Authority, attempts, permits and leases only ever appear under identities nobody used before. */
  ghost predicate OnlyFresh(s: State, t: State) {
    && s.next <= t.next
    && (t.authority.IsLive? ==> t.authority.live.id >= s.next || t.authority == s.authority)
    && (t.authority.Arrival? ==> t.authority.attempt.id >= s.next || t.authority == s.authority)
    && (t.preparing.Some? ==> t.preparing.value >= s.next || t.preparing == s.preparing)
    && (forall l :: l in s.leases ==> l in t.leases && t.leases[l] == s.leases[l])
    && (forall l :: l in t.leases ==> l in s.leases || l >= s.next)
  }

  lemma CarryIsFresh(h: Host, s: State, view: View, node: Option<NodeKey>)
    requires Sound(s)
    ensures Sound(Carry(h, s, view, node).0) && OnlyFresh(s, Carry(h, s, view, node).0)
  { }

  lemma DecideAtIsFresh(h: Host, s: State, view: View, node: Option<NodeKey>, writeProtected: bool)
    requires Sound(s)
    ensures var t := DecideAt(h, s, view, node, writeProtected).0; Sound(t) && OnlyFresh(s, t)
  { }

  lemma DecideIsFresh(h: Host, s: State, view: View, node: Option<NodeKey>, writeProtected: bool)
    requires Sound(s)
    ensures var t := DecideCapture(h, s, view, node, writeProtected).0; Sound(t) && OnlyFresh(s, t)
  {
    CarryIsFresh(h, s, view, node);
    DecideAtIsFresh(h, s, view, node, writeProtected);
    DecideAtIsFresh(h, Carry(h, s, view, node).0, view, node, writeProtected);
  }

  lemma ArrivalIsFresh(h: Host, s: State, step: Step)
    requires Sound(s)
    requires step.DoAdmitArrival? || step.DoSettleArrival? || step.DoCarryArrival? || step.DoCutoverArrival? || step.DoCloseArrival?
    ensures Sound(Next(h, s, step)) && OnlyFresh(s, Next(h, s, step))
  { }

  /** Every step keeps the invariant and hands out fresh identities only. */
  lemma StepIsFresh(h: Host, s: State, step: Step)
    requires Sound(s)
    ensures Sound(Next(h, s, step)) && OnlyFresh(s, Next(h, s, step))
  {
    match step
    case DoDecide(view, node, writeProtected) => DecideIsFresh(h, s, view, node, writeProtected);
    case DoCarry(view, node) => CarryIsFresh(h, s, view, node);
    case DoAdmitArrival(_, _, _) => ArrivalIsFresh(h, s, step);
    case DoSettleArrival(_, _, _) => ArrivalIsFresh(h, s, step);
    case DoCarryArrival(_, _, _) => ArrivalIsFresh(h, s, step);
    case DoCutoverArrival(_, _, _) => ArrivalIsFresh(h, s, step);
    case DoCloseArrival(_) => ArrivalIsFresh(h, s, step);
    case _ =>
  }

  /**
   * Over every run: a proposal implies live authority, and a lease, arrival attempt or permit handed out
   * earlier and no longer current never becomes current again.
   */
  lemma {:induction false} NothingRevives(h: Host, s: State, steps: seq<Step>)
    requires Sound(s)
    ensures var t := Run(h, s, steps);
            && Sound(t) && s.next <= t.next
            && (forall l :: l in s.leases && !Holds(s, l) ==> !Holds(t, l))
            && (forall a: nat :: a < s.next && !ArrivalIsCurrent(s, a) ==> !ArrivalIsCurrent(t, a))
            && (forall p: nat :: p < s.next && s.preparing != Some(p) ==> t.preparing != Some(p))
    decreases |steps|
  {
    if steps != [] {
      StepIsFresh(h, s, steps[0]);
      NothingRevives(h, Next(h, s, steps[0]), steps[1..]);
    }
  }

  /** No capture is authorized by the lease, now or after any further steps. */
  ghost predicate LeaseOver(h: Host, s: State, lease: nat) {
    forall steps :: !Holds(Run(h, s, steps), lease)
  }

  ghost predicate ArrivalOver(h: Host, s: State, attempt: nat) {
    forall steps :: !ArrivalIsCurrent(Run(h, s, steps), attempt)
  }

  ghost predicate PermitOver(h: Host, s: State, permit: nat) {
    forall steps :: Run(h, s, steps).preparing != Some(permit)
  }

  /** Whatever was handed out and is not current is over. */
  lemma StaleIsOver(h: Host, s: State)
    requires Sound(s)
    ensures forall l :: l in s.leases && !Holds(s, l) ==> LeaseOver(h, s, l)
    ensures forall a: nat :: a < s.next && !ArrivalIsCurrent(s, a) ==> ArrivalOver(h, s, a)
    ensures forall p: nat :: p < s.next && s.preparing != Some(p) ==> PermitOver(h, s, p)
  {
    forall l, steps | l in s.leases && !Holds(s, l) ensures !Holds(Run(h, s, steps), l) {
      NothingRevives(h, s, steps);
    }
    forall a: nat, steps | a < s.next && !ArrivalIsCurrent(s, a) ensures !ArrivalIsCurrent(Run(h, s, steps), a) {
      NothingRevives(h, s, steps);
    }
    forall p: nat, steps | p < s.next && s.preparing != Some(p) ensures Run(h, s, steps).preparing != Some(p) {
      NothingRevives(h, s, steps);
    }
  }

  /** An arrival suspends every lease, and leaves none of them usable afterwards. */
  lemma ArrivalEndsLeases(h: Host, s: State, steps: seq<Step>, lease: nat)
    requires Sound(s) && lease in s.leases
    ensures !Holds(Run(h, BeginTreeArrival(s).0, steps), lease)
  {
    var t := BeginTreeArrival(s).0;
    StepIsFresh(h, s, DoBeginArrival);
    NothingRevives(h, t, steps);
  }

  /** The operations that consume an arrival attempt. */
  predicate Consumes(h: Host, s: State, step: Step, attempt: nat) {
    match step
    case DoReset => true
    case DoBeginArrival => true
    case DoCloseArrival(a) => a == attempt
    case DoSettleArrival(a, _, _) => a == attempt
    case DoCarryArrival(a, _, _) => a == attempt
    case DoAdmitArrival(a, view, node) => a == attempt && AdmitArrival(h, s, a, view, node).1.Some?
    case DoCutoverArrival(a, view, node) => a == attempt && CutoverArrivalMutation(h, s, a, view, node).1 == Some(true)
    case _ => false
  }

  /** Whatever consumes an arrival consumes it for good. */
  lemma ConsumedArrivalStaysConsumed(h: Host, s: State, step: Step, attempt: nat, steps: seq<Step>)
    requires Sound(s) && ArrivalIsCurrent(s, attempt) && Consumes(h, s, step, attempt)
    ensures !ArrivalIsCurrent(Run(h, Next(h, s, step), steps), attempt)
  {
    StepIsFresh(h, s, step);
    ConsumedNow(h, s, step, attempt);
    NothingRevives(h, Next(h, s, step), steps);
  }

  lemma ConsumedNow(h: Host, s: State, step: Step, attempt: nat)
    requires Sound(s) && ArrivalIsCurrent(s, attempt) && Consumes(h, s, step, attempt)
    ensures !ArrivalIsCurrent(Next(h, s, step), attempt)
  { }

  /** A proposal appears only at the successful end of the preparation that still holds its permit. */
  lemma OnlyPermitPublishes(h: Host, s: State, step: Step)
    requires Sound(s)
    ensures var t := Next(h, s, step);
            t.proposal.Some? && t.proposal != s.proposal ==>
              && step.DoFinishTree? && s.preparing == Some(step.permit) && step.outcome.Some?
              && s.proposal.None? && s.authority.IsLive?
              && t.proposal == Some(Proposal(step.outcome.value, s.authority.live)) && t.preparing.None?
  {
    match step
    case DoDecide(view, node, writeProtected) => DecideProposesNothing(h, s, view, node, writeProtected);
    case _ =>
  }

  lemma DecideProposesNothing(h: Host, s: State, view: View, node: Option<NodeKey>, writeProtected: bool)
    ensures var t := DecideCapture(h, s, view, node, writeProtected).0; t.proposal == s.proposal || t.proposal.None?
  { }

  /** The permit of a preparation cut short by a reset or an arrival never publishes, whatever follows. */
  lemma StalePermitPublishesNothing(h: Host, s: State, permit: nat, steps: seq<Step>, outcome: Option<Plan>)
    requires Sound(s) && s.preparing == Some(permit)
    ensures FinishTree(Run(h, Reset(s), steps), permit, outcome) == (Run(h, Reset(s), steps), Stale)
    ensures FinishTree(Run(h, BeginTreeArrival(s).0, steps), permit, outcome) == (Run(h, BeginTreeArrival(s).0, steps), Stale)
  {
    StepIsFresh(h, s, DoReset);
    StepIsFresh(h, s, DoBeginArrival);
    NothingRevives(h, Reset(s), steps);
    NothingRevives(h, BeginTreeArrival(s).0, steps);
  }

  ghost predicate Reflexive(h: Host) {
    forall v: View :: h.sameIdentity(v, v) && h.appendOnly(v, v)
  }

  /** A granted capture is for exactly this snapshot and node, is not write protected, and is current. */
  lemma GrantedLeaseIsCurrent(h: Host, s: State, view: View, node: Option<NodeKey>, writeProtected: bool)
    requires Sound(s) && Reflexive(h)
    ensures var (t, d) := DecideCapture(h, s, view, node, writeProtected);
            d.Capture? ==>
              && !writeProtected && node.Some? && s.authority.IsLive? && d.lease !in s.leases
              && LeaseIsCurrent(h, t, d.lease, view, node.value)
  {
    var (t, d) := DecideCapture(h, s, view, node, writeProtected);
    if d.Capture? {
      assert h.sameIdentity(view, view) && h.appendOnly(view, view);
      var here := s.authority.live.location;
      if here.leafId != view.leafId && here.entryId == EntryOf(node) {
        CarryIsFresh(h, s, view, node);
        GrantAt(h, Carry(h, s, view, node).0, view, node, writeProtected);
      } else {
        GrantAt(h, s, view, node, writeProtected);
      }
    }
  }

  lemma GrantAt(h: Host, s: State, view: View, node: Option<NodeKey>, writeProtected: bool)
    requires Sound(s) && s.authority.IsLive? && NodeMatches(view, node) == Some(true)
    requires SameSession(h, s.authority.live.observation, view) && Extends(h, s.authority.live.observation, view)
    requires h.sameIdentity(view, view) && h.appendOnly(view, view)
    ensures var (t, d) := DecideAt(h, s, view, node, writeProtected);
            d.Capture? ==> !writeProtected && node.Some? && d.lease !in s.leases && LeaseIsCurrent(h, t, d.lease, view, node.value)
  { }
}
