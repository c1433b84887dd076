/** The metadata database as values, and every transaction as one atomic step on it. */
module MetadataModel {
  import opened Wrappers
  import opened Sequences
  import opened CheckpointSlots
  import opened CheckpointLineage

  type SessionId = string

  datatype Registration = Registration(file: string, verified: bool)

  /** `epoch` advances once per forget; `resetPending` waits for the next attach. */
  datatype History = History(epoch: nat, resetPending: bool)

  datatype Db = Db(
    slots: map<SessionId, Slots>,
    registry: map<SessionId, Registration>,
    barriers: set<SessionId>,
    history: map<SessionId, History>)

  datatype MetadataError =
    | InvalidInput
    | NotVerified
    | EpochChanged(attached: nat, observed: nat)
    | ResetPending
    | Unattached
    | IdentityConflict
    | OutsideGraph
    | BarrierLost

  /** An aborted transaction leaves the database as it was. */
  datatype Tx<+T> = Committed(db: Db, value: T) | Aborted(error: MetadataError)

  function After<T>(tx: Tx<T>, before: Db): Db {
    match tx case Committed(db, _) => db case Aborted(_) => before
  }

  function Reply<T>(tx: Tx<T>): Result<T, MetadataError> {
    match tx case Committed(_, value) => Ok(value) case Aborted(error) => Err(error)
  }

  /** What a caller of a transaction sees. */
  ghost predicate Settled<T>(tx: Tx<T>, before: Db, after: Db, r: Result<T, MetadataError>) {
    after == After(tx, before) && r == Reply(tx)
  }

  function SlotsOf(db: Db, s: SessionId): Slots {
    if s in db.slots then db.slots[s] else map[]
  }

  function SlotIn(db: Db, s: SessionId, e: EntryId): Slot {
    SlotAt(SlotsOf(db, s), e)
  }

  function WithSlots(db: Db, s: SessionId, slots: Slots): Db {
    db.(slots := db.slots[s := slots])
  }

  function HistoryOf(db: Db, s: SessionId): History {
    if s in db.history then db.history[s] else History(0, false)
  }

  ghost predicate ValidDb(db: Db) {
    && (forall s :: s in db.slots ==> Canonical(db.slots[s]))
    && (forall s, t :: s in db.registry && t in db.registry && db.registry[s].file == db.registry[t].file ==> s == t)
  }

  /** Why a session write may not proceed under the generation this connection attached to. */
  function Fence(db: Db, attached: Option<nat>, s: SessionId): Option<MetadataError> {
    var observed := HistoryOf(db, s);
    if attached.Some? && attached.value != observed.epoch then Some(EpochChanged(attached.value, observed.epoch))
    else if observed.resetPending then Some(ResetPending)
    else if attached.None? then Some(Unattached)
    else None
  }

  predicate Verified(db: Db, s: SessionId, file: string) {
    s in db.registry && db.registry[s].verified && db.registry[s].file == file
  }

  function Target(path: seq<EntryId>): EntryId
    requires path != []
  {
    path[|path| - 1]
  }

  datatype CaptureResult = Captured | Blocked | SlotChanged

  function Reconciled(db: Db, s: SessionId, path: seq<EntryId>): Db {
    WithSlots(db, s, ReconcilePath(SlotsOf(db, s), path)).(barriers := db.barriers - {s})
  }

  function CommitCapture(db: Db, attached: Option<nat>, s: SessionId, file: string, path: seq<EntryId>,
                         expected: Slot, tree: TreeOid): Tx<CaptureResult>
  {
    if path == [] || !NoDuplicates(path) then Aborted(InvalidInput)
    else if Fence(db, attached, s).Some? then Aborted(Fence(db, attached, s).value)
    else if !Verified(db, s, file) then Aborted(NotVerified)
    else if s in db.barriers then Committed(Reconciled(db, s, path), Blocked)
    else
      var current := SlotIn(db, s, Target(path));
      match CheckpointSlots.Capture(current, tree)
      case Err(_) => Committed(db, Blocked)
      case Ok(next) =>
        if current != expected then Committed(db, SlotChanged)
        else Committed(WithSlots(db, s, WriteSlot(SlotsOf(db, s), Target(path), next)), Captured)
  }

  datatype ProtectResult = ProtectResult(stale: bool, slot: Slot)

  predicate ExpectationOk(expected: Option<Resolution>, path: seq<EntryId>) {
    expected.Some? ==> expected.value.Checkpoint? && expected.value.at in path
  }

  function ProtectLocation(db: Db, attached: Option<nat>, s: SessionId, file: string, path: seq<EntryId>,
                           expected: Option<Resolution>): Tx<ProtectResult>
  {
    if path == [] || !NoDuplicates(path) || !ExpectationOk(expected, path) then Aborted(InvalidInput)
    else if Fence(db, attached, s).Some? then Aborted(Fence(db, attached, s).value)
    else if !Verified(db, s, file) then Aborted(NotVerified)
    else
      var actual := Resolve(SlotsOf(db, s), path);
      var slots := Protect(SlotsOf(db, s), path);
      Committed(WithSlots(db, s, slots),
                ProtectResult(expected.Some? && (s in db.barriers || actual != expected.value),
                              SlotAt(slots, Target(path))))
  }

  datatype AdmitResult = Admitted | AdmitSlotChanged

  function AdmitResolved(db: Db, attached: Option<nat>, s: SessionId, file: string, path: seq<EntryId>,
                         expected: Resolution): Tx<AdmitResult>
  {
    if path == [] || !NoDuplicates(path) || !ExpectationOk(Some(expected), path) then Aborted(InvalidInput)
    else if Fence(db, attached, s).Some? then Aborted(Fence(db, attached, s).value)
    else if !Verified(db, s, file) then Aborted(NotVerified)
    else if s in db.barriers then Committed(db, AdmitSlotChanged)
    else if Resolve(SlotsOf(db, s), path) != expected then Committed(db, AdmitSlotChanged)
    else
      match SlotIn(db, s, Target(path))
      case OpenMissing => Committed(db, Admitted)
      case OpenCheckpoint(tree) => Committed(db, if tree == expected.tree then Admitted else AdmitSlotChanged)
      case BlockedCheckpoint(_) =>
        (match Release(SlotIn(db, s, Target(path)), expected.tree)
         case Err(_) => Committed(db, AdmitSlotChanged)
         case Ok(next) => Committed(WithSlots(db, s, WriteSlot(SlotsOf(db, s), Target(path), next)), Admitted))
      case BlockedMissing => Committed(db, AdmitSlotChanged)
  }

  datatype AdoptResult = Adopted | AdoptSlotChanged

  function AdoptMissing(db: Db, attached: Option<nat>, s: SessionId, file: string, e: EntryId, tree: TreeOid): Tx<AdoptResult>
  {
    if Fence(db, attached, s).Some? then Aborted(Fence(db, attached, s).value)
    else if !Verified(db, s, file) then Aborted(NotVerified)
    else if s in db.barriers then Committed(db, AdoptSlotChanged)
    else
      match AdoptBlockedMissing(SlotIn(db, s, e), tree)
      case Err(_) => Committed(db, AdoptSlotChanged)
      case Ok(next) => Committed(WithSlots(db, s, WriteSlot(SlotsOf(db, s), e, next)), Adopted)
  }

  function RaiseBarrier(db: Db, attached: Option<nat>, s: SessionId, file: string): Tx<bool> {
    if Fence(db, attached, s).Some? then Aborted(Fence(db, attached, s).value)
    else if !Verified(db, s, file) then Aborted(NotVerified)
    else Committed(db.(barriers := db.barriers + {s}), true)
  }

  datatype ReconcileResult = Unregistered | Absent | DidReconcile

  function ReconcileBarrier(db: Db, attached: Option<nat>, s: SessionId, file: string, path: seq<EntryId>): Tx<ReconcileResult> {
    if path == [] || !NoDuplicates(path) then Aborted(InvalidInput)
    else if Fence(db, attached, s).Some? then Aborted(Fence(db, attached, s).value)
    else if !Verified(db, s, file) then Committed(db, Unregistered)
    else if s !in db.barriers then Committed(db, Absent)
    else Committed(Reconciled(db, s, path), DidReconcile)
  }

  /** A source's slots by value, exported for a fork. */
  datatype Projection = Projection(source: SessionId, barrier: bool, slots: map<EntryId, Slot>)

  datatype Seed = Fresh | UntrustedParent | Fork(projection: Projection)

  /** A total projection: coordinates without a row are exported as open-missing. */
  ghost function ExportFork(db: Db, parentFile: string, retained: set<EntryId>): Option<Projection> {
    if s :| s in db.registry && db.registry[s] == Registration(parentFile, true)
    then Some(Projection(s, s in db.barriers, map e | e in retained :: SlotIn(db, s, e)))
    else None
  }

  datatype RegisterResult = RegisterResult(existing: bool, historyReset: bool, epoch: nat)

  /** Retained coordinates without a row become blocked, except one open leaf. */
  function FillMissing(slots: Slots, retained: seq<EntryId>, openLeaf: Option<EntryId>): Slots {
    slots + map e | e in retained && e !in slots && openLeaf != Some(e) :: BlockedMissing
  }

  function SeedSlot(e: EntryId, projected: map<EntryId, Slot>, openLeaf: Option<EntryId>): Slot {
    if e in projected then projected[e]
    else if openLeaf == Some(e) then OpenMissing
    else BlockedMissing
  }

  function SeedSlots(retained: seq<EntryId>, projected: map<EntryId, Slot>, openLeaf: Option<EntryId>): Slots {
    map e | e in retained && SeedSlot(e, projected, openLeaf) != OpenMissing :: SeedSlot(e, projected, openLeaf)
  }

  function WithVerified(db: Db, s: SessionId, file: string): Db {
    db.(registry := db.registry[s := Registration(file, true)])
  }

  /** Protect every unclassified coordinate of a recovered session, then settle its barrier. */
  function VerifyPending(db: Db, s: SessionId, file: string, retained: seq<EntryId>, active: seq<EntryId>): Db {
    var filled := WithSlots(WithVerified(db, s, file), s, FillMissing(SlotsOf(db, s), retained, None));
    if s in db.barriers && active != [] then Reconciled(filled, s, active) else filled
  }

  function Leaf(active: seq<EntryId>): Option<EntryId> {
    if active == [] then None else Some(active[|active| - 1])
  }

  function EnsureHistory(db: Db, s: SessionId): Db {
    if s in db.history then db else db.(history := db.history[s := History(0, false)])
  }

  function CompleteReset(db: Db, s: SessionId): Db {
    db.(history := db.history[s := History(HistoryOf(db, s).epoch, false)])
  }

  predicate SeedOk(seed: Seed, s: SessionId, retained: seq<EntryId>) {
    seed.Fork? ==> seed.projection.source != s && forall e :: e in seed.projection.slots ==> e in retained
  }

  predicate Conflicts(db: Db, s: SessionId, file: string) {
    || (s in db.registry && db.registry[s].file != file)
    || (exists t :: t in db.registry && t != s && db.registry[t].file == file)
  }

  predicate RowsOutside(db: Db, s: SessionId, retained: seq<EntryId>) {
    exists e :: e in SlotsOf(db, s) && e !in retained
  }

  /** An existing registration is verified, re-protected after a forget, or only checked. */
  function AttachExisting(db: Db, s: SessionId, retained: seq<EntryId>, active: seq<EntryId>): Db
    requires s in db.registry
  {
    var pending := HistoryOf(db, s).resetPending;
    var settled :=
      if !db.registry[s].verified then VerifyPending(db, s, db.registry[s].file, retained, active)
      else if pending then WithSlots(db, s, FillMissing(SlotsOf(db, s), retained, Leaf(active)))
      else db;
    if pending then CompleteReset(settled, s) else settled
  }

  /** A new registration writes one row per retained coordinate from its seed. */
  function AttachNew(db: Db, s: SessionId, file: string, retained: seq<EntryId>, active: seq<EntryId>, seed: Seed): Db {
    var projected := if seed.Fork? then seed.projection.slots else map[];
    var openLeaf := if seed.Fresh? then Leaf(active) else None;
    var raised := seed.UntrustedParent? || (seed.Fork? && seed.projection.barrier);
    var seeded := WithSlots(EnsureHistory(WithVerified(db, s, file), s), s, SeedSlots(retained, projected, openLeaf));
    if raised then seeded.(barriers := seeded.barriers + {s}) else seeded
  }

  /** Registration is where a session adopts the stored generation and completes a pending reset. */
  function Register(db: Db, s: SessionId, file: string, retained: seq<EntryId>, active: seq<EntryId>, seed: Seed): Tx<RegisterResult> {
    var history := HistoryOf(db, s);
    if !NoDuplicates(retained) || !NoDuplicates(active) || (exists e :: e in active && e !in retained) then Aborted(InvalidInput)
    else if history.resetPending && s !in db.registry then Aborted(ResetPending)
    else if Conflicts(db, s, file) then Aborted(IdentityConflict)
    else if s in db.registry then
      if RowsOutside(db, s, retained) then Aborted(OutsideGraph)
      else Committed(AttachExisting(db, s, retained, active), RegisterResult(true, history.resetPending, history.epoch))
    else if SlotsOf(db, s) != map[] || s in db.barriers then
      if RowsOutside(db, s, retained) then Aborted(OutsideGraph)
      else Committed(EnsureHistory(VerifyPending(db, s, file, retained, active), s),
                     RegisterResult(true, false, history.epoch))
    else if !SeedOk(seed, s, retained) then Aborted(InvalidInput)
    else Committed(AttachNew(db, s, file, retained, active, seed), RegisterResult(false, false, history.epoch))
  }

  /** The environment forgets a whole session: its rows go and its generation advances. */
  function Forget(db: Db, s: SessionId): Db {
    if s !in db.registry then db
    else WithSlots(db, s, map[]).(history := db.history[s := History(HistoryOf(db, s).epoch + 1, true)])
  }
}
