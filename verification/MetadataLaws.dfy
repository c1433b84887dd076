/** What each transaction answers, and which rows it changes, said without the transactions' own code. */
module MetadataLaws {
  import opened Wrappers
  import opened Sequences
  import opened CheckpointSlots
  import opened CheckpointLineage
  import opened MetadataModel

  type Answer<T> = Result<T, MetadataError>

  /** The connection adopted the stored generation of the session, and no reset is pending. */
  ghost predicate Current(db: Db, attached: Option<nat>, s: SessionId) {
    attached.Some? && if s in db.history then db.history[s] == History(attached.value, false) else attached.value == 0
  }

  ghost predicate Registered(db: Db, s: SessionId, file: string) {
    s in db.registry && db.registry[s] == Registration(file, true)
  }

  ghost predicate MayWrite(db: Db, attached: Option<nat>, s: SessionId, file: string) {
    Current(db, attached, s) && Registered(db, s, file)
  }

  ghost predicate IsLineage(path: seq<EntryId>) {
    path != [] && NoDuplicates(path)
  }

  /** A checkpoint of the path itself. */
  ghost predicate Expects(expected: Resolution, path: seq<EntryId>) {
    expected.Checkpoint? && expected.at in path
  }

  /** Only slots may differ, and none but those of `s` at `coordinates`. */
  ghost predicate OnlySlots(before: Db, after: Db, s: SessionId, coordinates: set<EntryId>) {
    && after.registry == before.registry && after.history == before.history
    && forall t, e :: t != s || e !in coordinates ==> SlotIn(after, t, e) == SlotIn(before, t, e)
  }

  ghost predicate OnlySlot(before: Db, after: Db, s: SessionId, e: EntryId) {
    OnlySlots(before, after, s, {e}) && after.barriers == before.barriers
  }

  /** `now` blocks the path's target: as it was if it was blocked, else on the checkpoint it inherits, if any. */
  ghost predicate PinsTarget(before: Slots, path: seq<EntryId>, now: Slot)
    requires path != []
  {
    var slot := SlotAt(before, Target(path));
    if slot.BlockedMissing? || slot.BlockedCheckpoint? then now == slot
    else match LastCheckpoint(before, path)
      case Missing => now == BlockedMissing
      case Checkpoint(_, tree) => now == BlockedCheckpoint(tree)
  }

  /** The barrier is gone, and every coordinate of the path is blocked on what it inherited. */
  ghost predicate Settles(before: Db, after: Db, s: SessionId, path: seq<EntryId>) {
    && OnlySlots(before, after, s, Elements(path)) && after.barriers == before.barriers - {s}
    && forall i :: 0 <= i < |path| ==> PinsTarget(SlotsOf(before, s), path[..i + 1], SlotIn(after, s, path[i]))
  }

  lemma WriteChangesOne(db: Db, s: SessionId, e: EntryId, slot: Slot)
    ensures var after := WithSlots(db, s, WriteSlot(SlotsOf(db, s), e, slot));
            OnlySlot(db, after, s, e) && SlotIn(after, s, e) == slot
  { }

  lemma BlockPins(slots: Slots, path: seq<EntryId>)
    requires path != []
    ensures PinsTarget(slots, path, Block(SlotAt(slots, Target(path)), Effective(slots, path)))
  { }

  lemma ReconciledSettles(db: Db, s: SessionId, path: seq<EntryId>)
    requires IsLineage(path)
    ensures Settles(db, Reconciled(db, s, path), s, path)
  {
    ReconcilePointwise(SlotsOf(db, s), path);
    forall i | 0 <= i < |path|
      ensures PinsTarget(SlotsOf(db, s), path[..i + 1], SlotIn(Reconciled(db, s, path), s, path[i]))
    {
      BlockPins(SlotsOf(db, s), path[..i + 1]);
    }
  }

  // ---- Capture ----

  /** The slot can be captured: it is open, with or without a checkpoint. */
  ghost predicate Open(slot: Slot) {
    slot.OpenMissing? || slot.OpenCheckpoint?
  }

  ghost predicate CaptureAnswers(before: Db, attached: Option<nat>, s: SessionId, file: string, path: seq<EntryId>,
                                 expected: Slot, r: Answer<CaptureResult>)
  {
    if !IsLineage(path) || !MayWrite(before, attached, s, file) then r.Err?
    else if s in before.barriers || !Open(SlotIn(before, s, Target(path))) then r == Ok(Blocked)
    else r == Ok(if SlotIn(before, s, Target(path)) == expected then Captured else SlotChanged)
  }

  /** A committed capture records the tree at the target, where it resolves; nothing else changes. */
  ghost predicate Records(before: Db, after: Db, s: SessionId, path: seq<EntryId>, tree: TreeOid)
    requires path != []
  {
    && OnlySlot(before, after, s, Target(path)) && SlotIn(after, s, Target(path)) == OpenCheckpoint(tree)
    && Resolve(SlotsOf(after, s), path) == Checkpoint(Target(path), tree)
  }

  ghost predicate CaptureChanges(before: Db, after: Db, s: SessionId, path: seq<EntryId>, tree: TreeOid,
                                 r: Answer<CaptureResult>)
  {
    if r == Ok(Captured) then path != [] && Records(before, after, s, path, tree)
    else if r == Ok(Blocked) && s in before.barriers then Settles(before, after, s, path)
    else after == before
  }

  lemma CaptureMeans(before: Db, after: Db, attached: Option<nat>, s: SessionId, file: string, path: seq<EntryId>,
                     expected: Slot, tree: TreeOid, r: Answer<CaptureResult>)
    requires Settled(CommitCapture(before, attached, s, file, path, expected, tree), before, after, r)
    ensures CaptureAnswers(before, attached, s, file, path, expected, r)
    ensures CaptureChanges(before, after, s, path, tree, r)
  {
    if IsLineage(path) {
      ReconciledSettles(before, s, path);
      WriteChangesOne(before, s, Target(path), OpenCheckpoint(tree));
    }
  }

  // ---- Protection ----

  ghost predicate ProtectionAnswers(before: Db, after: Db, attached: Option<nat>, s: SessionId, file: string,
                                    path: seq<EntryId>, expected: Option<Resolution>, r: Answer<ProtectResult>)
  {
    if !IsLineage(path) || (expected.Some? && !Expects(expected.value, path)) || !MayWrite(before, attached, s, file)
    then r.Err? && after == before
    else
      && r.Ok? && OnlySlot(before, after, s, Target(path))
      && PinsTarget(SlotsOf(before, s), path, SlotIn(after, s, Target(path)))
      && r.value.slot == SlotIn(after, s, Target(path))
      && (r.value.stale <==>
            expected.Some? && (s in before.barriers || Resolve(SlotsOf(before, s), path) != expected.value))
  }

  lemma ProtectionMeans(before: Db, after: Db, attached: Option<nat>, s: SessionId, file: string, path: seq<EntryId>,
                        expected: Option<Resolution>, r: Answer<ProtectResult>)
    requires Settled(ProtectLocation(before, attached, s, file, path, expected), before, after, r)
    ensures ProtectionAnswers(before, after, attached, s, file, path, expected, r)
  {
    if path != [] {
      BlockPins(SlotsOf(before, s), path);
      WriteChangesOne(before, s, Target(path), Block(SlotIn(before, s, Target(path)), Effective(SlotsOf(before, s), path)));
    }
  }

  // ---- Admission ----

  /** Admitted exactly while the whole resolution is the expected one; the target is then open and resolves as before. */
  ghost predicate AdmissionAnswers(before: Db, after: Db, attached: Option<nat>, s: SessionId, file: string,
                                   path: seq<EntryId>, expected: Resolution, r: Answer<AdmitResult>)
  {
    if !IsLineage(path) || !Expects(expected, path) || !MayWrite(before, attached, s, file)
    then r.Err? && after == before
    else if s in before.barriers || Resolve(SlotsOf(before, s), path) != expected
    then r == Ok(AdmitSlotChanged) && after == before
    else
      && r == Ok(Admitted) && OnlySlot(before, after, s, Target(path))
      && Resolve(SlotsOf(after, s), path) == expected
      && SlotIn(after, s, Target(path)) == if SlotIn(before, s, Target(path)).OpenMissing? then OpenMissing
                                           else OpenCheckpoint(expected.tree)
  }

  lemma AdmissionMeans(before: Db, after: Db, attached: Option<nat>, s: SessionId, file: string, path: seq<EntryId>,
                       expected: Resolution, r: Answer<AdmitResult>)
    requires Settled(AdmitResolved(before, attached, s, file, path, expected), before, after, r)
    ensures AdmissionAnswers(before, after, attached, s, file, path, expected, r)
  {
    if IsLineage(path) && expected.Checkpoint? {
      WriteChangesOne(before, s, Target(path), OpenCheckpoint(expected.tree));
    }
  }

  // ---- Adoption, barriers ----

  ghost predicate AdoptionAnswers(before: Db, after: Db, attached: Option<nat>, s: SessionId, file: string,
                                  e: EntryId, tree: TreeOid, r: Answer<AdoptResult>)
  {
    if !MayWrite(before, attached, s, file) then r.Err? && after == before
    else if s in before.barriers || SlotIn(before, s, e) != BlockedMissing then r == Ok(AdoptSlotChanged) && after == before
    else r == Ok(Adopted) && OnlySlot(before, after, s, e) && SlotIn(after, s, e) == OpenCheckpoint(tree)
  }

  lemma AdoptionMeans(before: Db, after: Db, attached: Option<nat>, s: SessionId, file: string, e: EntryId,
                      tree: TreeOid, r: Answer<AdoptResult>)
    requires Settled(AdoptMissing(before, attached, s, file, e, tree), before, after, r)
    ensures AdoptionAnswers(before, after, attached, s, file, e, tree, r)
  {
    WriteChangesOne(before, s, e, OpenCheckpoint(tree));
  }

  ghost predicate RaiseAnswers(before: Db, after: Db, attached: Option<nat>, s: SessionId, file: string, r: Answer<bool>) {
    if !MayWrite(before, attached, s, file) then r.Err? && after == before
    else
      && r == Ok(true) && after.slots == before.slots && after.registry == before.registry
      && after.history == before.history && after.barriers == before.barriers + {s}
  }

  lemma RaiseMeans(before: Db, after: Db, attached: Option<nat>, s: SessionId, file: string, r: Answer<bool>)
    requires Settled(RaiseBarrier(before, attached, s, file), before, after, r)
    ensures RaiseAnswers(before, after, attached, s, file, r)
  { }

  ghost predicate ReconcileAnswers(before: Db, after: Db, attached: Option<nat>, s: SessionId, file: string,
                                   path: seq<EntryId>, r: Answer<ReconcileResult>)
  {
    if !IsLineage(path) || !Current(before, attached, s) then r.Err? && after == before
    else if !Registered(before, s, file) then r == Ok(Unregistered) && after == before
    else if s !in before.barriers then r == Ok(Absent) && after == before
    else r == Ok(DidReconcile) && Settles(before, after, s, path)
  }

  lemma ReconcileMeans(before: Db, after: Db, attached: Option<nat>, s: SessionId, file: string, path: seq<EntryId>,
                       r: Answer<ReconcileResult>)
    requires Settled(ReconcileBarrier(before, attached, s, file, path), before, after, r)
    ensures ReconcileAnswers(before, after, attached, s, file, path, r)
  {
    if IsLineage(path) { ReconciledSettles(before, s, path); }
  }

  // ---- Registration ----

  ghost predicate Known(db: Db, s: SessionId) {
    s in db.registry || s in db.barriers || SlotsOf(db, s) != map[]
  }

  /** The identity is free or already this session's, and nothing stored or exported lies outside the retained graph. */
  ghost predicate MayRegister(db: Db, s: SessionId, file: string, retained: seq<EntryId>, active: seq<EntryId>, seed: Seed) {
    && NoDuplicates(retained) && NoDuplicates(active) && (forall e :: e in active ==> e in retained)
    && (forall t :: t in db.registry ==> (db.registry[t].file == file <==> t == s))
    && (s !in db.registry ==> !HistoryOf(db, s).resetPending)
    && (Known(db, s) ==> forall e :: e in SlotsOf(db, s) ==> e in retained)
    && (!Known(db, s) && seed.Fork? ==>
          seed.projection.source != s && forall e :: e in seed.projection.slots ==> e in retained)
  }

  /** What a known session's coordinate holds after its registration. */
  ghost function Recovered(before: Db, s: SessionId, retained: seq<EntryId>, active: seq<EntryId>, e: EntryId): Slot {
    var slot := SlotIn(before, s, e);
    if s in before.registry && before.registry[s].verified then
      if HistoryOf(before, s).resetPending && slot.OpenMissing? && e in retained && (active == [] || e != Target(active))
      then BlockedMissing else slot
    else if slot.OpenMissing? && e in retained then BlockedMissing
    else if s in before.barriers && e in active && slot.OpenCheckpoint? then BlockedCheckpoint(slot.tree)
    else slot
  }

  /** What a new session's coordinate holds: the fork's slot, or blocked, except an open leaf without a parent. */
  ghost function Seeded(retained: seq<EntryId>, active: seq<EntryId>, seed: Seed, e: EntryId): Slot {
    if e !in retained then OpenMissing
    else if seed.Fork? && e in seed.projection.slots then seed.projection.slots[e]
    else if seed.Fresh? && active != [] && e == Target(active) then OpenMissing
    else BlockedMissing
  }

  /** The session's rows and barrier after a registration; no other session's change. */
  ghost predicate RowsChange(before: Db, after: Db, s: SessionId, retained: seq<EntryId>, active: seq<EntryId>, seed: Seed) {
    var settles := !(s in before.registry && before.registry[s].verified) && active != [];
    var raises := seed.UntrustedParent? || (seed.Fork? && seed.projection.barrier);
    && (forall t :: t != s ==> SlotsOf(after, t) == SlotsOf(before, t))
    && (forall e :: SlotIn(after, s, e) == if Known(before, s) then Recovered(before, s, retained, active, e)
                                           else Seeded(retained, active, seed, e))
    && after.barriers == if Known(before, s) then before.barriers - (if settles then {s} else {})
                         else before.barriers + (if raises then {s} else {})
  }

  ghost predicate RegistersIn(before: Db, after: Db, s: SessionId, file: string) {
    after.registry == before.registry[s := Registration(file, true)]
  }

  /** The stored generation stands, with no reset pending any more. */
  ghost predicate Adopts(before: Db, after: Db, s: SessionId) {
    && HistoryOf(after, s) == History(HistoryOf(before, s).epoch, false)
    && forall t :: t != s ==> HistoryOf(after, t) == HistoryOf(before, t)
  }

  ghost predicate RegistrationAnswers(before: Db, after: Db, s: SessionId, file: string, retained: seq<EntryId>,
                                      active: seq<EntryId>, seed: Seed, r: Answer<RegisterResult>)
  {
    if !MayRegister(before, s, file, retained, active, seed) then r.Err? && after == before
    else
      && r == Ok(RegisterResult(Known(before, s), HistoryOf(before, s).resetPending, HistoryOf(before, s).epoch))
      && Registers(before, after, s, file, retained, active, seed)
  }

  lemma FilledSlots(slots: Slots, retained: seq<EntryId>, openLeaf: Option<EntryId>)
    requires Canonical(slots)
    ensures forall e :: SlotAt(FillMissing(slots, retained, openLeaf), e) ==
                        if SlotAt(slots, e).OpenMissing? && e in retained && openLeaf != Some(e) then BlockedMissing
                        else SlotAt(slots, e)
  { }

  /** Settling a barrier over coordinates that all have a row only closes the open ones. */
  lemma FilledSettles(slots: Slots, active: seq<EntryId>)
    requires NoDuplicates(active) && forall e :: e in active ==> !SlotAt(slots, e).OpenMissing?
    ensures forall e :: SlotAt(ReconcilePath(slots, active), e) ==
                        if e in active && SlotAt(slots, e).OpenCheckpoint? then BlockedCheckpoint(SlotAt(slots, e).tree)
                        else SlotAt(slots, e)
  {
    ReconcilePointwise(slots, active);
    forall e | e in active
      ensures SlotAt(ReconcilePath(slots, active), e) ==
              if SlotAt(slots, e).OpenCheckpoint? then BlockedCheckpoint(SlotAt(slots, e).tree) else SlotAt(slots, e)
    {
      var i :| 0 <= i < |active| && active[i] == e;
    }
  }

  /** What recovery leaves in the session's slots. */
  ghost function RecoveredSlots(before: Db, s: SessionId, retained: seq<EntryId>, active: seq<EntryId>): Slots {
    var filled := FillMissing(SlotsOf(before, s), retained, None);
    if s in before.barriers && active != [] then ReconcilePath(filled, active) else filled
  }

  /** Recovering fills the gaps, then settles a barrier. */
  lemma PendingWrites(before: Db, s: SessionId, file: string, retained: seq<EntryId>, active: seq<EntryId>)
    ensures var after := VerifyPending(before, s, file, retained, active);
            && after.registry == before.registry[s := Registration(file, true)] && after.history == before.history
            && after.barriers == before.barriers - (if active != [] then {s} else {})
            && after.slots == before.slots[s := RecoveredSlots(before, s, retained, active)]
  {
    var filled := FillMissing(SlotsOf(before, s), retained, None);
    assert before.slots[s := filled][s := ReconcilePath(filled, active)] == before.slots[s := ReconcilePath(filled, active)];
  }

  lemma SlotsRecover(before: Db, s: SessionId, retained: seq<EntryId>, active: seq<EntryId>, e: EntryId)
    requires Canonical(SlotsOf(before, s)) && !(s in before.registry && before.registry[s].verified)
    requires NoDuplicates(active) && forall x :: x in active ==> x in retained
    ensures SlotAt(RecoveredSlots(before, s, retained, active), e) == Recovered(before, s, retained, active, e)
  {
    FilledSlots(SlotsOf(before, s), retained, None);
    FilledSettles(FillMissing(SlotsOf(before, s), retained, None), active);
  }

  lemma PendingRecovers(before: Db, s: SessionId, file: string, retained: seq<EntryId>, active: seq<EntryId>, seed: Seed)
    requires ValidDb(before) && Known(before, s) && !(s in before.registry && before.registry[s].verified)
    requires NoDuplicates(active) && forall e :: e in active ==> e in retained
    ensures RowsChange(before, VerifyPending(before, s, file, retained, active), s, retained, active, seed)
    ensures RegistersIn(before, VerifyPending(before, s, file, retained, active), s, file)
    ensures VerifyPending(before, s, file, retained, active).history == before.history
  {
    PendingWrites(before, s, file, retained, active);
    var after := VerifyPending(before, s, file, retained, active);
    assert SlotsOf(after, s) == RecoveredSlots(before, s, retained, active);
    forall e ensures SlotIn(after, s, e) == Recovered(before, s, retained, active, e) {
      SlotsRecover(before, s, retained, active, e);
    }
  }

  lemma ResettledRecovers(before: Db, s: SessionId, retained: seq<EntryId>, active: seq<EntryId>, seed: Seed)
    requires ValidDb(before) && s in before.registry && before.registry[s].verified
    ensures RowsChange(before, AttachExisting(before, s, retained, active), s, retained, active, seed)
    ensures RegistersIn(before, AttachExisting(before, s, retained, active), s, before.registry[s].file)
  {
    FilledSlots(SlotsOf(before, s), retained, Leaf(active));
    assert before.registry[s := Registration(before.registry[s].file, true)] == before.registry;
  }

  lemma ExistingRecovers(before: Db, s: SessionId, retained: seq<EntryId>, active: seq<EntryId>, seed: Seed)
    requires ValidDb(before) && s in before.registry
    requires NoDuplicates(active) && forall e :: e in active ==> e in retained
    ensures var after := AttachExisting(before, s, retained, active);
            && RowsChange(before, after, s, retained, active, seed) && RegistersIn(before, after, s, before.registry[s].file)
            && Adopts(before, after, s)
  {
    if before.registry[s].verified {
      ResettledRecovers(before, s, retained, active, seed);
    } else {
      PendingRecovers(before, s, before.registry[s].file, retained, active, seed);
    }
  }

  ghost function NewSlots(retained: seq<EntryId>, active: seq<EntryId>, seed: Seed): Slots {
    SeedSlots(retained, if seed.Fork? then seed.projection.slots else map[], if seed.Fresh? then Leaf(active) else None)
  }

  lemma SlotsSeed(retained: seq<EntryId>, active: seq<EntryId>, seed: Seed, e: EntryId)
    ensures SlotAt(NewSlots(retained, active, seed), e) == Seeded(retained, active, seed, e)
  { }

  lemma NewWrites(before: Db, s: SessionId, file: string, retained: seq<EntryId>, active: seq<EntryId>, seed: Seed)
    requires !HistoryOf(before, s).resetPending
    ensures var after := AttachNew(before, s, file, retained, active, seed);
            && after.slots == before.slots[s := NewSlots(retained, active, seed)]
            && after.barriers == before.barriers
                                 + (if seed.UntrustedParent? || (seed.Fork? && seed.projection.barrier) then {s} else {})
            && RegistersIn(before, after, s, file) && Adopts(before, after, s)
  { }

  lemma NewSeeds(before: Db, s: SessionId, file: string, retained: seq<EntryId>, active: seq<EntryId>, seed: Seed)
    requires !Known(before, s) && !HistoryOf(before, s).resetPending
    ensures var after := AttachNew(before, s, file, retained, active, seed);
            && RowsChange(before, after, s, retained, active, seed) && RegistersIn(before, after, s, file)
            && Adopts(before, after, s)
  {
    NewWrites(before, s, file, retained, active, seed);
    forall e ensures SlotIn(AttachNew(before, s, file, retained, active, seed), s, e) == Seeded(retained, active, seed, e) {
      SlotsSeed(retained, active, seed, e);
    }
  }

  /** The transaction commits exactly when the registration is allowed. */
  lemma RegisterCommits(before: Db, s: SessionId, file: string, retained: seq<EntryId>, active: seq<EntryId>, seed: Seed)
    ensures Register(before, s, file, retained, active, seed).Committed? <==>
            MayRegister(before, s, file, retained, active, seed)
  {
    assert Conflicts(before, s, file) || forall t :: t in before.registry ==> (before.registry[t].file == file <==> t == s);
  }

  ghost predicate Registers(before: Db, after: Db, s: SessionId, file: string, retained: seq<EntryId>, active: seq<EntryId>,
                            seed: Seed)
  {
    RowsChange(before, after, s, retained, active, seed) && RegistersIn(before, after, s, file) && Adopts(before, after, s)
  }

  lemma ExistingRegisters(before: Db, s: SessionId, file: string, retained: seq<EntryId>, active: seq<EntryId>, seed: Seed)
    requires ValidDb(before) && MayRegister(before, s, file, retained, active, seed) && s in before.registry
    ensures Registers(before, After(Register(before, s, file, retained, active, seed), before), s, file, retained, active, seed)
  {
    RegisterCommits(before, s, file, retained, active, seed);
    ExistingRecovers(before, s, retained, active, seed);
  }

  lemma RecoveredRegisters(before: Db, s: SessionId, file: string, retained: seq<EntryId>, active: seq<EntryId>, seed: Seed)
    requires ValidDb(before) && MayRegister(before, s, file, retained, active, seed)
    requires Known(before, s) && s !in before.registry
    ensures Registers(before, After(Register(before, s, file, retained, active, seed), before), s, file, retained, active, seed)
  {
    RegisterCommits(before, s, file, retained, active, seed);
    PendingRecovers(before, s, file, retained, active, seed);
  }

  lemma NewRegisters(before: Db, s: SessionId, file: string, retained: seq<EntryId>, active: seq<EntryId>, seed: Seed)
    requires MayRegister(before, s, file, retained, active, seed) && !Known(before, s)
    ensures Registers(before, After(Register(before, s, file, retained, active, seed), before), s, file, retained, active, seed)
  {
    RegisterCommits(before, s, file, retained, active, seed);
    NewSeeds(before, s, file, retained, active, seed);
  }

  lemma RegisterReplies(before: Db, s: SessionId, file: string, retained: seq<EntryId>, active: seq<EntryId>, seed: Seed)
    requires MayRegister(before, s, file, retained, active, seed)
    ensures Reply(Register(before, s, file, retained, active, seed))
         == Ok(RegisterResult(Known(before, s), HistoryOf(before, s).resetPending, HistoryOf(before, s).epoch))
  {
    RegisterCommits(before, s, file, retained, active, seed);
  }

  lemma RegistrationMeans(before: Db, after: Db, s: SessionId, file: string, retained: seq<EntryId>,
                          active: seq<EntryId>, seed: Seed, r: Answer<RegisterResult>)
    requires ValidDb(before) && Settled(Register(before, s, file, retained, active, seed), before, after, r)
    ensures RegistrationAnswers(before, after, s, file, retained, active, seed, r)
  {
    if !MayRegister(before, s, file, retained, active, seed) {
      RegisterCommits(before, s, file, retained, active, seed);
      return;
    }
    RegisterReplies(before, s, file, retained, active, seed);
    if s in before.registry {
      ExistingRegisters(before, s, file, retained, active, seed);
    } else if Known(before, s) {
      RecoveredRegisters(before, s, file, retained, active, seed);
    } else {
      NewRegisters(before, s, file, retained, active, seed);
    }
  }
}
