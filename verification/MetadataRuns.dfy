/** Whole runs: any number of connections and forgets interleaved at transaction boundaries. */
module MetadataRuns {
  import opened Wrappers
  import opened CheckpointSlots
  import opened CheckpointLineage
  import opened MetadataModel

  datatype Op =
    | CaptureOp(s: SessionId, file: string, path: seq<EntryId>, expectedSlot: Slot, tree: TreeOid)
    | ProtectOp(s: SessionId, file: string, path: seq<EntryId>, expectation: Option<Resolution>)
    | AdmitOp(s: SessionId, file: string, path: seq<EntryId>, expected: Resolution)
    | AdoptOp(s: SessionId, file: string, e: EntryId, tree: TreeOid)
    | RaiseOp(s: SessionId, file: string)
    | ReconcileOp(s: SessionId, file: string, path: seq<EntryId>)
    | RegisterOp(s: SessionId, file: string, retained: seq<EntryId>, active: seq<EntryId>, seed: Seed)

  datatype Step = Transaction(conn: nat, op: Op) | ForgetStep(s: SessionId)

  /** The shared database and each connection's adopted generations. */
  datatype World = World(db: Db, attached: map<nat, map<SessionId, nat>>)

  function Attached(w: World, conn: nat, s: SessionId): Option<nat> {
    if conn in w.attached && s in w.attached[conn] then Some(w.attached[conn][s]) else None
  }

  function Adopt(w: World, conn: nat, s: SessionId, epoch: nat): map<nat, map<SessionId, nat>> {
    var mine := if conn in w.attached then w.attached[conn] else map[];
    w.attached[conn := mine[s := epoch]]
  }

  /** The database after one transaction, or nothing when it aborts. */
  function DbAfter<T>(tx: Tx<T>): Option<Db> {
    if tx.Committed? then Some(tx.db) else None
  }

  function Outcome(w: World, conn: nat, op: Op): Option<Db> {
    var attached := Attached(w, conn, op.s);
    match op
    case CaptureOp(s, file, path, expected, tree) => DbAfter(CommitCapture(w.db, attached, s, file, path, expected, tree))
    case ProtectOp(s, file, path, expectation) => DbAfter(ProtectLocation(w.db, attached, s, file, path, expectation))
    case AdmitOp(s, file, path, expected) => DbAfter(AdmitResolved(w.db, attached, s, file, path, expected))
    case AdoptOp(s, file, e, tree) => DbAfter(AdoptMissing(w.db, attached, s, file, e, tree))
    case RaiseOp(s, file) => DbAfter(RaiseBarrier(w.db, attached, s, file))
    case ReconcileOp(s, file, path) => DbAfter(ReconcileBarrier(w.db, attached, s, file, path))
    case RegisterOp(s, file, retained, active, seed) => DbAfter(Register(w.db, s, file, retained, active, seed))
  }

  function Next(w: World, step: Step): World {
    match step
    case ForgetStep(s) => w.(db := Forget(w.db, s))
    case Transaction(conn, op) =>
      match Outcome(w, conn, op)
      case None => w
      case Some(db) =>
        if op.RegisterOp? then World(db, Adopt(w, conn, op.s, HistoryOf(w.db, op.s).epoch)) else w.(db := db)
  }

  function Run(w: World, steps: seq<Step>): World {
    if steps == [] then w else Next(Run(w, steps[..|steps| - 1]), steps[|steps| - 1])
  }

  // ---- Pins ----

  /** A blocked row stays as it is, and a row with a tree keeps its tree. */
  predicate RowKept(before: Slot, after: Slot) {
    && (IsBlocked(before) ==> after == before)
    && (TreeOf(before).Some? ==> TreeOf(after) == TreeOf(before))
  }

  lemma {:induction false} ReconcileKeepsBlocked(slots: Slots, path: seq<EntryId>, e: EntryId)
    ensures RowKept(SlotAt(slots, e), SlotAt(ReconcilePath(slots, path), e))
  {
    if path != [] { ReconcileKeepsBlocked(slots, path[..|path| - 1], e); }
  }

  /** Verifying a pending session keeps its rows that say something, and every other session's rows. */
  lemma VerifyKeepsRow(db: Db, v: SessionId, file: string, retained: seq<EntryId>, active: seq<EntryId>, s: SessionId, e: EntryId)
    requires SlotIn(db, s, e) != OpenMissing
    ensures RowKept(SlotIn(db, s, e), SlotIn(VerifyPending(db, v, file, retained, active), s, e))
  {
    ReconcileKeepsBlocked(FillMissing(SlotsOf(db, v), retained, None), active, e);
  }

  lemma AttachExistingKeepsRow(db: Db, v: SessionId, retained: seq<EntryId>, active: seq<EntryId>, s: SessionId, e: EntryId)
    requires v in db.registry && SlotIn(db, s, e) != OpenMissing
    ensures RowKept(SlotIn(db, s, e), SlotIn(AttachExisting(db, v, retained, active), s, e))
  {
    VerifyKeepsRow(db, v, db.registry[v].file, retained, active, s, e);
  }

  lemma AttachNewKeepsRow(db: Db, v: SessionId, file: string, retained: seq<EntryId>, active: seq<EntryId>, seed: Seed,
                          s: SessionId, e: EntryId)
    requires SlotIn(db, s, e) != OpenMissing && SlotsOf(db, v) == map[]
    ensures RowKept(SlotIn(db, s, e), SlotIn(AttachNew(db, v, file, retained, active, seed), s, e))
  { }

  /** A registration keeps every row that says something. */
  lemma RegisterKeepsRow(db: Db, op: Op, s: SessionId, e: EntryId)
    requires op.RegisterOp? && Register(db, op.s, op.file, op.retained, op.active, op.seed).Committed?
    requires SlotIn(db, s, e) != OpenMissing
    ensures RowKept(SlotIn(db, s, e), SlotIn(Register(db, op.s, op.file, op.retained, op.active, op.seed).db, s, e))
  {
    if op.s in db.registry {
      AttachExistingKeepsRow(db, op.s, op.retained, op.active, s, e);
    } else if SlotsOf(db, op.s) != map[] || op.s in db.barriers {
      VerifyKeepsRow(db, op.s, op.file, op.retained, op.active, s, e);
    } else {
      AttachNewKeepsRow(db, op.s, op.file, op.retained, op.active, op.seed, s, e);
    }
  }

  predicate WritesAt(step: Step, s: SessionId, e: EntryId) {
    step.Transaction? && step.op.CaptureOp? && step.op.s == s && step.op.path != [] && Target(step.op.path) == e
  }

  predicate ReleasesAt(step: Step, s: SessionId, e: EntryId) {
    step.Transaction? && step.op.AdmitOp? && step.op.s == s && step.op.path != [] && Target(step.op.path) == e
  }

  predicate AdoptsAt(step: Step, s: SessionId, e: EntryId) {
    step.Transaction? && step.op.AdoptOp? && step.op.s == s && step.op.e == e
  }

  predicate ForgetsSession(step: Step, s: SessionId) {
    step.ForgetStep? && step.s == s
  }

  /** What a single step may do to one coordinate's slot. */
  predicate Moves(step: Step, s: SessionId, e: EntryId, before: Slot, after: Slot) {
    && (IsBlocked(before) && !ReleasesAt(step, s, e) && !AdoptsAt(step, s, e) ==> after == before)
    && (before == BlockedMissing && !AdoptsAt(step, s, e) ==> after == BlockedMissing)
    && (TreeOf(before).Some? && !WritesAt(step, s, e) ==> TreeOf(after) == TreeOf(before))
  }

  lemma CaptureOnSlot(w: World, conn: nat, op: Op, s: SessionId, e: EntryId)
    requires op.CaptureOp? && Outcome(w, conn, op).Some?
    ensures Moves(Transaction(conn, op), s, e, SlotIn(w.db, s, e), SlotIn(Outcome(w, conn, op).value, s, e))
  {
    ReconcileKeepsBlocked(SlotsOf(w.db, op.s), op.path, e);
  }

  lemma ProtectOnSlot(w: World, conn: nat, op: Op, s: SessionId, e: EntryId)
    requires op.ProtectOp? && Outcome(w, conn, op).Some?
    ensures Moves(Transaction(conn, op), s, e, SlotIn(w.db, s, e), SlotIn(Outcome(w, conn, op).value, s, e))
  { }

  lemma AdmitOnSlot(w: World, conn: nat, op: Op, s: SessionId, e: EntryId)
    requires op.AdmitOp? && Outcome(w, conn, op).Some?
    ensures Moves(Transaction(conn, op), s, e, SlotIn(w.db, s, e), SlotIn(Outcome(w, conn, op).value, s, e))
  { }

  lemma AdoptOnSlot(w: World, conn: nat, op: Op, s: SessionId, e: EntryId)
    requires op.AdoptOp? && Outcome(w, conn, op).Some?
    ensures Moves(Transaction(conn, op), s, e, SlotIn(w.db, s, e), SlotIn(Outcome(w, conn, op).value, s, e))
  { }

  lemma ReconcileOnSlot(w: World, conn: nat, op: Op, s: SessionId, e: EntryId)
    requires op.ReconcileOp? && Outcome(w, conn, op).Some?
    ensures Moves(Transaction(conn, op), s, e, SlotIn(w.db, s, e), SlotIn(Outcome(w, conn, op).value, s, e))
  {
    ReconcileKeepsBlocked(SlotsOf(w.db, op.s), op.path, e);
  }

  lemma RegisterOnSlot(w: World, conn: nat, op: Op, s: SessionId, e: EntryId)
    requires op.RegisterOp? && Outcome(w, conn, op).Some?
    ensures Moves(Transaction(conn, op), s, e, SlotIn(w.db, s, e), SlotIn(Outcome(w, conn, op).value, s, e))
  {
    if SlotIn(w.db, s, e) != OpenMissing { RegisterKeepsRow(w.db, op, s, e); }
  }

  lemma OpOnSlot(w: World, conn: nat, op: Op, s: SessionId, e: EntryId)
    requires Outcome(w, conn, op).Some?
    ensures Moves(Transaction(conn, op), s, e, SlotIn(w.db, s, e), SlotIn(Outcome(w, conn, op).value, s, e))
  {
    match op
    case CaptureOp(_, _, _, _, _) => CaptureOnSlot(w, conn, op, s, e);
    case ProtectOp(_, _, _, _) => ProtectOnSlot(w, conn, op, s, e);
    case AdmitOp(_, _, _, _) => AdmitOnSlot(w, conn, op, s, e);
    case AdoptOp(_, _, _, _) => AdoptOnSlot(w, conn, op, s, e);
    case RaiseOp(_, _) =>
    case ReconcileOp(_, _, _) => ReconcileOnSlot(w, conn, op, s, e);
    case RegisterOp(_, _, _, _, _) => RegisterOnSlot(w, conn, op, s, e);
  }

  lemma StepOnSlot(w: World, step: Step, s: SessionId, e: EntryId)
    requires !ForgetsSession(step, s)
    ensures Moves(step, s, e, SlotIn(w.db, s, e), SlotIn(Next(w, step).db, s, e))
  {
    match step
    case ForgetStep(_) =>
    case Transaction(conn, op) =>
      var outcome := Outcome(w, conn, op);
      if outcome.Some? {
        OpOnSlot(w, conn, op, s, e);
        assert Next(w, step).db == outcome.value;
      }
  }

  /** A blocked coordinate keeps its slot, hence its resolution, over every run that neither releases nor adopts it. */
  lemma {:induction false} PinHolds(w: World, steps: seq<Step>, s: SessionId, e: EntryId)
    requires IsBlocked(SlotIn(w.db, s, e))
    requires forall t :: t in steps ==> !ForgetsSession(t, s) && !ReleasesAt(t, s, e) && !AdoptsAt(t, s, e)
    ensures SlotIn(Run(w, steps).db, s, e) == SlotIn(w.db, s, e)
    ensures forall path :: path != [] && Target(path) == e ==>
              Resolve(SlotsOf(Run(w, steps).db, s), path) == Resolve(SlotsOf(w.db, s), path)
  {
    if steps != [] {
      var front, last := steps[..|steps| - 1], steps[|steps| - 1];
      assert steps == front + [last];
      PinHolds(w, front, s, e);
      StepOnSlot(Run(w, front), last, s, e);
    }
  }

  /** A protected empty coordinate changes only by adoption, whatever else is attempted there. */
  lemma {:induction false} EmptyPinNeedsAdoption(w: World, steps: seq<Step>, s: SessionId, e: EntryId)
    requires SlotIn(w.db, s, e) == BlockedMissing
    requires forall t :: t in steps ==> !ForgetsSession(t, s) && !AdoptsAt(t, s, e)
    ensures SlotIn(Run(w, steps).db, s, e) == BlockedMissing
  {
    if steps != [] {
      var front, last := steps[..|steps| - 1], steps[|steps| - 1];
      assert steps == front + [last];
      EmptyPinNeedsAdoption(w, front, s, e);
      StepOnSlot(Run(w, front), last, s, e);
    }
  }

  /** Blocking and releasing never change which tree is there; only the next capture there can. */
  lemma {:induction false} TreeHeldUntilCapture(w: World, steps: seq<Step>, s: SessionId, e: EntryId)
    requires TreeOf(SlotIn(w.db, s, e)).Some?
    requires forall t :: t in steps ==> !ForgetsSession(t, s) && !WritesAt(t, s, e)
    ensures TreeOf(SlotIn(Run(w, steps).db, s, e)) == TreeOf(SlotIn(w.db, s, e))
    ensures forall path :: path != [] && Target(path) == e ==>
              Resolve(SlotsOf(Run(w, steps).db, s), path) == Resolve(SlotsOf(w.db, s), path)
  {
    if steps != [] {
      var front, last := steps[..|steps| - 1], steps[|steps| - 1];
      assert steps == front + [last];
      TreeHeldUntilCapture(w, front, s, e);
      StepOnSlot(Run(w, front), last, s, e);
    }
  }

  // ---- Protection transactions keep every meaning ----

  lemma {:induction false} ReconcileStaysCanonical(slots: Slots, path: seq<EntryId>)
    requires Canonical(slots)
    ensures Canonical(ReconcilePath(slots, path))
  {
    if path != [] { ReconcileStaysCanonical(slots, path[..|path| - 1]); }
  }

  /** A transaction that only protects: a pin, or a barrier settled by a reconcile or a capture. */
  predicate Protects(w: World, op: Op, tree: Ancestries) {
    match op
    case ProtectOp(_, _, path, _) => path != [] && Target(path) in tree && tree[Target(path)] == path
    case ReconcileOp(_, _, path) => path != [] && Target(path) in tree && tree[Target(path)] == path
    case CaptureOp(s, _, path, _, _) =>
      s in w.db.barriers && path != [] && Target(path) in tree && tree[Target(path)] == path
    case _ => false
  }

  /** Whatever its outcome, such a transaction changes no coordinate's effective tree. */
  lemma ProtectingStepKeepsMeaning(w: World, conn: nat, op: Op, tree: Ancestries, e: EntryId)
    requires ValidDb(w.db) && IsTree(tree) && e in tree && Protects(w, op, tree)
    ensures Effective(SlotsOf(Next(w, Transaction(conn, op)).db, op.s), tree[e])
         == Effective(SlotsOf(w.db, op.s), tree[e])
  {
    var leaf := Target(op.path);
    ProtectPreservesMeaning(SlotsOf(w.db, op.s), tree, leaf);
    ReconcileIsProtection(SlotsOf(w.db, op.s), tree, leaf, tree[leaf]);
    ProtectedSlots(w, conn, op, tree);
  }

  /** What a protecting transaction leaves in its session's rows. */
  lemma ProtectedSlots(w: World, conn: nat, op: Op, tree: Ancestries)
    requires Protects(w, op, tree)
    ensures var slots, after := SlotsOf(w.db, op.s), SlotsOf(Next(w, Transaction(conn, op)).db, op.s);
            after == slots || after == Protect(slots, op.path) || after == ReconcilePath(slots, op.path)
  { }

  /** Rewriting one session's rows canonically, under an unchanged or uncontested file, stays valid. */
  lemma OneSessionStaysValid(before: Db, after: Db, s: SessionId)
    requires ValidDb(before) && Canonical(SlotsOf(after, s))
    requires forall t :: t != s ==> SlotsOf(after, t) == SlotsOf(before, t)
    requires forall t :: t != s ==> (t in after.registry <==> t in before.registry)
    requires forall t :: t != s && t in before.registry ==>
               after.registry[t] == before.registry[t] && (s in after.registry ==> before.registry[t].file != after.registry[s].file)
    ensures ValidDb(after)
  {
    forall t | t in after.slots ensures Canonical(after.slots[t]) {
      assert after.slots[t] == SlotsOf(after, t);
      if t != s && t in before.slots { assert Canonical(before.slots[t]); }
    }
  }

  lemma VerifyWritesOneSession(db: Db, s: SessionId, file: string, retained: seq<EntryId>, active: seq<EntryId>)
    ensures var after := VerifyPending(db, s, file, retained, active);
            && after.registry == db.registry[s := Registration(file, true)]
            && (forall t :: t != s ==> SlotsOf(after, t) == SlotsOf(db, t))
  { }

  lemma VerifyStaysCanonical(db: Db, s: SessionId, file: string, retained: seq<EntryId>, active: seq<EntryId>)
    requires Canonical(SlotsOf(db, s))
    ensures Canonical(SlotsOf(VerifyPending(db, s, file, retained, active), s))
  {
    ReconcileStaysCanonical(FillMissing(SlotsOf(db, s), retained, None), active);
  }

  lemma VerifyKeepsValid(db: Db, s: SessionId, file: string, retained: seq<EntryId>, active: seq<EntryId>)
    requires ValidDb(db) && !Conflicts(db, s, file)
    ensures ValidDb(VerifyPending(db, s, file, retained, active))
  {
    VerifyStaysCanonical(db, s, file, retained, active);
    VerifyWritesOneSession(db, s, file, retained, active);
    OneSessionStaysValid(db, VerifyPending(db, s, file, retained, active), s);
  }

  lemma AttachExistingKeepsValid(db: Db, s: SessionId, retained: seq<EntryId>, active: seq<EntryId>)
    requires ValidDb(db) && s in db.registry
    ensures ValidDb(AttachExisting(db, s, retained, active))
  {
    VerifyKeepsValid(db, s, db.registry[s].file, retained, active);
    OneSessionStaysValid(db, WithSlots(db, s, FillMissing(SlotsOf(db, s), retained, Leaf(active))), s);
  }

  lemma AttachNewKeepsValid(db: Db, s: SessionId, file: string, retained: seq<EntryId>, active: seq<EntryId>, seed: Seed)
    requires ValidDb(db) && !Conflicts(db, s, file)
    ensures ValidDb(AttachNew(db, s, file, retained, active, seed))
  {
    OneSessionStaysValid(db, AttachNew(db, s, file, retained, active, seed), s);
  }

  lemma RegisterKeepsValid(db: Db, op: Op)
    requires ValidDb(db) && op.RegisterOp?
    requires Register(db, op.s, op.file, op.retained, op.active, op.seed).Committed?
    ensures ValidDb(Register(db, op.s, op.file, op.retained, op.active, op.seed).db)
  {
    if op.s in db.registry {
      AttachExistingKeepsValid(db, op.s, op.retained, op.active);
    } else {
      VerifyKeepsValid(db, op.s, op.file, op.retained, op.active);
      AttachNewKeepsValid(db, op.s, op.file, op.retained, op.active, op.seed);
    }
  }

  /** Every step keeps rows canonical and session files unique. */
  lemma StepKeepsValid(w: World, step: Step)
    requires ValidDb(w.db)
    ensures ValidDb(Next(w, step).db)
  {
    match step
    case ForgetStep(_) =>
    case Transaction(conn, op) =>
      var after := Outcome(w, conn, op);
      if after.Some? {
        if op.RegisterOp? { RegisterKeepsValid(w.db, op); } else { WriteKeepsValid(w, conn, op); }
      }
  }

  /** Other than a registration, an operation rewrites at most its own session's rows. */
  lemma OpWritesOneSession(w: World, conn: nat, op: Op)
    requires !op.RegisterOp? && Outcome(w, conn, op).Some?
    ensures var after := Outcome(w, conn, op).value;
            && after.registry == w.db.registry
            && (after.slots == w.db.slots || after.slots == w.db.slots[op.s := SlotsOf(after, op.s)])
  { }

  lemma OpStaysCanonical(w: World, conn: nat, op: Op)
    requires Canonical(SlotsOf(w.db, op.s)) && !op.RegisterOp? && Outcome(w, conn, op).Some?
    ensures Canonical(SlotsOf(Outcome(w, conn, op).value, op.s))
  {
    match op
    case CaptureOp(s, _, path, _, _) => ReconcileStaysCanonical(SlotsOf(w.db, s), path);
    case ReconcileOp(s, _, path) => ReconcileStaysCanonical(SlotsOf(w.db, s), path);
    case _ =>
  }

  lemma WriteKeepsValid(w: World, conn: nat, op: Op)
    requires ValidDb(w.db) && !op.RegisterOp? && Outcome(w, conn, op).Some?
    ensures ValidDb(Outcome(w, conn, op).value)
  {
    OpWritesOneSession(w, conn, op);
    OpStaysCanonical(w, conn, op);
  }

  // ---- The history-epoch fence ----

  predicate Commits(w: World, step: Step)
    requires step.Transaction?
  {
    Outcome(w, step.conn, step.op).Some?
  }

  predicate RegistersHere(w: World, step: Step, conn: nat, s: SessionId) {
    step.Transaction? && step.conn == conn && step.op.RegisterOp? && step.op.s == s && Commits(w, step)
  }

  /** Index of the connection's last committed registration of the session. */
  function LastRegistration(w: World, steps: seq<Step>, conn: nat, s: SessionId): (r: Option<nat>)
    ensures r.Some? ==> r.value < |steps|
  {
    if steps == [] then None
    else
      var front := steps[..|steps| - 1];
      if RegistersHere(Run(w, front), steps[|steps| - 1], conn, s) then Some(|front|)
      else LastRegistration(w, front, conn, s)
  }

  function ForgetsIn(steps: seq<Step>, s: SessionId): nat {
    if steps == [] then 0
    else ForgetsIn(steps[..|steps| - 1], s) + if ForgetsSession(steps[|steps| - 1], s) then 1 else 0
  }

  /** What one database step keeps of a session's registration and generation. */
  ghost predicate KeepsGeneration(before: Db, after: Db, s: SessionId) {
    && (s in before.registry ==> s in after.registry)
    && HistoryOf(after, s).epoch == HistoryOf(before, s).epoch
    && (!HistoryOf(before, s).resetPending ==> !HistoryOf(after, s).resetPending)
  }

  lemma VerifyKeepsGeneration(db: Db, v: SessionId, file: string, retained: seq<EntryId>, active: seq<EntryId>, s: SessionId)
    ensures VerifyPending(db, v, file, retained, active).history == db.history
    ensures KeepsGeneration(db, EnsureHistory(VerifyPending(db, v, file, retained, active), v), s)
    ensures s in db.registry ==> s in VerifyPending(db, v, file, retained, active).registry
  { }

  lemma AttachExistingKeepsGeneration(db: Db, v: SessionId, retained: seq<EntryId>, active: seq<EntryId>, s: SessionId)
    requires v in db.registry
    ensures KeepsGeneration(db, AttachExisting(db, v, retained, active), s)
    ensures v in AttachExisting(db, v, retained, active).registry
    ensures !HistoryOf(AttachExisting(db, v, retained, active), v).resetPending
  {
    VerifyKeepsGeneration(db, v, db.registry[v].file, retained, active, s);
    VerifyKeepsGeneration(db, v, db.registry[v].file, retained, active, v);
  }

  lemma AttachNewKeepsGeneration(db: Db, v: SessionId, file: string, retained: seq<EntryId>, active: seq<EntryId>, seed: Seed,
                                 s: SessionId)
    ensures KeepsGeneration(db, AttachNew(db, v, file, retained, active, seed), s)
    ensures v in AttachNew(db, v, file, retained, active, seed).registry
  { }

  /** A registration keeps every generation, and leaves its own session registered with nothing pending. */
  lemma RegisterKeepsGeneration(db: Db, op: Op, s: SessionId)
    requires op.RegisterOp? && Register(db, op.s, op.file, op.retained, op.active, op.seed).Committed?
    ensures var after := Register(db, op.s, op.file, op.retained, op.active, op.seed).db;
            && KeepsGeneration(db, after, s)
            && op.s in after.registry && !HistoryOf(after, op.s).resetPending
  {
    if op.s in db.registry {
      AttachExistingKeepsGeneration(db, op.s, op.retained, op.active, s);
    } else if SlotsOf(db, op.s) != map[] || op.s in db.barriers {
      VerifyKeepsGeneration(db, op.s, op.file, op.retained, op.active, s);
      VerifyKeepsGeneration(db, op.s, op.file, op.retained, op.active, op.s);
    } else {
      AttachNewKeepsGeneration(db, op.s, op.file, op.retained, op.active, op.seed, s);
      AttachNewKeepsGeneration(db, op.s, op.file, op.retained, op.active, op.seed, op.s);
    }
  }

  lemma WriteKeepsGeneration(w: World, conn: nat, op: Op)
    requires !op.RegisterOp? && Outcome(w, conn, op).Some?
    ensures Outcome(w, conn, op).value.registry == w.db.registry && Outcome(w, conn, op).value.history == w.db.history
  { }

  lemma OpKeepsGeneration(w: World, conn: nat, op: Op, s: SessionId)
    requires Outcome(w, conn, op).Some?
    ensures KeepsGeneration(w.db, Outcome(w, conn, op).value, s)
  {
    if op.RegisterOp? { RegisterKeepsGeneration(w.db, op, s); } else { WriteKeepsGeneration(w, conn, op); }
  }

  /** Only a forget advances a session's epoch, and only a registration settles a pending reset. */
  lemma StepOnHistory(w: World, step: Step, s: SessionId)
    ensures s in w.db.registry ==> s in Next(w, step).db.registry
    ensures ForgetsSession(step, s) && s in w.db.registry ==>
              HistoryOf(Next(w, step).db, s) == History(HistoryOf(w.db, s).epoch + 1, true)
    ensures !ForgetsSession(step, s) ==> KeepsGeneration(w.db, Next(w, step).db, s)
  {
    match step
    case ForgetStep(_) =>
    case Transaction(conn, op) =>
      var outcome := Outcome(w, conn, op);
      if outcome.Some? {
        OpKeepsGeneration(w, conn, op, s);
        assert Next(w, step).db == outcome.value;
      } else {
        assert Next(w, step) == w;
      }
  }

  lemma RegistrationSettles(w: World, step: Step, conn: nat, s: SessionId)
    requires RegistersHere(w, step, conn, s)
    ensures Attached(Next(w, step), conn, s) == Some(HistoryOf(w.db, s).epoch)
    ensures s in Next(w, step).db.registry
    ensures HistoryOf(Next(w, step).db, s) == History(HistoryOf(w.db, s).epoch, false)
  {
    var op := step.op;
    RegisterKeepsGeneration(w.db, op, s);
    var tx := Register(w.db, op.s, op.file, op.retained, op.active, op.seed);
    assert Next(w, step).db == tx.db;
  }

  lemma OthersKeepAttachment(w: World, step: Step, conn: nat, s: SessionId)
    requires !RegistersHere(w, step, conn, s)
    ensures Attached(Next(w, step), conn, s) == Attached(w, conn, s)
  {
  }

  ghost predicate FreshWorld(w: World) {
    w.attached == map[]
  }

  /** How a registered session stands after some forgets since the connection's registration. */
  ghost predicate AttachedSince(w: World, conn: nat, s: SessionId, forgets: nat) {
    && s in w.db.registry
    && Attached(w, conn, s).Some?
    && HistoryOf(w.db, s).epoch == Attached(w, conn, s).value + forgets
    && (forgets == 0 ==> !HistoryOf(w.db, s).resetPending)
  }

  lemma StepOnAttachment(w: World, step: Step, conn: nat, s: SessionId, forgets: nat)
    requires AttachedSince(w, conn, s, forgets) && !RegistersHere(w, step, conn, s)
    ensures AttachedSince(Next(w, step), conn, s, forgets + if ForgetsSession(step, s) then 1 else 0)
  {
    StepOnHistory(w, step, s);
    OthersKeepAttachment(w, step, conn, s);
  }

  /** How a connection stands to a session after some steps, the last of its registrations being at `last`. */
  ghost predicate Stands(w: World, steps: seq<Step>, last: Option<nat>, conn: nat, s: SessionId) {
    match last
    case None => Attached(w, conn, s) == None
    case Some(j) => j < |steps| && AttachedSince(w, conn, s, ForgetsIn(steps[j + 1..], s))
  }

  lemma StandsAfterStep(before: World, after: World, front: seq<Step>, steps: seq<Step>, step: Step,
                        last: Option<nat>, next: Option<nat>, conn: nat, s: SessionId)
    requires Stands(before, front, last, conn, s) && steps == front + [step] && after == Next(before, step)
    requires next == if RegistersHere(before, step, conn, s) then Some(|front|) else last
    ensures Stands(after, steps, next, conn, s)
  {
    if RegistersHere(before, step, conn, s) {
      RegistrationSettles(before, step, conn, s);
      assert steps[|front| + 1..] == [];
    } else {
      OthersKeepAttachment(before, step, conn, s);
      if last.Some? {
        assert steps[..|front|] == front;
        ForgetsStep(steps, last.value + 1, s);
        StepOnAttachment(before, step, conn, s, ForgetsIn(front[last.value + 1..], s));
      }
    }
  }

  lemma LastRegistrationStep(w: World, steps: seq<Step>, conn: nat, s: SessionId)
    requires steps != []
    ensures var front, last := steps[..|steps| - 1], steps[|steps| - 1];
            && Run(w, steps) == Next(Run(w, front), last)
            && LastRegistration(w, steps, conn, s) ==
               if RegistersHere(Run(w, front), last, conn, s) then Some(|front|) else LastRegistration(w, front, conn, s)
  { }

  lemma StandsAtLast(w: World, steps: seq<Step>, conn: nat, s: SessionId)
    requires steps != []
    requires var front := steps[..|steps| - 1]; Stands(Run(w, front), front, LastRegistration(w, front, conn, s), conn, s)
    ensures Stands(Run(w, steps), steps, LastRegistration(w, steps, conn, s), conn, s)
  {
    var front, last := steps[..|steps| - 1], steps[|steps| - 1];
    assert steps == front + [last];
    LastRegistrationStep(w, steps, conn, s);
    StandsAfterStep(Run(w, front), Run(w, steps), front, steps, last,
                    LastRegistration(w, front, conn, s), LastRegistration(w, steps, conn, s), conn, s);
  }

  lemma {:induction false} AttachmentHistory(w: World, steps: seq<Step>, conn: nat, s: SessionId)
    requires FreshWorld(w)
    ensures Stands(Run(w, steps), steps, LastRegistration(w, steps, conn, s), conn, s)
  {
    if steps != [] {
      AttachmentHistory(w, steps[..|steps| - 1], conn, s);
      StandsAtLast(w, steps, conn, s);
    }
  }

  lemma ForgetsStep(steps: seq<Step>, from: nat, s: SessionId)
    requires from < |steps|
    ensures ForgetsIn(steps[from..], s)
         == ForgetsIn(steps[..|steps| - 1][from..], s) + if ForgetsSession(steps[|steps| - 1], s) then 1 else 0
  {
    assert steps[from..][..|steps| - from - 1] == steps[..|steps| - 1][from..];
  }

  /** There was a registration, and no forget after it. */
  predicate NotForgottenSince(steps: seq<Step>, registration: Option<nat>, s: SessionId)
    requires registration.Some? ==> registration.value < |steps|
  {
    registration.Some? && ForgetsIn(steps[registration.value + 1..], s) == 0
  }

  lemma FenceMeans(w: World, steps: seq<Step>, last: Option<nat>, conn: nat, s: SessionId)
    requires Stands(w, steps, last, conn, s)
    ensures Fence(w.db, Attached(w, conn, s), s).None? <==> NotForgottenSince(steps, last, s)
  { }

  /**
   The fence lets a connection's session write through exactly when it has registered the
   session and the session has not been forgotten since.
   */
  lemma FenceExact(w: World, steps: seq<Step>, conn: nat, s: SessionId)
    requires FreshWorld(w)
    ensures Fence(Run(w, steps).db, Attached(Run(w, steps), conn, s), s).None? <==>
            NotForgottenSince(steps, LastRegistration(w, steps, conn, s), s)
  {
    AttachmentHistory(w, steps, conn, s);
    FenceMeans(Run(w, steps), steps, LastRegistration(w, steps, conn, s), conn, s);
  }

  /** Hence every committed session write follows a registration with no forget in between. */
  lemma WritesNeedCurrentRegistration(w: World, steps: seq<Step>, conn: nat, op: Op)
    requires FreshWorld(w) && !op.RegisterOp?
    requires Outcome(Run(w, steps), conn, op).Some?
    ensures LastRegistration(w, steps, conn, op.s).Some?
    ensures ForgetsIn(steps[LastRegistration(w, steps, conn, op.s).value + 1..], op.s) == 0
    ensures !HistoryOf(Run(w, steps).db, op.s).resetPending
  {
    FenceExact(w, steps, conn, op.s);
  }
}
