/** The store as connections use it: each method is one transaction on the shared database. */
module MetadataStore {
  import opened Wrappers
  import opened Sequences
  import opened CheckpointSlots
  import opened CheckpointLineage
  import opened MetadataLaws
  import opened MetadataModel

  class Database {
    var rows: Db

    constructor ()
      ensures rows == Db(map[], map[], {}, map[])
    {
      rows := Db(map[], map[], {}, map[]);
    }
  }

  class Connection {
    const database: Database
    var historyEpoch: map<SessionId, nat>

    constructor (database: Database)
      ensures this.database == database && historyEpoch == map[]
    {
      this.database := database;
      historyEpoch := map[];
    }

    ghost predicate Valid()
      reads database
    {
      ValidDb(database.rows)
    }

    function AttachedTo(s: SessionId): Option<nat>
      reads this
    {
      if s in historyEpoch then Some(historyEpoch[s]) else None
    }

    method RequireSessionHistoryReady(s: SessionId) returns (r: Option<MetadataError>)
      ensures r == Fence(database.rows, AttachedTo(s), s)
    {
      var observed := HistoryOf(database.rows, s);
      var attached := AttachedTo(s);
      if attached.Some? && attached.value != observed.epoch {
        return Some(EpochChanged(attached.value, observed.epoch));
      }
      if observed.resetPending { return Some(ResetPending); }
      if attached.None? { return Some(Unattached); }
      return None;
    }

    method WriteSlots(s: SessionId, slots: Slots)
      modifies database
      ensures database.rows == WithSlots(old(database.rows), s, slots)
    {
      database.rows := database.rows.(slots := database.rows.slots[s := slots]);
    }

    method ReconcileIn(s: SessionId, path: seq<EntryId>)
      requires Valid() && NoDuplicates(path) && s in database.rows.barriers
      modifies database
      ensures database.rows == Reconciled(old(database.rows), s, path)
    {
      var slots := ReconcileLoop(SlotsOf(database.rows, s), path);
      WriteSlots(s, slots);
      database.rows := database.rows.(barriers := database.rows.barriers - {s});
    }

    method CommitCapture(s: SessionId, file: string, path: seq<EntryId>, expected: Slot, tree: TreeOid)
      returns (r: Result<CaptureResult, MetadataError>)
      requires Valid()
      modifies database
      ensures Settled(MetadataModel.CommitCapture(old(database.rows), AttachedTo(s), s, file, path, expected, tree),
                      old(database.rows), database.rows, r)
      ensures CaptureAnswers(old(database.rows), AttachedTo(s), s, file, path, expected, r)
      ensures CaptureChanges(old(database.rows), database.rows, s, path, tree, r)
    {
      ghost var tx := MetadataModel.CommitCapture(database.rows, AttachedTo(s), s, file, path, expected, tree);
      CaptureMeans(database.rows, After(tx, database.rows), AttachedTo(s), s, file, path, expected, tree, Reply(tx));
      if path == [] || !NoDuplicates(path) { return Err(InvalidInput); }
      var refused := RequireSessionHistoryReady(s);
      if refused.Some? { return Err(refused.value); }
      if !Verified(database.rows, s, file) { return Err(NotVerified); }
      if s in database.rows.barriers {
        ReconcileIn(s, path);
        return Ok(Blocked);
      }
      var lineage := ReduceLineage(path, SlotsOf(database.rows, s));
      var current := lineage.value.1;
      var transition := Capture(current, tree);
      if transition.Err? { return Ok(Blocked); }
      if current != expected { return Ok(SlotChanged); }
      WriteSlots(s, WriteSlot(SlotsOf(database.rows, s), Target(path), transition.value));
      return Ok(Captured);
    }

    method ProtectLocation(s: SessionId, file: string, path: seq<EntryId>, expected: Option<Resolution>)
      returns (r: Result<ProtectResult, MetadataError>)
      requires Valid()
      modifies database
      ensures Settled(MetadataModel.ProtectLocation(old(database.rows), AttachedTo(s), s, file, path, expected),
                      old(database.rows), database.rows, r)
      ensures ProtectionAnswers(old(database.rows), database.rows, AttachedTo(s), s, file, path, expected, r)
    {
      ghost var tx := MetadataModel.ProtectLocation(database.rows, AttachedTo(s), s, file, path, expected);
      ProtectionMeans(database.rows, After(tx, database.rows), AttachedTo(s), s, file, path, expected, Reply(tx));
      if path == [] || !NoDuplicates(path) || !ExpectationOk(expected, path) { return Err(InvalidInput); }
      var refused := RequireSessionHistoryReady(s);
      if refused.Some? { return Err(refused.value); }
      if !Verified(database.rows, s, file) { return Err(NotVerified); }
      var lineage := ReduceLineage(path, SlotsOf(database.rows, s));
      var (actual, current) := lineage.value;
      var protected := Block(current, TreeIn(actual));
      if current != protected {
        WriteSlots(s, WriteSlot(SlotsOf(database.rows, s), Target(path), protected));
      } else {
        assert Target(path) in SlotsOf(database.rows, s);
        assert Protect(SlotsOf(database.rows, s), path) == SlotsOf(database.rows, s);
        assert WithSlots(database.rows, s, SlotsOf(database.rows, s)) == database.rows;
      }
      return Ok(ProtectResult(expected.Some? && (s in database.rows.barriers || actual != expected.value), protected));
    }

    method AdmitResolvedLocation(s: SessionId, file: string, path: seq<EntryId>, expected: Resolution)
      returns (r: Result<AdmitResult, MetadataError>)
      requires Valid()
      modifies database
      ensures Settled(AdmitResolved(old(database.rows), AttachedTo(s), s, file, path, expected),
                      old(database.rows), database.rows, r)
      ensures AdmissionAnswers(old(database.rows), database.rows, AttachedTo(s), s, file, path, expected, r)
    {
      ghost var tx := AdmitResolved(database.rows, AttachedTo(s), s, file, path, expected);
      AdmissionMeans(database.rows, After(tx, database.rows), AttachedTo(s), s, file, path, expected, Reply(tx));
      if path == [] || !NoDuplicates(path) || !ExpectationOk(Some(expected), path) { return Err(InvalidInput); }
      var refused := RequireSessionHistoryReady(s);
      if refused.Some? { return Err(refused.value); }
      if !Verified(database.rows, s, file) { return Err(NotVerified); }
      if s in database.rows.barriers { return Ok(AdmitSlotChanged); }
      var lineage := ReduceLineage(path, SlotsOf(database.rows, s));
      var (resolved, current) := lineage.value;
      if resolved != expected { return Ok(AdmitSlotChanged); }
      if current.OpenMissing? { return Ok(Admitted); }
      if current.OpenCheckpoint? {
        return Ok(if current.tree == expected.tree then Admitted else AdmitSlotChanged);
      }
      if current.BlockedCheckpoint? {
        var transition := Release(current, expected.tree);
        if transition.Err? { return Ok(AdmitSlotChanged); }
        WriteSlots(s, WriteSlot(SlotsOf(database.rows, s), Target(path), transition.value));
        return Ok(Admitted);
      }
      return Ok(AdmitSlotChanged);
    }

    method AdoptBlockedMissing(s: SessionId, file: string, e: EntryId, tree: TreeOid)
      returns (r: Result<AdoptResult, MetadataError>)
      requires Valid()
      modifies database
      ensures Settled(AdoptMissing(old(database.rows), AttachedTo(s), s, file, e, tree),
                      old(database.rows), database.rows, r)
      ensures AdoptionAnswers(old(database.rows), database.rows, AttachedTo(s), s, file, e, tree, r)
    {
      ghost var tx := AdoptMissing(database.rows, AttachedTo(s), s, file, e, tree);
      AdoptionMeans(database.rows, After(tx, database.rows), AttachedTo(s), s, file, e, tree, Reply(tx));
      var refused := RequireSessionHistoryReady(s);
      if refused.Some? { return Err(refused.value); }
      if !Verified(database.rows, s, file) { return Err(NotVerified); }
      if s in database.rows.barriers { return Ok(AdoptSlotChanged); }
      var transition := CheckpointSlots.AdoptBlockedMissing(SlotIn(database.rows, s, e), tree);
      if transition.Err? { return Ok(AdoptSlotChanged); }
      WriteSlots(s, WriteSlot(SlotsOf(database.rows, s), e, transition.value));
      return Ok(Adopted);
    }

    method RaiseSessionBarrier(s: SessionId, file: string) returns (r: Result<bool, MetadataError>)
      requires Valid()
      modifies database
      ensures Settled(RaiseBarrier(old(database.rows), AttachedTo(s), s, file),
                      old(database.rows), database.rows, r)
      ensures RaiseAnswers(old(database.rows), database.rows, AttachedTo(s), s, file, r)
    {
      ghost var tx := RaiseBarrier(database.rows, AttachedTo(s), s, file);
      RaiseMeans(database.rows, After(tx, database.rows), AttachedTo(s), s, file, Reply(tx));
      var refused := RequireSessionHistoryReady(s);
      if refused.Some? { return Err(refused.value); }
      if !Verified(database.rows, s, file) { return Err(NotVerified); }
      database.rows := database.rows.(barriers := database.rows.barriers + {s});
      return Ok(true);
    }

    method ReconcileSessionBarrier(s: SessionId, file: string, path: seq<EntryId>)
      returns (r: Result<ReconcileResult, MetadataError>)
      requires Valid()
      modifies database
      ensures Settled(ReconcileBarrier(old(database.rows), AttachedTo(s), s, file, path),
                      old(database.rows), database.rows, r)
      ensures ReconcileAnswers(old(database.rows), database.rows, AttachedTo(s), s, file, path, r)
    {
      ghost var tx := ReconcileBarrier(database.rows, AttachedTo(s), s, file, path);
      ReconcileMeans(database.rows, After(tx, database.rows), AttachedTo(s), s, file, path, Reply(tx));
      if path == [] || !NoDuplicates(path) { return Err(InvalidInput); }
      var refused := RequireSessionHistoryReady(s);
      if refused.Some? { return Err(refused.value); }
      if !Verified(database.rows, s, file) { return Ok(Unregistered); }
      if s !in database.rows.barriers { return Ok(Absent); }
      ReconcileIn(s, path);
      return Ok(DidReconcile);
    }

    method VerifyPendingIn(s: SessionId, file: string, retained: seq<EntryId>, active: seq<EntryId>)
      requires Valid() && NoDuplicates(active)
      modifies database
      ensures database.rows == VerifyPending(old(database.rows), s, file, retained, active)
    {
      var filled := FillLoop(SlotsOf(database.rows, s), retained, None);
      database.rows := WithVerified(database.rows, s, file);
      WriteSlots(s, filled);
      if s in database.rows.barriers && active != [] {
        var reconciled := ReconcileLoop(filled, active);
        WriteSlots(s, reconciled);
        database.rows := database.rows.(barriers := database.rows.barriers - {s});
      }
    }

    /** One registration transaction; only its commit adopts the stored generation. */
    method FinalizeSessionProjection(s: SessionId, file: string, retained: seq<EntryId>, active: seq<EntryId>, seed: Seed)
      returns (r: Result<RegisterResult, MetadataError>)
      requires Valid()
      modifies database, this
      ensures Settled(Register(old(database.rows), s, file, retained, active, seed),
                      old(database.rows), database.rows, r)
      ensures RegistrationAnswers(old(database.rows), database.rows, s, file, retained, active, seed, r)
      ensures historyEpoch == if r.Ok? then old(historyEpoch)[s := r.value.epoch] else old(historyEpoch)
    {
      ghost var tx := Register(database.rows, s, file, retained, active, seed);
      RegistrationMeans(database.rows, After(tx, database.rows), s, file, retained, active, seed, Reply(tx));
      var rows := database.rows;
      var history := HistoryOf(rows, s);
      if !NoDuplicates(retained) || !NoDuplicates(active) || exists e :: e in active && e !in retained {
        return Err(InvalidInput);
      }
      if history.resetPending && s !in rows.registry { return Err(ResetPending); }
      if Conflicts(rows, s, file) { return Err(IdentityConflict); }
      if s in rows.registry || SlotsOf(rows, s) != map[] || s in rows.barriers {
        if RowsOutside(rows, s, retained) { return Err(OutsideGraph); }
        if s !in rows.registry {
          VerifyPendingIn(s, file, retained, active);
          database.rows := EnsureHistory(database.rows, s);
        } else if !rows.registry[s].verified {
          VerifyPendingIn(s, file, retained, active);
        } else if history.resetPending {
          var filled := FillLoop(SlotsOf(rows, s), retained, Leaf(active));
          WriteSlots(s, filled);
        }
        if history.resetPending {
          database.rows := CompleteReset(database.rows, s);
        }
        historyEpoch := historyEpoch[s := history.epoch];
        return Ok(RegisterResult(true, history.resetPending, history.epoch));
      }
      if !SeedOk(seed, s, retained) { return Err(InvalidInput); }
      var projected := if seed.Fork? then seed.projection.slots else map[];
      var openLeaf := if seed.Fresh? then Leaf(active) else None;
      var seeded := SeedLoop(retained, projected, openLeaf);
      database.rows := EnsureHistory(WithVerified(rows, s, file), s);
      WriteSlots(s, seeded);
      if seed.UntrustedParent? || (seed.Fork? && seed.projection.barrier) {
        database.rows := database.rows.(barriers := database.rows.barriers + {s});
      }
      historyEpoch := historyEpoch[s := history.epoch];
      return Ok(RegisterResult(false, false, history.epoch));
    }
  }

  /** The loop over retained coordinates that protects those without a row. */
  method FillLoop(slots: Slots, retained: seq<EntryId>, openLeaf: Option<EntryId>) returns (r: Slots)
    ensures r == FillMissing(slots, retained, openLeaf)
  {
    r := slots;
    for i := 0 to |retained|
      invariant forall e :: e in r <==> e in slots || (e in retained[..i] && openLeaf != Some(e))
      invariant forall e :: e in r ==> r[e] == if e in slots then slots[e] else BlockedMissing
    {
      var e := retained[i];
      assert retained[..i + 1] == retained[..i] + [e];
      if e !in slots && openLeaf != Some(e) {
        r := r[e := BlockedMissing];
      }
    }
    assert retained[..|retained|] == retained;
  }

  method SeedLoop(retained: seq<EntryId>, projected: map<EntryId, Slot>, openLeaf: Option<EntryId>) returns (r: Slots)
    requires NoDuplicates(retained)
    ensures r == SeedSlots(retained, projected, openLeaf)
  {
    r := map[];
    for i := 0 to |retained|
      invariant forall e :: e in r <==> e in retained[..i] && SeedSlot(e, projected, openLeaf) != OpenMissing
      invariant forall e :: e in r ==> r[e] == SeedSlot(e, projected, openLeaf)
    {
      assert retained[..i + 1] == retained[..i] + [retained[i]];
      r := WriteSlot(r, retained[i], SeedSlot(retained[i], projected, openLeaf));
    }
    assert retained[..|retained|] == retained;
  }
}
