/** One whole collection: select, narrow, publish, plan, fence, remove. */
module GcRun {
  import opened Wrappers
  import opened Sequences
  import opened GcModel
  import opened GcSelection
  import opened GcPasses
  import opened GcTiers
  import opened GcConvergence
  import opened GcSweep
  import opened GcExecute
  import opened GcPlan

  /** The source's planning loop, refusing packs that changed since planning. */
  method PlanSweep(inv: Inventory, waiting: seq<IncomingFile>, mark: Mark, sel: Selection, published: set<string>,
                   planned: map<string, Pack>, graceMs: int, now: int)
    returns (r: Result<SweepPlan, Pack>)
    requires NoDuplicates(inv.objects) && DistinctPackIds(inv.packs) && NoDuplicates(waiting)
    ensures r.Ok? ==> r.value.inv == inv && r.value.waiting == waiting && r.value.mark == mark
    ensures r.Ok? ==> PlansExactly(r.value, sel, published, graceMs, now)
    ensures r.Err? <==> exists p :: p in inv.packs && RemovablePack(p, mark, sel, published, graceMs, now)
                                    && (p.id !in planned || planned[p.id] != p)
  {
    var objects := RemovableObjects(inv.objects, mark, sel, graceMs, now);
    var packs := RemovablePacks(inv.packs, mark, sel, published, graceMs, now);
    for i := 0 to |packs|
      invariant forall p :: p in packs[..i] ==> p.id in planned && planned[p.id] == p
    {
      if packs[i].id !in planned || planned[packs[i].id] != packs[i] {
        return Err(packs[i]);
      }
    }
    var incoming := RemovableIncoming(waiting, graceMs, now);
    return Ok(SweepPlan(inv, waiting, mark, objects, packs, incoming));
  }

  method RemovableIncoming(waiting: seq<IncomingFile>, graceMs: int, now: int) returns (r: seq<IncomingFile>)
    requires NoDuplicates(waiting)
    ensures NoDuplicates(r)
    ensures forall f :: f in r <==> f in waiting && Expired(f.modifiedAt, graceMs, now)
  {
    r := [];
    for i := 0 to |waiting|
      invariant NoDuplicates(r)
      invariant forall f :: f in r <==> f in waiting[..i] && Expired(f.modifiedAt, graceMs, now)
    {
      assert waiting[..i + 1] == waiting[..i] + [waiting[i]];
      if Expired(waiting[i].modifiedAt, graceMs, now) {
        r := r + [waiting[i]];
      }
    }
    assert waiting[..|waiting|] == waiting;
  }

  method RemovableObjects(objects: seq<StoreObject>, mark: Mark, sel: Selection, graceMs: int, now: int)
    returns (r: seq<StoreObject>)
    requires NoDuplicates(objects)
    ensures NoDuplicates(r)
    ensures forall o :: o in r <==> o in objects && RemovableObject(o, mark, sel, graceMs, now)
  {
    r := [];
    for i := 0 to |objects|
      invariant NoDuplicates(r)
      invariant forall o :: o in r <==> o in objects[..i] && RemovableObject(o, mark, sel, graceMs, now)
    {
      assert objects[..i + 1] == objects[..i] + [objects[i]];
      if RemovableObject(objects[i], mark, sel, graceMs, now) {
        r := r + [objects[i]];
      }
    }
    assert objects[..|objects|] == objects;
  }

  method RemovablePacks(packs: seq<Pack>, mark: Mark, sel: Selection, published: set<string>, graceMs: int, now: int)
    returns (r: seq<Pack>)
    requires DistinctPackIds(packs)
    ensures NoDuplicates(r)
    ensures forall p :: p in r <==> p in packs && RemovablePack(p, mark, sel, published, graceMs, now)
  {
    r := [];
    for i := 0 to |packs|
      invariant NoDuplicates(r)
      invariant forall p :: p in r <==> p in packs[..i] && RemovablePack(p, mark, sel, published, graceMs, now)
    {
      assert packs[..i + 1] == packs[..i] + [packs[i]];
      if RemovablePack(packs[i], mark, sel, published, graceMs, now) {
        r := r + [packs[i]];
      }
    }
    assert packs[..|packs|] == packs;
  }

  const DECODED_BYTE_BUDGET: nat := 32 * 1024 * 1024

  /** What cost heuristics, codecs and capacity limits decide, and the packs planned for a set of records. */
  datatype Decisions = Decisions(
    deltaChoices: seq<DeltaChoice>,
    lengths: map<Key, int>,
    omitted: set<string>,
    saved: map<string, nat>,
    groupFits: PackClass -> bool,
    planOf: set<Key> -> seq<Batch>,
    capacityFits: bool)

  /** Two cuts to the decoded budget around the skipped conversions, then the delta audit. */
  ghost predicate Narrows(selected: Selection, packs: seq<Pack>, d: Decisions, pruned: Selection) {
    exists first, second ::
      && Bounds(selected, d.lengths, DECODED_BYTE_BUDGET, first)
      && Bounds(OmitReplacementKeys(first, d.omitted), d.lengths, DECODED_BYTE_BUDGET, second)
      && Prunes(second, packs, d.saved, pruned)
  }

  /** Narrowed, then merged without any class growing; or, if the replacements do not fit the store, only plain removals. */
  ghost predicate Refines(selected: Selection, inv: Inventory, mark: Mark, maximum: nat, graceMs: int, now: int,
                          d: Decisions, sel: Selection)
  {
    exists pruned ::
      && Narrows(selected, inv.packs, d, pruned)
      && if d.capacityFits then NoLarger(inv, pruned, sel, d) && Merges(pruned, inv, mark, maximum, graceMs, now, d, sel)
         else && sel.partial == {} && sel.replacementKeys == {}
              && sel.fullyDead == pruned.fullyDead && sel.redundant == pruned.redundant
  }

  /** Every narrowing and extending pass between selection and publication. */
  method PlanRewrites(selected: Selection, inv: Inventory, mark: Mark, maximum: nat, graceMs: int, now: int, d: Decisions)
    returns (sel: Selection)
    requires Sound(selected, inv.packs, mark) && |selected.replacementKeys| <= maximum
    requires DistinctPackIds(inv.packs) && forall p :: p in inv.packs ==> p.size > 0
    ensures Sound(sel, inv.packs, mark) && |sel.replacementKeys| <= maximum
    ensures sel.fullyDead == selected.fullyDead && sel.redundant == selected.redundant
    ensures Refines(selected, inv, mark, maximum, graceMs, now, d, sel)
  {
    var first := BoundDecodedBytes(selected, d.lengths, DECODED_BYTE_BUDGET, inv.packs, mark);
    OmitKeepsClassified(first, d.omitted, inv.packs, mark);
    var kept := OmitReplacementKeys(first, d.omitted);
    var second := BoundDecodedBytes(kept, d.lengths, DECODED_BYTE_BUDGET, inv.packs, mark);
    sel := PruneUnproductive(second, inv.packs, mark, d.saved);
    SubsetNotLarger(sel.replacementKeys, selected.replacementKeys);
    ghost var pruned := sel;
    sel := MergeTiers(sel, inv, mark, maximum, graceMs, now, d);
    if !d.capacityFits {
      WithoutWorkIsSound(sel, inv.packs, mark);
      sel := WithoutReplacementWork(sel);
    }
    assert Narrows(selected, inv.packs, d, pruned);
  }

  /** What a selection, with the packs planned for its records, leaves standing. */
  ghost function Left(inv: Inventory, sel: Selection, d: Decisions, c: PackClass): ClassMetrics {
    Footprint(inv.packs, sel, d.planOf(sel.replacementKeys), c)
  }

  /** No class holds more packs or bytes than before, and a real change leaves one with fewer packs. */
  ghost predicate NoLarger(inv: Inventory, sel: Selection, r: Selection, d: Decisions) {
    && (forall c :: Left(inv, r, d, c).packs <= Left(inv, sel, d, c).packs)
    && (forall c :: Left(inv, r, d, c).bytes <= Left(inv, sel, d, c).bytes)
    && (r != sel ==> exists c :: Left(inv, r, d, c).packs < Left(inv, sel, d, c).packs)
  }

  lemma NoLargerTwice(inv: Inventory, sel: Selection, merged: Selection, r: Selection, d: Decisions)
    requires NoLarger(inv, sel, merged, d) && NoLarger(inv, merged, r, d)
    ensures NoLarger(inv, sel, r, d)
  {
    if merged != sel {
      var c :| Left(inv, merged, d, c).packs < Left(inv, sel, d, c).packs;
      assert Left(inv, r, d, c).packs < Left(inv, sel, d, c).packs;
    } else if r != merged {
      var c :| Left(inv, r, d, c).packs < Left(inv, merged, d, c).packs;
      assert Left(inv, r, d, c).packs < Left(inv, sel, d, c).packs;
    }
  }

  lemma ShrinksIsNoLarger(inv: Inventory, sel: Selection, r: Selection, d: Decisions, c: PackClass)
    requires Shrinks(inv.packs, sel, d.planOf(sel.replacementKeys), r, d.planOf(r.replacementKeys), c)
    ensures NoLarger(inv, sel, r, d)
  {
    forall e
      ensures Left(inv, r, d, e).packs <= Left(inv, sel, d, e).packs && Left(inv, r, d, e).bytes <= Left(inv, sel, d, e).bytes
    {
      assert e == c || e == Other(c);
    }
    assert Left(inv, r, d, c).packs < Left(inv, sel, d, c).packs;
  }

  method ChooseGroup(packClass: PackClass, sel: Selection, inv: Inventory, mark: Mark, graceMs: int, now: int)
    returns (group: Option<TierGroup>)
    requires DistinctPackIds(inv.packs) && forall p :: p in inv.packs ==> p.size > 0
    ensures group.Some? ==> Chosen(group.value, inv.packs, sel) && group.value.packClass == packClass
    ensures LowestGroup(packClass, inv.packs, sel, mark, graceMs, now, group)
  {
    group := GroupFor(packClass, inv.packs, sel, mark, graceMs, now);
    if group.Some? { GroupStands(inv.packs, group.value, sel, mark, graceMs, now); }
  }

  /** Rewriting the group would leave its class with fewer packs and no more bytes, and the other class as it was. */
  ghost predicate GroupShrinks(sel: Selection, g: TierGroup, inv: Inventory, d: Decisions) {
    && |g.packs| == 4 && g.inputBytes > 0
    && Shrinks(inv.packs, sel, d.planOf(sel.replacementKeys), sel.(partial := sel.partial + PackIds(g.packs)),
               d.planOf(sel.replacementKeys + GroupKeys(g.packs)), g.packClass)
  }

  /** A group is merged exactly when its records fit both budgets and the merge shrinks its class. */
  ghost predicate Admits(sel: Selection, group: Option<TierGroup>, inv: Inventory, maximum: nat, d: Decisions, r: Selection) {
    if group.Some? && d.groupFits(group.value.packClass) && GroupShrinks(sel, group.value, inv, d)
       && |GroupKeys(group.value.packs) - sel.replacementKeys| <= maximum - |sel.replacementKeys|
    then r.partial == sel.partial + PackIds(group.value.packs)
         && r.replacementKeys == sel.replacementKeys + GroupKeys(group.value.packs)
    else r == sel
  }

  /** The lowest full tier of each class is found first; then both groups are admitted or not, one after the other. */
  ghost predicate Merges(sel: Selection, inv: Inventory, mark: Mark, maximum: nat, graceMs: int, now: int, d: Decisions,
                         r: Selection)
  {
    exists data, metadata, merged ::
      && LowestGroup(Data, inv.packs, sel, mark, graceMs, now, data)
      && LowestGroup(Metadata, inv.packs, sel, mark, graceMs, now, metadata)
      && Admits(sel, data, inv, maximum, d, merged) && Admits(merged, metadata, inv, maximum, d, r)
  }

  /** Both groups are chosen from the same selection, then admitted one after the other. */
  method MergeTiers(sel: Selection, inv: Inventory, mark: Mark, maximum: nat, graceMs: int, now: int, d: Decisions)
    returns (r: Selection)
    requires Sound(sel, inv.packs, mark) && DistinctPackIds(inv.packs)
    requires forall p :: p in inv.packs ==> p.size > 0
    requires |sel.replacementKeys| <= maximum
    ensures Sound(r, inv.packs, mark) && |r.replacementKeys| <= maximum
    ensures r.fullyDead == sel.fullyDead && r.redundant == sel.redundant
    ensures sel.partial <= r.partial && sel.replacementKeys <= r.replacementKeys
    ensures NoLarger(inv, sel, r, d) && Merges(sel, inv, mark, maximum, graceMs, now, d, r)
  {
    var data := ChooseGroup(Data, sel, inv, mark, graceMs, now);
    var metadata := ChooseGroup(Metadata, sel, inv, mark, graceMs, now);
    var merged := AdmitGroup(sel, data, inv, mark, maximum, d);
    if metadata.Some? && data.Some? { OtherClassStands(inv.packs, data.value.packs, metadata.value.packs, sel, merged); }
    r := AdmitGroup(merged, metadata, inv, mark, maximum, d);
    assert Admits(sel, data, inv, maximum, d, merged) && Admits(merged, metadata, inv, maximum, d, r);
    NoLargerTwice(inv, sel, merged, r, d);
  }

  /** A group of packs of one class that the selection leaves standing. */
  ghost predicate Chosen(g: TierGroup, packs: seq<Pack>, sel: Selection) {
    StandingGroup(g.packs, packs, Replaced(sel), g.packClass) && g.inputBytes == SizeOf(g.packs)
  }

  /** A chosen group is made of packs of its class that nothing replaces yet. */
  lemma GroupStands(packs: seq<Pack>, g: TierGroup, sel: Selection, mark: Mark, graceMs: int, now: int)
    requires DistinctPackIds(packs)
    requires exists t: nat ::
               && |TierList(packs, g.packClass, t, sel, mark, graceMs, now)| >= SIZE_TIER_FAN_IN
               && g.packs == TierList(packs, g.packClass, t, sel, mark, graceMs, now)[..SIZE_TIER_FAN_IN]
    ensures StandingGroup(g.packs, packs, Replaced(sel), g.packClass)
  {
    var t: nat :| |TierList(packs, g.packClass, t, sel, mark, graceMs, now)| >= SIZE_TIER_FAN_IN
                  && g.packs == TierList(packs, g.packClass, t, sel, mark, graceMs, now)[..SIZE_TIER_FAN_IN];
    TierListMembers(packs, g.packClass, t, sel, mark, graceMs, now);
    TierListDistinct(packs, g.packClass, t, sel, mark, graceMs, now);
  }

  /** Merging data packs replaces no metadata pack. */
  lemma OtherClassStands(packs: seq<Pack>, data: seq<Pack>, metadata: seq<Pack>, sel: Selection, merged: Selection)
    requires DistinctPackIds(packs) && StandingGroup(data, packs, Replaced(sel), Data)
    requires StandingGroup(metadata, packs, Replaced(sel), Metadata)
    requires merged.fullyDead == sel.fullyDead && merged.redundant == sel.redundant
    requires merged.partial <= sel.partial + PackIds(data)
    ensures StandingGroup(metadata, packs, Replaced(merged), Metadata)
  {
    forall p | p in metadata ensures p.id !in PackIds(data) {
      SameIdSamePack(packs, p);
    }
  }

  /** What stands depends on which packs are replaced, not on what else is selected. */
  lemma ShrinksBySets(packs: seq<Pack>, sel: Selection, baseline: seq<Batch>, a: Selection, b: Selection,
                      candidate: seq<Batch>, c: PackClass)
    requires Replaced(a) == Replaced(b)
    ensures Shrinks(packs, sel, baseline, a, candidate, c) <==> Shrinks(packs, sel, baseline, b, candidate, c)
  { }

  /** The measured plan converges exactly when the merge shrinks its class. */
  lemma GroupDecision(sel: Selection, g: TierGroup, extended: Selection, inv: Inventory, d: Decisions)
    requires DistinctPackIds(inv.packs) && Chosen(g, inv.packs, sel)
    requires extended.fullyDead == sel.fullyDead && extended.redundant == sel.redundant
    requires extended.partial == sel.partial + PackIds(g.packs)
    requires extended.replacementKeys == sel.replacementKeys + GroupKeys(g.packs)
    ensures var baseline, candidate := d.planOf(sel.replacementKeys), d.planOf(extended.replacementKeys);
            RewriteIsConvergent(Measured(baseline), Measured(candidate), g.packClass, |g.packs|, g.inputBytes)
            <==> GroupShrinks(sel, g, inv, d)
    ensures GroupShrinks(sel, g, inv, d) ==> NoLarger(inv, sel, extended, d)
  {
    var baseline, candidate := d.planOf(sel.replacementKeys), d.planOf(extended.replacementKeys);
    ConvergentRewriteShrinks(inv.packs, sel, extended, g.packs, g.packClass, baseline, candidate);
    ShrinksBySets(inv.packs, sel, baseline, extended, sel.(partial := sel.partial + PackIds(g.packs)), candidate, g.packClass);
    if Shrinks(inv.packs, sel, baseline, extended, candidate, g.packClass) {
      ShrinksIsNoLarger(inv, sel, extended, d, g.packClass);
    }
  }

  /** Admit a group if it fits and its rewrite converges; admitting it shrinks its class. */
  method AdmitGroup(sel: Selection, group: Option<TierGroup>, inv: Inventory, mark: Mark, maximum: nat, d: Decisions)
    returns (r: Selection)
    requires Sound(sel, inv.packs, mark) && DistinctPackIds(inv.packs)
    requires |sel.replacementKeys| <= maximum
    requires group.Some? ==> Chosen(group.value, inv.packs, sel)
    ensures Sound(r, inv.packs, mark) && |r.replacementKeys| <= maximum
    ensures r.fullyDead == sel.fullyDead && r.redundant == sel.redundant
    ensures sel.partial <= r.partial <= sel.partial + if group.Some? then PackIds(group.value.packs) else {}
    ensures sel.replacementKeys <= r.replacementKeys
    ensures NoLarger(inv, sel, r, d) && Admits(sel, group, inv, maximum, d, r)
  {
    if group.None? { return sel; }
    var g := group.value;
    var extended := ExtendWithGroup(sel, g.packs, maximum, d.groupFits(g.packClass), inv.packs, mark);
    if extended.None? { return sel; }
    var baseline := MeasurePlan(d.planOf(sel.replacementKeys));
    var candidate := MeasurePlan(d.planOf(extended.value.replacementKeys));
    GroupDecision(sel, g, extended.value, inv, d);
    if !RewriteIsConvergent(baseline, candidate, g.packClass, |g.packs|, g.inputBytes) { return sel; }
    return extended.value;
  }

  /**
   * A sweep report, or where the collection stopped: while publishing packs or their index, at a root check, or
   * while removing.
   */
  datatype Outcome =
    | Swept(report: Report, writtenPacks: nat)
    | PublicationStopped(index: nat)
    | RootDrift
    | RemovalFailed(index: nat)

  /** When the rooted set is seen to differ from the one marked. */
  datatype Drift = NoDrift | BeforePlanning | BeforeCutover

  /** Publishing returns packs that hold every requested record, under content-derived ids. */
  ghost predicate PublicationContract(publish: set<Key> -> seq<Pack>, inv: Inventory, mark: Mark) {
    forall keys ::
      var packs := publish(keys);
      && DistinctPackIds(packs)
      && (forall p, q :: p in packs && q in inv.packs && p.id == q.id ==> p == q)
      && (forall k :: k in keys && k in mark.liveKeys ==> exists p :: p in packs && PackCovers(p, k, mark))
  }

  function NothingSelected(): Selection { Selection({}, {}, {}, {}, map[], {}, map[]) }

  /** Adding packs uncovers nothing, whatever they hold. */
  lemma AdditionsKeepCovered(inv: Inventory, later: Inventory, mark: Mark)
    requires Extends(inv, later) && MarkAuthentic(inv, mark) && DistinctPackIds(inv.packs)
    ensures AllCovered(later.objects, later.packs, mark)
  {
    SweepKeepsEveryLiveKey(inv, later, mark, NothingSelected(), {}, 0, 0);
    assert later == Inventory(later.objects, later.packs);
    forall k | k in mark.liveKeys ensures Covered(later, mark, k, {}, {}) {
      CoverageIsMonotone(later, mark, k, {}, GoneObjects(later, mark, NothingSelected(), 0, 0),
                         {}, GonePacks(later, mark, NothingSelected(), {}, 0, 0));
    }
  }

  /** The plan that removes nothing. */
  function EmptyPlan(inv: Inventory, waiting: seq<IncomingFile>, mark: Mark): SweepPlan {
    SweepPlan(inv, waiting, mark, [], [], [])
  }

  /** Nothing selected, and nothing expired. */
  ghost predicate NothingToDo(sel: Selection, objects: seq<StoreObject>, waiting: seq<IncomingFile>, graceMs: int, now: int) {
    && sel.replacementKeys == {} && sel.fullyDead == {} && sel.partial == {} && sel.redundant == {}
    && (forall o :: o in objects ==> o.modifiedAt >= now - graceMs)
    && (forall f :: f in waiting ==> f.modifiedAt >= now - graceMs)
  }

  /** And no tier has enough mergeable packs. */
  ghost predicate Idle(sel: Selection, store: StoreState, mark: Mark, graceMs: int, now: int)
    reads store
  {
    && NothingToDo(sel, store.objects, store.incoming, graceMs, now)
    && LowestGroup(Data, store.packs, sel, mark, graceMs, now, None)
    && LowestGroup(Metadata, store.packs, sel, mark, graceMs, now, None)
  }

  /** Whether anything is selected, expired, or worth merging. */
  method HasWork(store: StoreState, sel: Selection, mark: Mark, graceMs: int, now: int) returns (work: bool)
    requires forall p :: p in store.packs ==> p.size > 0
    ensures !work <==> Idle(sel, store, mark, graceMs, now)
  {
    if sel.replacementKeys != {} || sel.fullyDead != {} || sel.partial != {} || sel.redundant != {} { return true; }
    if exists o :: o in store.objects && Expired(o.modifiedAt, graceMs, now) { return true; }
    if exists f :: f in store.incoming && Expired(f.modifiedAt, graceMs, now) { return true; }
    var data := GroupFor(Data, store.packs, sel, mark, graceMs, now);
    var metadata := GroupFor(Metadata, store.packs, sel, mark, graceMs, now);
    work := data.Some? || metadata.Some?;
  }

  /** Then removing nothing is the whole plan. */
  lemma NoWorkNoRemovals(inv: Inventory, waiting: seq<IncomingFile>, sel: Selection, mark: Mark, published: set<string>,
                         graceMs: int, now: int)
    requires NoDuplicates(inv.objects) && DistinctPackIds(inv.packs) && NoDuplicates(waiting)
    requires NothingToDo(sel, inv.objects, waiting, graceMs, now)
    ensures PlansExactly(EmptyPlan(inv, waiting, mark), sel, published, graceMs, now)
  {
    assert GoneObjects(inv, mark, sel, graceMs, now) == {};
    assert GonePacks(inv, mark, sel, published, graceMs, now) == {};
    assert ExpiredIncoming(waiting, graceMs, now) == {};
  }

  /** A store from which nothing was removed is its own report. */
  lemma UntouchedReport(store: StoreState, mark: Mark)
    ensures var plan := EmptyPlan(Inventory(store.objects, store.packs), store.incoming, mark);
            Reports(Report(0, NothingRemoved(), KeptIn(store.objects, store.packs), false), plan, Progress(0, 0, 0), store)
  {
    var plan := EmptyPlan(Inventory(store.objects, store.packs), store.incoming, mark);
    assert plan.objects[..0] == [] && plan.packs[..0] == [];
    TallyIsExact(plan, Progress(0, 0, 0));
    KeptIsExact(store.objects, store.packs);
  }

  method KeptObjects(store: StoreState) returns (kept: nat)
    ensures kept == KeptIn(store.objects, store.packs)
  {
    kept := Total(store.objects, ObjectCount) + Total(store.packs, EntryCount);
  }

  /**
   * For every choice the heuristics make, a collection loses no live record, wherever it stops: part-way through
   * publishing, at a check that the roots are still the ones marked, or part-way through removing. What is gone is
   * a prefix of exactly the removals its selection asks for, all of them unless it was stopped, and the report says so.
   */
  method CollectGarbage(store: StoreState, mark: Mark, maximum: nat, graceMs: int, now: int, d: Decisions,
                        publish: set<Key> -> seq<Pack>, publishing: nat -> Attempt, drift: Drift, control: nat -> Attempt)
    returns (outcome: Outcome, ghost selected: Selection, ghost sel: Selection, ghost plan: SweepPlan, ghost done: Progress)
    requires NoDuplicates(store.objects) && DistinctPackIds(store.packs) && NoDuplicates(store.incoming)
    requires forall p :: p in store.packs ==> p.size > 0
    requires MarkAuthentic(Inventory(store.objects, store.packs), mark)
    requires forall c :: c in d.deltaChoices && c.Source? ==> c.pack in store.packs
    requires PublicationContract(publish, Inventory(store.objects, store.packs), mark)
    modifies store
    ensures forall k :: k in mark.liveKeys ==> Represented(store.objects, store.packs, mark, k)
    ensures Sound(sel, old(store.packs), mark) && |sel.replacementKeys| <= maximum
    ensures Selects(Inventory(old(store.objects), old(store.packs)), mark, maximum, graceMs, now, selected)
    ensures if old(Idle(selected, store, mark, graceMs, now)) then sel == selected && plan.objects == [] && plan.packs == []
            else Refines(selected, Inventory(old(store.objects), old(store.packs)), mark, maximum, graceMs, now, d, sel)
    ensures plan.inv.objects == old(store.objects) && old(store.packs) <= plan.inv.packs
    ensures plan.waiting == old(store.incoming) && plan.mark == mark
    ensures done.Within(plan) && store.After(plan, done)
    ensures outcome.Swept? || outcome.RemovalFailed? ==>
              PlansExactly(plan, sel, PackIds(publish(sel.replacementKeys)), graceMs, now)
    ensures Spares(store, plan.inv, plan.waiting, mark, sel, graceMs, now)
    ensures outcome.Swept? && !outcome.report.stopped ==>
              Clears(store, Inventory(old(store.objects), old(store.packs)), old(store.incoming), mark, sel,
                     PackIds(publish(sel.replacementKeys)), graceMs, now)
    ensures match outcome
            case Swept(report, written) =>
              && Reports(report, plan, done, store) && written == |plan.inv.packs| - |old(store.packs)|
              && (report.stopped ==> control(done.Steps()) == Cancelled)
            case PublicationStopped(i) => publishing(i) != Proceeds && done == Progress(0, 0, 0)
            case RootDrift => drift != NoDrift && done == Progress(0, 0, 0)
            case RemovalFailed(i) => i == done.Steps() && control(i) == Fails
  {
    var inv := Inventory(store.objects, store.packs);
    AdditionsKeepCovered(inv, inv, mark);
    CoveredIsRepresented(store.objects, store.packs, mark);
    var chosen := SelectCompaction(inv, mark, maximum, graceMs, now, d.deltaChoices);
    selected, sel, plan, done := chosen, chosen, EmptyPlan(inv, store.incoming, mark), Progress(0, 0, 0);
    NothingGoneYet(plan, store);
    UntouchedSpares(store, inv, store.incoming, mark, sel, graceMs, now);
    SelectedDeadListed(inv.packs, mark, sel, graceMs, now);
    var work := HasWork(store, chosen, mark, graceMs, now);
    if !work {
      if drift == BeforePlanning {
        outcome := RootDrift;
        return;
      }
      if publishing(0) != Proceeds {
        outcome := PublicationStopped(0);
        return;
      }
      NoWorkNoRemovals(inv, store.incoming, chosen, mark, PackIds(publish(sel.replacementKeys)), graceMs, now);
      UntouchedReport(store, mark);
      PlanClears(store, plan, done, sel, PackIds(publish(sel.replacementKeys)), graceMs, now, inv.packs);
      var kept := KeptObjects(store);
      outcome := Swept(Report(0, NothingRemoved(), kept, false), 0);
      return;
    }
    var refined := PlanRewrites(chosen, inv, mark, maximum, graceMs, now, d);
    sel := refined;
    outcome, plan, done := PublishAndSweep(store, refined, mark, graceMs, now, publish, publishing, drift, control);
    CoveredIsRepresented(store.objects, store.packs, mark);
  }

  /** From a sound selection on: publish what it replaces, check the roots, sweep. */
  method PublishAndSweep(store: StoreState, sel: Selection, mark: Mark, graceMs: int, now: int,
                         publish: set<Key> -> seq<Pack>, publishing: nat -> Attempt, drift: Drift, control: nat -> Attempt)
    returns (outcome: Outcome, ghost plan: SweepPlan, ghost done: Progress)
    requires Sound(sel, store.packs, mark) && MarkAuthentic(Inventory(store.objects, store.packs), mark)
    requires NoDuplicates(store.objects) && DistinctPackIds(store.packs) && NoDuplicates(store.incoming)
    requires PublicationContract(publish, Inventory(store.objects, store.packs), mark)
    requires DeadListed(store.packs, mark, sel, graceMs, now)
    modifies store
    ensures AllCovered(store.objects, store.packs, mark)
    ensures plan.inv.objects == old(store.objects) && old(store.packs) <= plan.inv.packs
    ensures plan.waiting == old(store.incoming) && plan.mark == mark
    ensures done.Within(plan) && store.After(plan, done)
    ensures outcome.Swept? || outcome.RemovalFailed? ==>
              PlansExactly(plan, sel, PackIds(publish(sel.replacementKeys)), graceMs, now)
    ensures Spares(store, plan.inv, plan.waiting, mark, sel, graceMs, now)
    ensures outcome.Swept? && !outcome.report.stopped ==>
              Clears(store, Inventory(old(store.objects), old(store.packs)), old(store.incoming), mark, sel,
                     PackIds(publish(sel.replacementKeys)), graceMs, now)
    ensures match outcome
            case Swept(report, written) =>
              && Reports(report, plan, done, store) && written == |plan.inv.packs| - |old(store.packs)|
              && (report.stopped ==> control(done.Steps()) == Cancelled)
            case PublicationStopped(i) => publishing(i) != Proceeds && done == Progress(0, 0, 0)
            case RootDrift => drift != NoDrift && done == Progress(0, 0, 0)
            case RemovalFailed(i) => i == done.Steps() && control(i) == Fails
  {
    var inv := Inventory(store.objects, store.packs);
    var packs := publish(sel.replacementKeys);
    var written, stopped := PublishPacks(store, packs, publishing);
    ghost var later := Inventory(store.objects, store.packs);
    AdditionsKeepCovered(inv, later, mark);
    plan, done := EmptyPlan(later, store.incoming, mark), Progress(0, 0, 0);
    NothingGoneYet(plan, store);
    UntouchedSpares(store, later, store.incoming, mark, sel, graceMs, now);
    if stopped.Some? { return PublicationStopped(stopped.value), plan, done; }
    if drift == BeforePlanning { return RootDrift, plan, done; }
    PublishedHolds(inv, later, mark, sel, publish);
    var removals := PlanRemovals(store, inv, mark, sel, PackIds(packs), graceMs, now);
    plan := removals;
    outcome, done := Sweep(store, removals, written, drift, control);
    PlanSpares(store, removals, done, sel, PackIds(packs), graceMs, now);
    if outcome.Swept? && !outcome.report.stopped {
      PlanClears(store, removals, done, sel, PackIds(packs), graceMs, now, inv.packs);
    }
  }

  /** What was asked for is in the packs just published. */
  lemma PublishedHolds(inv: Inventory, later: Inventory, mark: Mark, sel: Selection, publish: set<Key> -> seq<Pack>)
    requires PublicationContract(publish, inv, mark) && forall p :: p in publish(sel.replacementKeys) ==> p in later.packs
    ensures Published(sel, later, mark, PackIds(publish(sel.replacementKeys)))
  {
    var packs := publish(sel.replacementKeys);
    forall k | k in sel.replacementKeys && k in mark.liveKeys
      ensures exists p :: p in later.packs && p.id in PackIds(packs) && PackCovers(p, k, mark)
    {
      var p :| p in packs && PackCovers(p, k, mark);
      assert p in later.packs && p.id in PackIds(packs);
    }
  }

  /** Plan the removals and pass the fence; neither the change check nor the fence can fire. */
  method PlanRemovals(store: StoreState, inv: Inventory, mark: Mark, sel: Selection, published: set<string>,
                      graceMs: int, now: int)
    returns (plan: SweepPlan)
    requires Sound(sel, inv.packs, mark) && DistinctPackIds(inv.packs)
    requires NoDuplicates(store.objects) && NoDuplicates(store.incoming)
    requires Extends(inv, Inventory(store.objects, store.packs)) && MarkAuthentic(inv, mark)
    requires Published(sel, Inventory(store.objects, store.packs), mark, published)
    requires forall p :: p in store.packs ==> p in inv.packs || p.id in published
    ensures plan.inv == Inventory(store.objects, store.packs) && plan.waiting == store.incoming && plan.mark == mark
    ensures PlansExactly(plan, sel, published, graceMs, now) && KeepsCoverage(plan)
  {
    var later := Inventory(store.objects, store.packs);
    var planned := PacksById(inv.packs);
    var r := PlanSweep(later, store.incoming, mark, sel, published, planned, graceMs, now);
    SweepKeepsEveryLiveKey(inv, later, mark, sel, published, graceMs, now);
    OnlyPlannedPacksGo(inv, later, mark, sel, published, graceMs, now, planned);
    // The source refuses packs that changed since planning; under the lock none can have.
    if r.Err? { assert false; }
    plan := r.value;
    var missing := FindUncovered(later, mark, set o | o in plan.objects, set p | p in plan.packs :: p.id);
    assert Elements(plan.objects) == set o | o in plan.objects;
    // The source throws "no retained coverage" here; this branch cannot be taken.
    if missing.Some? { assert false; }
  }

  /** How a sweep of a plan may end. */
  ghost predicate SweepEnds(outcome: Outcome, store: StoreState, plan: SweepPlan, done: Progress, written: nat,
                            drift: Drift, control: nat -> Attempt)
    reads store
    requires done.Within(plan)
  {
    match outcome
    case Swept(report, n) =>
      n == written && Reports(report, plan, done, store) && (report.stopped ==> control(done.Steps()) == Cancelled)
    case PublicationStopped(_) => false
    case RootDrift => drift == BeforeCutover && done == Progress(0, 0, 0)
    case RemovalFailed(i) => i == done.Steps() && control(i) == Fails
  }

  method RemovePlanned(store: StoreState, plan: SweepPlan, written: nat, drift: Drift, control: nat -> Attempt)
    returns (outcome: Outcome, ghost done: Progress)
    requires ValidPlan(plan) && KeepsCoverage(plan)
    requires store.objects == plan.inv.objects && store.packs == plan.inv.packs && store.incoming == plan.waiting
    modifies store
    ensures AllCovered(store.objects, store.packs, plan.mark)
    ensures done.Within(plan) && store.After(plan, done) && SweepEnds(outcome, store, plan, done, written, drift, control)
  {
    var result;
    result, done := ExecuteSweep(store, plan, control);
    outcome := if result.Ok? then Swept(result.value, written) else RemovalFailed(result.error);
  }

  /** Check the roots again if anything is to go, then carry the plan out. */
  method Sweep(store: StoreState, plan: SweepPlan, written: nat, drift: Drift, control: nat -> Attempt)
    returns (outcome: Outcome, ghost done: Progress)
    requires ValidPlan(plan) && KeepsCoverage(plan) && AllCovered(store.objects, store.packs, plan.mark)
    requires store.objects == plan.inv.objects && store.packs == plan.inv.packs && store.incoming == plan.waiting
    modifies store
    ensures AllCovered(store.objects, store.packs, plan.mark)
    ensures done.Within(plan) && store.After(plan, done) && SweepEnds(outcome, store, plan, done, written, drift, control)
  {
    if drift == BeforeCutover && (plan.objects != [] || plan.packs != [] || plan.incoming != []) {
      NothingGoneYet(plan, store);
      outcome, done := RootDrift, Progress(0, 0, 0);
    } else {
      outcome, done := RemovePlanned(store, plan, written, drift, control);
    }
  }

  /** Write the encoded packs one after the other, then their index; a pack that is there already is not written again. */
  method PublishPacks(store: StoreState, packs: seq<Pack>, publishing: nat -> Attempt)
    returns (written: nat, stopped: Option<nat>)
    requires DistinctPackIds(store.packs) && DistinctPackIds(packs)
    requires forall p, q :: p in packs && q in store.packs && p.id == q.id ==> p == q
    modifies store`packs
    ensures DistinctPackIds(store.packs) && old(store.packs) <= store.packs
    ensures written == |store.packs| - |old(store.packs)|
    ensures forall p :: p in store.packs ==> p in old(store.packs) || p in packs
    ensures stopped.None? ==> forall p :: p in packs ==> p in store.packs
    ensures stopped.Some? ==> publishing(stopped.value) != Proceeds
  {
    written := 0;
    for i := 0 to |packs|
      invariant DistinctPackIds(store.packs) && old(store.packs) <= store.packs
      invariant written == |store.packs| - |old(store.packs)|
      invariant forall p :: p in store.packs ==> p in old(store.packs) || p in packs[..i]
      invariant forall p :: p in packs[..i] ==> p in store.packs
    {
      assert packs[..i + 1] == packs[..i] + [packs[i]];
      if publishing(i) != Proceeds { return written, Some(i); }
      if packs[i] !in store.packs {
        assert forall p :: p in store.packs ==> p.id != packs[i].id;
        store.packs := store.packs + [packs[i]];
        written := written + 1;
      }
    }
    assert packs[..|packs|] == packs;
    // The index of the packs comes last.
    stopped := if publishing(|packs|) != Proceeds then Some(|packs|) else None;
  }

  method PacksById(packs: seq<Pack>) returns (byId: map<string, Pack>)
    requires DistinctPackIds(packs)
    ensures forall p :: p in packs ==> p.id in byId && byId[p.id] == p
  {
    byId := map[];
    for i := 0 to |packs|
      invariant forall p :: p in packs[..i] ==> p.id in byId && byId[p.id] == p
    {
      SameIdSamePack(packs, packs[i]);
      assert packs[..i + 1] == packs[..i] + [packs[i]];
      byId := byId[packs[i].id := packs[i]];
    }
    assert packs[..|packs|] == packs;
  }

  /** Removable packs were all planned: newly published ones are excluded. */
  lemma OnlyPlannedPacksGo(inv: Inventory, later: Inventory, mark: Mark, sel: Selection, published: set<string>,
                           graceMs: int, now: int, planned: map<string, Pack>)
    requires forall p :: p in later.packs ==> p in inv.packs || p.id in published
    requires forall p :: p in inv.packs ==> p.id in planned && planned[p.id] == p
    ensures forall p :: p in later.packs && RemovablePack(p, mark, sel, published, graceMs, now) ==>
              p.id in planned && planned[p.id] == p
  {
  }
}
