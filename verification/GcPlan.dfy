/** What a planned sweep spares and clears, by age and by what still refers to it. */
module GcPlan {
  import opened Wrappers
  import opened Sequences
  import opened GcModel
  import opened GcSelection
  import opened GcSweep
  import opened GcExecute

  /** The removals a selection asks for, and no others. */
  ghost predicate PlansExactly(plan: SweepPlan, sel: Selection, published: set<string>, graceMs: int, now: int) {
    && ValidPlan(plan)
    && Elements(plan.objects) == GoneObjects(plan.inv, plan.mark, sel, graceMs, now)
    && PackIds(plan.packs) == GonePacks(plan.inv, plan.mark, sel, published, graceMs, now)
    && Elements(plan.incoming) == ExpiredIncoming(plan.waiting, graceMs, now)
  }

  function ExpiredIncoming(waiting: seq<IncomingFile>, graceMs: int, now: int): set<IncomingFile> {
    set f | f in waiting && Expired(f.modifiedAt, graceMs, now)
  }

  /** A finished loose file that stores this record. */
  ghost predicate Stores(o: StoreObject, k: Key, mark: Mark) {
    && !o.temporary && o.id == Some(k.id)
    && match o.kind
       case LegacyBlob => k.kind == Content
       case LooseContent => k.kind == Content
       case LooseRecipe => k.kind == Recipe
       case LooseStructural => k.id in mark.structuralKinds && k.kind in mark.structuralKinds[k.id]
  }

  /** A packed copy that may stand for its record: a chunked content only if marking read that content as chunked. */
  ghost predicate StandsFor(e: PackEntry, k: Key, mark: Mark) {
    && e.key == k
    && (k.kind == Content && e.encoding == ChunkedV1 ==>
          k.id in mark.selected && match mark.selected[k.id]
                                   case InPack(_, _, encoding) => encoding == ChunkedV1
                                   case InLooseContent(encoding) => encoding == ChunkedV1
                                   case InLegacyBlob => false)
  }

  ghost predicate Represented(objects: seq<StoreObject>, packs: seq<Pack>, mark: Mark, k: Key) {
    || (exists o :: o in objects && Stores(o, k, mark))
    || (exists p, e :: p in packs && e in p.entries && StandsFor(e, k, mark))
  }

  lemma KeysAreStored(o: StoreObject, mark: Mark)
    ensures forall k :: k in ObjectKeys(o, mark) <==> Stores(o, k, mark)
  { }

  lemma CoveredIsRepresented(objects: seq<StoreObject>, packs: seq<Pack>, mark: Mark)
    requires AllCovered(objects, packs, mark)
    ensures forall k :: k in mark.liveKeys ==> Represented(objects, packs, mark, k)
  {
    forall k | k in mark.liveKeys ensures Represented(objects, packs, mark, k) {
      var inv := Inventory(objects, packs);
      assert Covered(inv, mark, k, {}, {});
      if o :| o in inv.objects && k in ObjectKeys(o, mark) {
        KeysAreStored(o, mark);
      } else {
        var p :| p in inv.packs && PackCovers(p, k, mark);
        var e :| e in p.entries && e.key == k && EntryCovers(e, mark);
        assert StandsFor(e, k, mark);
      }
    }
  }

  /** Temporary, or holding no live record. */
  ghost predicate Unreferenced(o: StoreObject, mark: Mark) {
    forall k :: k in mark.liveKeys ==> !Stores(o, k, mark)
  }

  /** Everything it stores is republished. */
  ghost predicate Republished(o: StoreObject, mark: Mark, sel: Selection) {
    forall k :: Stores(o, k, mark) ==> k in sel.replacementKeys
  }

  ghost predicate HoldsNothingLive(p: Pack, mark: Mark) {
    forall e :: e in p.entries ==> e.key !in mark.liveKeys
  }

  /** Within the grace period nothing goes but rewritten packs and replaced objects; later, nothing else that is live. */
  ghost predicate Spares(store: StoreState, inv: Inventory, waiting: seq<IncomingFile>, mark: Mark, sel: Selection,
                         graceMs: int, now: int)
    reads store
  {
    && (forall o :: o in inv.objects && Unreferenced(o, mark) && o.modifiedAt >= now - graceMs ==> o in store.objects)
    && (forall o :: o in inv.objects && !Unreferenced(o, mark) && !Republished(o, mark, sel) ==>
          o in store.objects)
    && (forall f :: f in waiting && f.modifiedAt >= now - graceMs ==> f in store.incoming)
    && (forall p :: p in inv.packs && p.id !in sel.partial && p.mtime >= now - graceMs ==> p in store.packs)
    && (forall p :: p in inv.packs && p.id !in sel.partial + sel.redundant && !HoldsNothingLive(p, mark) ==>
          p in store.packs)
  }

  /** Nothing unreferenced outlives the grace period, and nothing replaced, rewritten or redundant stays. */
  ghost predicate Clears(store: StoreState, inv: Inventory, waiting: seq<IncomingFile>, mark: Mark, sel: Selection,
                         published: set<string>, graceMs: int, now: int)
    reads store
  {
    && (forall o :: o in inv.objects && Unreferenced(o, mark) && o.modifiedAt < now - graceMs ==> o !in store.objects)
    && (forall o :: o in inv.objects && !Unreferenced(o, mark) && Republished(o, mark, sel) ==>
          o !in store.objects)
    && (forall f :: f in waiting && f.modifiedAt < now - graceMs ==> f !in store.incoming)
    && (forall p :: p in inv.packs && p.id !in published && HoldsNothingLive(p, mark) && p.mtime < now - graceMs ==>
          p !in store.packs)
    && (forall p :: p in inv.packs && p.id !in published && p.id in sel.partial ==> p !in store.packs)
    && (forall p :: p in inv.packs && p.id !in published && p.id in sel.redundant && p.mtime < now - graceMs ==>
          p !in store.packs)
  }

  /** What goes for its age, and what goes because it is replaced. */
  ghost predicate GoesByAge(o: StoreObject, mark: Mark, sel: Selection, graceMs: int, now: int) {
    if Unreferenced(o, mark) then o.modifiedAt < now - graceMs else Republished(o, mark, sel)
  }

  ghost predicate PackGoes(p: Pack, mark: Mark, sel: Selection, published: set<string>, graceMs: int, now: int) {
    && p.id !in published
    && (|| (HoldsNothingLive(p, mark) && p.id in sel.fullyDead && p.mtime < now - graceMs)
        || p.id in sel.partial
        || (p.id in sel.redundant && p.mtime < now - graceMs))
  }

  lemma NotLiveMeans(o: StoreObject, mark: Mark)
    ensures Unreferenced(o, mark) <==> o.temporary || !ObjectIsLive(o, mark)
    ensures ObjectIsLive(o, mark) ==> ObjectKeys(o, mark) != {}
  {
    KeysAreStored(o, mark);
    if k :| k in mark.liveKeys && Stores(o, k, mark) { assert k in ObjectKeys(o, mark) * mark.liveKeys; }
  }

  lemma ObjectPlanned(plan: SweepPlan, sel: Selection, published: set<string>, graceMs: int, now: int, o: StoreObject)
    requires PlansExactly(plan, sel, published, graceMs, now) && o in plan.inv.objects
    ensures o in plan.objects <==> GoesByAge(o, plan.mark, sel, graceMs, now)
  {
    assert o in plan.objects <==> o in Elements(plan.objects);
    KeysAreStored(o, plan.mark);
    NotLiveMeans(o, plan.mark);
    assert Republished(o, plan.mark, sel) <==> ObjectKeys(o, plan.mark) <= sel.replacementKeys;
  }

  lemma PackPlanned(plan: SweepPlan, sel: Selection, published: set<string>, graceMs: int, now: int, p: Pack)
    requires PlansExactly(plan, sel, published, graceMs, now) && p in plan.inv.packs
    ensures p in plan.packs <==> PackGoes(p, plan.mark, sel, published, graceMs, now)
  {
    SameIdSamePack(plan.inv.packs, p);
    NothingLive(p, plan.mark);
    assert p.id in PackIds(plan.packs) <==> p in plan.packs;
  }

  lemma NothingLive(p: Pack, mark: Mark)
    ensures HoldsNothingLive(p, mark) <==> LivePackKeys(p, mark) == {}
  {
    if e :| e in p.entries && e.key in mark.liveKeys { assert e.key in LivePackKeys(p, mark); }
  }

  lemma FilePlanned(plan: SweepPlan, sel: Selection, published: set<string>, graceMs: int, now: int, f: IncomingFile)
    requires PlansExactly(plan, sel, published, graceMs, now) && f in plan.waiting
    ensures f in plan.incoming <==> f.modifiedAt < now - graceMs
  {
    assert f in plan.incoming <==> f in Elements(plan.incoming);
  }

  /** What the plan leaves alone is there after any prefix, and what it names is gone at its end. */
  lemma PlanLeaves(store: StoreState, plan: SweepPlan, done: Progress)
    requires done.Within(plan) && store.After(plan, done)
    ensures forall o :: o in plan.inv.objects && o !in plan.objects ==> o in store.objects
    ensures forall p :: p in plan.inv.packs && p !in plan.packs ==> p in store.packs
    ensures forall f :: f in plan.waiting && f !in plan.incoming ==> f in store.incoming
    ensures done.Complete(plan) ==>
              && (forall o :: o in plan.objects ==> o !in store.objects)
              && (forall p :: p in plan.packs ==> p !in store.packs)
              && (forall f :: f in plan.incoming ==> f !in store.incoming)
  {
    FilterOutMembers(plan.inv.objects, Elements(plan.objects[..done.objects]));
    FilterOutMembers(plan.inv.packs, Elements(plan.packs[..done.packs]));
    FilterOutMembers(plan.waiting, Elements(plan.incoming[..done.incoming]));
  }

  /** Whatever prefix of the plan was carried out. */
  lemma PlanSpares(store: StoreState, plan: SweepPlan, done: Progress, sel: Selection, published: set<string>,
                   graceMs: int, now: int)
    requires PlansExactly(plan, sel, published, graceMs, now) && done.Within(plan) && store.After(plan, done)
    ensures Spares(store, plan.inv, plan.waiting, plan.mark, sel, graceMs, now)
  {
    PlanLeaves(store, plan, done);
    forall o | o in plan.inv.objects ensures o in plan.objects <==> GoesByAge(o, plan.mark, sel, graceMs, now) {
      ObjectPlanned(plan, sel, published, graceMs, now, o);
    }
    forall p | p in plan.inv.packs ensures p in plan.packs <==> PackGoes(p, plan.mark, sel, published, graceMs, now) {
      PackPlanned(plan, sel, published, graceMs, now, p);
    }
    forall f | f in plan.waiting ensures f in plan.incoming <==> f.modifiedAt < now - graceMs {
      FilePlanned(plan, sel, published, graceMs, now, f);
    }
  }

  /** A store that lost nothing spares everything. */
  lemma UntouchedSpares(store: StoreState, inv: Inventory, waiting: seq<IncomingFile>, mark: Mark, sel: Selection,
                        graceMs: int, now: int)
    requires store.objects == inv.objects && store.packs == inv.packs && store.incoming == waiting
    ensures Spares(store, inv, waiting, mark, sel, graceMs, now)
  { }

  /** The whole plan, for a selection that lists the old packs without a live record as dead. */
  lemma PlanClears(store: StoreState, plan: SweepPlan, done: Progress, sel: Selection, published: set<string>,
                   graceMs: int, now: int, packs: seq<Pack>)
    requires PlansExactly(plan, sel, published, graceMs, now) && done.Within(plan) && done.Complete(plan)
    requires store.After(plan, done) && packs <= plan.inv.packs && DeadListed(packs, plan.mark, sel, graceMs, now)
    ensures Clears(store, Inventory(plan.inv.objects, packs), plan.waiting, plan.mark, sel, published, graceMs, now)
  {
    PlanLeaves(store, plan, done);
    forall o | o in plan.inv.objects ensures o in plan.objects <==> GoesByAge(o, plan.mark, sel, graceMs, now) {
      ObjectPlanned(plan, sel, published, graceMs, now, o);
    }
    forall p | p in packs ensures p in plan.packs <==> PackGoes(p, plan.mark, sel, published, graceMs, now) {
      PackPlanned(plan, sel, published, graceMs, now, p);
    }
    forall f | f in plan.waiting ensures f in plan.incoming <==> f.modifiedAt < now - graceMs {
      FilePlanned(plan, sel, published, graceMs, now, f);
    }
  }

  ghost predicate DeadListed(packs: seq<Pack>, mark: Mark, sel: Selection, graceMs: int, now: int) {
    forall p :: p in packs && HoldsNothingLive(p, mark) && p.mtime < now - graceMs ==> p.id in sel.fullyDead
  }

  lemma SelectedDeadListed(packs: seq<Pack>, mark: Mark, sel: Selection, graceMs: int, now: int)
    requires sel.fullyDead == set p | p in packs && LivePackKeys(p, mark) == {} && Expired(p.mtime, graceMs, now) :: p.id
    ensures DeadListed(packs, mark, sel, graceMs, now)
  {
    forall p | p in packs && HoldsNothingLive(p, mark) && p.mtime < now - graceMs ensures p.id in sel.fullyDead {
      NothingLive(p, mark);
    }
  }
}
