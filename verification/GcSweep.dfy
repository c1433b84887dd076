/** Planning the deletions, the coverage fence, and why that fence never fires. */
module GcSweep {
  import opened Wrappers
  import opened GcModel
  import opened GcOwners
  import opened GcSelection

  predicate RemovableObject(o: StoreObject, mark: Mark, sel: Selection, graceMs: int, now: int) {
    if o.temporary || !ObjectIsLive(o, mark) then Expired(o.modifiedAt, graceMs, now)
    else ObjectKeys(o, mark) != {} && ObjectKeys(o, mark) <= sel.replacementKeys
  }

  predicate RemovablePack(p: Pack, mark: Mark, sel: Selection, published: set<string>, graceMs: int, now: int) {
    && p.id !in published
    && (|| (LivePackKeys(p, mark) == {} && p.id in sel.fullyDead && Expired(p.mtime, graceMs, now))
        || p.id in sel.partial
        || (p.id in sel.redundant && Expired(p.mtime, graceMs, now)))
  }

  function GoneObjects(inv: Inventory, mark: Mark, sel: Selection, graceMs: int, now: int): set<StoreObject> {
    set o | o in inv.objects && RemovableObject(o, mark, sel, graceMs, now)
  }

  function GonePacks(inv: Inventory, mark: Mark, sel: Selection, published: set<string>, graceMs: int, now: int): set<string> {
    set p | p in inv.packs && RemovablePack(p, mark, sel, published, graceMs, now) :: p.id
  }

  /** The store after publication: nothing lost, packs added, ids still distinct. */
  ghost predicate Extends(inv: Inventory, later: Inventory) {
    && later.objects == inv.objects
    && (forall p :: p in inv.packs ==> p in later.packs)
    && DistinctPackIds(later.packs)
  }

  /** The publication contract: each requested record is in a published pack. */
  ghost predicate Published(sel: Selection, later: Inventory, mark: Mark, published: set<string>) {
    forall k :: k in sel.replacementKeys && k in mark.liveKeys ==>
      exists p :: p in later.packs && p.id in published && PackCovers(p, k, mark)
  }

  /** The pack that owns a record nobody republishes is in no removal class. */
  lemma OwnerSurvives(inv: Inventory, later: Inventory, mark: Mark, sel: Selection, published: set<string>,
                      graceMs: int, now: int, owner: Pack, k: Key)
    requires Sound(sel, inv.packs, mark) && Extends(inv, later)
    requires owner in inv.packs && k in OwnedLive(owner, inv.packs, mark)
    requires k !in sel.replacementKeys
    ensures owner.id !in GonePacks(later, mark, sel, published, graceMs, now)
  {
    SameIdSamePack(later.packs, owner);
  }

  lemma LooseContentHasObject(inv: Inventory, mark: Mark, k: Key)
    requires MarkAuthentic(inv, mark) && k in mark.liveKeys && k.kind == Content
    requires !mark.selected[k.id].InPack?
    ensures exists o :: o in inv.objects && k in ObjectKeys(o, mark)
  {
    assert k == Key(Content, k.id);
    var o :| o in inv.objects && (o.kind == LegacyBlob || o.kind == LooseContent) && !o.temporary && o.id == Some(k.id);
    assert k in ObjectKeys(o, mark);
  }

  /** A live record nobody republishes keeps a representation that may stand for it. */
  lemma UnreplacedKeyKept(inv: Inventory, later: Inventory, mark: Mark, sel: Selection, published: set<string>,
                          graceMs: int, now: int, k: Key)
    requires Sound(sel, inv.packs, mark) && Extends(inv, later) && MarkAuthentic(inv, mark)
    requires DistinctPackIds(inv.packs)
    requires k in mark.liveKeys && k !in sel.replacementKeys
    ensures Covered(later, mark, k, GoneObjects(later, mark, sel, graceMs, now),
                    GonePacks(later, mark, sel, published, graceMs, now))
  {
    if k.kind == Content && !mark.selected[k.id].InPack? {
      LooseContentHasObject(inv, mark, k);
    }
    if o :| o in inv.objects && k in ObjectKeys(o, mark) {
      assert ObjectIsLive(o, mark) by { assert k in ObjectKeys(o, mark) * mark.liveKeys; }
      assert o !in GoneObjects(later, mark, sel, graceMs, now);
    } else if k.kind == Content {
      var location := mark.selected[k.id];
      assert k == Key(Content, k.id);
      var p, e :| p in inv.packs && p.id == location.packId && e in p.entries && e.key == Key(Content, k.id)
                  && e.ordinal == location.ordinal && e.encoding == location.encoding;
      var owner := OwnerExists(inv.packs, mark, k, p);
      assert LocationPresent(Inventory([], inv.packs), k.id, location);
      SameIdSamePack(inv.packs, p);
      OwnerSurvives(inv, later, mark, sel, published, graceMs, now, p, k);
      assert PackCovers(p, k, mark);
    } else {
      var p :| p in inv.packs && PackCovers(p, k, mark);
      var owner := OwnerExists(inv.packs, mark, k, p);
      OwnerSurvives(inv, later, mark, sel, published, graceMs, now, owner, k);
      var e :| e in owner.entries && e.key == k;
      assert EntryCovers(e, mark);
      assert PackCovers(owner, k, mark);
    }
  }

  /** Coverage by construction: the planned removals leave every live record represented. */
  lemma SweepKeepsEveryLiveKey(inv: Inventory, later: Inventory, mark: Mark, sel: Selection,
                               published: set<string>, graceMs: int, now: int)
    requires Sound(sel, inv.packs, mark) && Extends(inv, later) && MarkAuthentic(inv, mark)
    requires DistinctPackIds(inv.packs) && Published(sel, later, mark, published)
    ensures forall k :: k in mark.liveKeys ==>
              Covered(later, mark, k, GoneObjects(later, mark, sel, graceMs, now),
                      GonePacks(later, mark, sel, published, graceMs, now))
  {
    forall k | k in mark.liveKeys
      ensures Covered(later, mark, k, GoneObjects(later, mark, sel, graceMs, now),
                      GonePacks(later, mark, sel, published, graceMs, now))
    {
      if k in sel.replacementKeys {
        var p :| p in later.packs && p.id in published && PackCovers(p, k, mark);
        SameIdSamePack(later.packs, p);
        assert p.id !in GonePacks(later, mark, sel, published, graceMs, now);
      } else {
        UnreplacedKeyKept(inv, later, mark, sel, published, graceMs, now, k);
      }
    }
  }

  /** Removing less keeps at least as much, so every prefix of the plan is safe too. */
  lemma CoverageIsMonotone(inv: Inventory, mark: Mark, k: Key, some: set<StoreObject>, all: set<StoreObject>,
                           somePacks: set<string>, allPacks: set<string>)
    requires some <= all && somePacks <= allPacks
    requires Covered(inv, mark, k, all, allPacks)
    ensures Covered(inv, mark, k, some, somePacks)
  {
  }

  /** Records with a retained loose object, or a retained entry that may stand for them. */
  ghost function ObjectCovered(objects: seq<StoreObject>, mark: Mark, gone: set<StoreObject>): set<Key> {
    set o, k | o in objects && o !in gone && k in ObjectKeys(o, mark) :: k
  }

  ghost function PackCovered(packs: seq<Pack>, mark: Mark, gone: set<string>): set<Key> {
    set p, e | p in packs && p.id !in gone && e in p.entries && EntryCovers(e, mark) :: e.key
  }

  lemma CoveredMeans(inv: Inventory, mark: Mark, goneObjects: set<StoreObject>, gonePacks: set<string>, k: Key)
    ensures Covered(inv, mark, k, goneObjects, gonePacks) <==>
            k in ObjectCovered(inv.objects, mark, goneObjects) + PackCovered(inv.packs, mark, gonePacks)
  {
    if p :| p in inv.packs && p.id !in gonePacks && PackCovers(p, k, mark) {
      var e :| e in p.entries && e.key == k && EntryCovers(e, mark);
      assert k in PackCovered(inv.packs, mark, gonePacks);
    }
    if k in PackCovered(inv.packs, mark, gonePacks) {
      var p, e :| p in inv.packs && p.id !in gonePacks && e in p.entries && EntryCovers(e, mark) && e.key == k;
      assert PackCovers(p, k, mark);
    }
  }

  /** The fence: look for a live record with no retained candidate. */
  method FindUncovered(inv: Inventory, mark: Mark, goneObjects: set<StoreObject>, gonePacks: set<string>)
    returns (missing: Option<Key>)
    ensures missing.None? <==> forall k :: k in mark.liveKeys ==> Covered(inv, mark, k, goneObjects, gonePacks)
    ensures missing.Some? ==> missing.value in mark.liveKeys
                              && !Covered(inv, mark, missing.value, goneObjects, gonePacks)
  {
    var covered: set<Key> := {};
    for i := 0 to |inv.objects|
      invariant covered == ObjectCovered(inv.objects[..i], mark, goneObjects)
    {
      assert inv.objects[..i + 1] == inv.objects[..i] + [inv.objects[i]];
      if inv.objects[i] !in goneObjects {
        covered := covered + ObjectKeys(inv.objects[i], mark);
      }
    }
    assert inv.objects[..|inv.objects|] == inv.objects;
    for i := 0 to |inv.packs|
      invariant covered == ObjectCovered(inv.objects, mark, goneObjects)
                           + PackCovered(inv.packs[..i], mark, gonePacks)
    {
      assert inv.packs[..i + 1] == inv.packs[..i] + [inv.packs[i]];
      if inv.packs[i].id !in gonePacks {
        covered := covered + set e | e in inv.packs[i].entries && EntryCovers(e, mark) :: e.key;
      }
    }
    assert inv.packs[..|inv.packs|] == inv.packs;
    forall k ensures k in covered <==> Covered(inv, mark, k, goneObjects, gonePacks) {
      CoveredMeans(inv, mark, goneObjects, gonePacks, k);
    }
    var uncovered := mark.liveKeys - covered;
    if k :| k in uncovered {
      return Some(k);
    }
    assert uncovered == {};
    assert forall k :: k in mark.liveKeys ==> k in mark.liveKeys - uncovered;
    return None;
  }
}
