/**
 Choosing what one collection pass rewrites. A selection is sound when unlinking
 every selected pack loses no live record whose replacement is not required.
 */
module GcSelection {
  import opened Wrappers
  import opened GcModel
  import opened GcOwners

  datatype Selection = Selection(
    fullyDead: set<string>,
    partial: set<string>,
    redundant: set<string>,
    replacementKeys: set<Key>,
    requirements: map<string, set<Key>>,
    opportunistic: set<string>,
    addedKeys: map<string, set<Key>>)

  /** Why each class of selected pack may go: it owns nothing that is not required elsewhere. */
  ghost predicate Classified(sel: Selection, packs: seq<Pack>, mark: Mark) {
    forall p :: p in packs ==>
      && (p.id in sel.fullyDead ==> LivePackKeys(p, mark) == {})
      && (p.id in sel.redundant ==> OwnedLive(p, packs, mark) == {})
      && (p.id in sel.partial && p.id in sel.requirements ==>
            OwnedLive(p, packs, mark) <= sel.requirements[p.id])
  }

  /** Exactly the rewritten packs have a requirement, and each requirement is among the keys to be republished. */
  ghost predicate Backed(sel: Selection) {
    && sel.requirements.Keys == sel.partial
    && (forall id :: id in sel.partial ==> sel.requirements[id] <= sel.replacementKeys)
  }

  ghost predicate Sound(sel: Selection, packs: seq<Pack>, mark: Mark) {
    Classified(sel, packs, mark) && Backed(sel)
  }

  function LiveEntries(entries: seq<PackEntry>, mark: Mark): seq<PackEntry> {
    if entries == [] then []
    else if entries[0].key in mark.liveKeys then [entries[0]] + LiveEntries(entries[1..], mark)
    else LiveEntries(entries[1..], mark)
  }

  function RecordBytes(entries: seq<PackEntry>): nat {
    if entries == [] then 0 else entries[0].length + RecordBytes(entries[1..])
  }

  const PARTIAL_PACK_REWRITE_PERCENT := 50

  /** Half the records or half the bytes are dead, or a live record is only a delta. */
  predicate WorthRewriting(pack: Pack, mark: Mark, graceMs: int, now: int) {
    var live := LiveEntries(pack.entries, mark);
    var dead := |pack.entries| - |live|;
    var total := RecordBytes(pack.entries);
    var deadBytes := total - RecordBytes(live);
    && live != []
    && dead != 0
    && ((exists e :: e in live && e.encoding == Delta1)
        || dead * 100 >= |pack.entries| * PARTIAL_PACK_REWRITE_PERCENT
        || deadBytes * 100 >= total * PARTIAL_PACK_REWRITE_PERCENT)
    && Expired(pack.mtime, graceMs, now)
  }

  lemma {:induction false} LiveEntriesAreLiveKeys(entries: seq<PackEntry>, mark: Mark)
    ensures forall e :: e in LiveEntries(entries, mark) <==> e in entries && e.key in mark.liveKeys
  {
    if entries != [] {
      LiveEntriesAreLiveKeys(entries[1..], mark);
      assert entries == [entries[0]] + entries[1..];
    }
  }

  function DeadCount(entries: seq<PackEntry>, mark: Mark): nat {
    if entries == [] then 0 else (if entries[0].key in mark.liveKeys then 0 else 1) + DeadCount(entries[1..], mark)
  }

  function DeadBytes(entries: seq<PackEntry>, mark: Mark): nat {
    if entries == [] then 0
    else (if entries[0].key in mark.liveKeys then 0 else entries[0].length) + DeadBytes(entries[1..], mark)
  }

  lemma {:induction false} LiveAndDead(entries: seq<PackEntry>, mark: Mark)
    ensures |LiveEntries(entries, mark)| + DeadCount(entries, mark) == |entries|
    ensures RecordBytes(LiveEntries(entries, mark)) + DeadBytes(entries, mark) == RecordBytes(entries)
  {
    if entries != [] {
      LiveAndDead(entries[1..], mark);
      var live := LiveEntries(entries, mark);
      if entries[0].key in mark.liveKeys { assert live[1..] == LiveEntries(entries[1..], mark); }
    }
  }

  /** A pack worth rewriting is past the grace period, has live and dead records, and is half dead or holds a live delta. */
  lemma WorthRewritingMeans(pack: Pack, mark: Mark, graceMs: int, now: int)
    ensures WorthRewriting(pack, mark, graceMs, now) <==>
              && pack.mtime < now - graceMs
              && (exists e :: e in pack.entries && e.key in mark.liveKeys) && DeadCount(pack.entries, mark) > 0
              && (|| (exists e :: e in pack.entries && e.key in mark.liveKeys && e.encoding == Delta1)
                  || 2 * DeadCount(pack.entries, mark) >= |pack.entries|
                  || 2 * DeadBytes(pack.entries, mark) >= RecordBytes(pack.entries))
  {
    var live := LiveEntries(pack.entries, mark);
    LiveAndDead(pack.entries, mark);
    LiveEntriesAreLiveKeys(pack.entries, mark);
    if live != [] { assert live[0] in live; }
  }

  lemma NoLiveEntryNoLiveKey(pack: Pack, mark: Mark)
    ensures LiveEntries(pack.entries, mark) == [] <==> LivePackKeys(pack, mark) == {}
  {
    LiveEntriesAreLiveKeys(pack.entries, mark);
    if LiveEntries(pack.entries, mark) != [] {
      assert LiveEntries(pack.entries, mark)[0] in LiveEntries(pack.entries, mark);
      assert LiveEntries(pack.entries, mark)[0].key in LivePackKeys(pack, mark);
    }
  }

  lemma {:induction false} SubsetNotLarger<T>(small: set<T>, large: set<T>)
    requires small <= large
    ensures |small| <= |large|
  {
    if small != {} {
      var x :| x in small;
      SubsetNotLarger(small - {x}, large - {x});
    }
  }

  /** The budget does not hold these keys besides those already to be republished. */
  predicate NoRoom(keys: set<Key>, used: set<Key>, maximum: nat) {
    |used + keys| > maximum
  }

  lemma RoomShrinks(keys: set<Key>, used: set<Key>, more: set<Key>, maximum: nat)
    requires used <= more
    ensures NoRoom(keys, used, maximum) ==> NoRoom(keys, more, maximum)
  {
    SubsetNotLarger(used + keys, more + keys);
  }

  /** A rewrite of this pack was taken on, or its keys do not fit. */
  predicate Tried(pack: Pack, keys: set<Key>, partial: set<string>, used: set<Key>, maximum: nat) {
    pack.id in partial || NoRoom(keys, used, maximum)
  }

  lemma TriedStays(tried: seq<Pack>, keysOf: Pack -> set<Key>, partial: set<string>, used: set<Key>,
                   morePartial: set<string>, moreUsed: set<Key>, maximum: nat)
    requires partial <= morePartial && used <= moreUsed
    ensures forall p :: p in tried && Tried(p, keysOf(p), partial, used, maximum) ==>
              Tried(p, keysOf(p), morePartial, moreUsed, maximum)
  {
    forall p | p in tried && Tried(p, keysOf(p), partial, used, maximum)
      ensures Tried(p, keysOf(p), morePartial, moreUsed, maximum)
    {
      RoomShrinks(keysOf(p), used, moreUsed, maximum);
    }
  }

  /** What the delta heuristics decide for one path: pack a loose revision, or rewrite a clean pack. */
  datatype DeltaChoice = Unpacked(contentId: string) | Source(pack: Pack)

  /** Every live loose object is packed with all its records, or they do not fit. */
  ghost predicate LooseTried(objects: seq<StoreObject>, mark: Mark, used: set<Key>, maximum: nat) {
    forall o :: o in objects && ObjectIsLive(o, mark) ==> LooseFits(o, mark, used, maximum)
  }

  ghost predicate LooseFits(o: StoreObject, mark: Mark, used: set<Key>, maximum: nat) {
    ObjectKeys(o, mark) <= used || NoRoom(ObjectKeys(o, mark), used, maximum)
  }

  lemma LooseTriedStays(objects: seq<StoreObject>, mark: Mark, used: set<Key>, more: set<Key>, maximum: nat)
    requires used <= more && LooseTried(objects, mark, used, maximum)
    ensures LooseTried(objects, mark, more, maximum)
  {
    forall o | o in objects && ObjectIsLive(o, mark) ensures LooseFits(o, mark, more, maximum) {
      assert LooseFits(o, mark, used, maximum);
      RoomShrinks(ObjectKeys(o, mark), used, more, maximum);
    }
  }

  lemma LooseTriedStep(objects: seq<StoreObject>, i: nat, mark: Mark, used: set<Key>, more: set<Key>, maximum: nat)
    requires i < |objects| && used <= more && LooseTried(objects[..i], mark, used, maximum)
    requires ObjectIsLive(objects[i], mark) ==> LooseFits(objects[i], mark, more, maximum)
    ensures LooseTried(objects[..i + 1], mark, more, maximum)
  {
    LooseTriedStays(objects[..i], mark, used, more, maximum);
    assert objects[..i + 1] == objects[..i] + [objects[i]];
  }

  /** The mutable sets the selection closures share. */
  class Selector {
    const packs: seq<Pack>
    const mark: Mark
    const maximum: nat
    var fullyDead: set<string>
    var partial: set<string>
    var redundant: set<string>
    var replacementKeys: set<Key>
    var requirements: map<string, set<Key>>
    var opportunistic: set<string>
    var addedKeys: map<string, set<Key>>

    function Frozen(): Selection
      reads this
    {
      Selection(fullyDead, partial, redundant, replacementKeys, requirements, opportunistic, addedKeys)
    }

    ghost predicate Valid()
      reads this
    {
      && Sound(Frozen(), packs, mark)
      && |replacementKeys| <= maximum
    }

    constructor (packs: seq<Pack>, mark: Mark, maximum: nat)
      ensures Valid() && this.packs == packs && this.mark == mark && this.maximum == maximum
      ensures Frozen() == Selection({}, {}, {}, {}, map[], {}, map[])
    {
      this.packs, this.mark, this.maximum := packs, mark, maximum;
      fullyDead, partial, redundant := {}, {}, {};
      replacementKeys, requirements := {}, map[];
      opportunistic, addedKeys := {}, map[];
    }

    /** All of `keys` are admitted, or none when they do not fit the budget. */
    method AddKeys(keys: set<Key>) returns (ok: bool)
      requires Valid()
      modifies this`replacementKeys
      ensures Valid()
      ensures ok <==> |keys - old(replacementKeys)| <= maximum - |old(replacementKeys)|
      ensures replacementKeys == if ok then old(replacementKeys) + keys else old(replacementKeys)
    {
      var additions := keys - replacementKeys;
      ok := |additions| <= maximum - |replacementKeys|;
      if ok {
        assert replacementKeys + keys == replacementKeys + additions;
        replacementKeys := replacementKeys + additions;
      }
    }

    method RewritePack(pack: Pack, keys: set<Key>) returns (ok: bool)
      requires Valid() && DistinctPackIds(packs) && pack in packs
      requires OwnedLive(pack, packs, mark) <= keys
      modifies this`replacementKeys, this`partial, this`requirements
      ensures Valid()
      ensures ok <==> |keys - old(replacementKeys)| <= maximum - |old(replacementKeys)|
      ensures Tried(pack, keys, partial, replacementKeys, maximum)
      ensures !ok ==> Frozen() == old(Frozen())
      ensures ok ==> Frozen() == old(Frozen()).(
                       replacementKeys := old(replacementKeys) + keys,
                       partial := old(partial) + {pack.id},
                       requirements := old(requirements)[pack.id :=
                         keys + if pack.id in old(requirements) then old(requirements)[pack.id] else {}])
    {
      ok := AddKeys(keys);
      if !ok { return; }
      var required := if pack.id in requirements then requirements[pack.id] else {};
      partial := partial + {pack.id};
      requirements := requirements[pack.id := keys + required];
    }

    /** Live loose objects are packed while the budget lasts. */
    method SelectLooseObjects(objects: seq<StoreObject>)
      requires Valid()
      modifies this`replacementKeys
      ensures Valid() && old(replacementKeys) <= replacementKeys
      ensures replacementKeys <= old(replacementKeys) + LooseKeys(objects, mark)
      ensures LooseTried(objects, mark, replacementKeys, maximum)
    {
      for i := 0 to |objects|
        invariant Valid() && old(replacementKeys) <= replacementKeys
        invariant replacementKeys <= old(replacementKeys) + LooseKeys(objects, mark)
        invariant LooseTried(objects[..i], mark, replacementKeys, maximum)
      {
        ghost var used := replacementKeys;
        if !objects[i].temporary && ObjectIsLive(objects[i], mark) {
          var _ := AddKeys(ObjectKeys(objects[i], mark));
        }
        LooseTriedStep(objects, i, mark, used, replacementKeys, maximum);
      }
      assert objects[..|objects|] == objects;
    }

    /** One pack: dead, worth rewriting, or left alone. */
    method SelectDeadPack(pack: Pack, graceMs: int, now: int)
      requires Valid() && DistinctPackIds(packs) && pack in packs
      requires redundant == {}
      modifies this`fullyDead, this`partial, this`replacementKeys, this`requirements
      ensures Valid() && redundant == {}
      ensures fullyDead == old(fullyDead) + if LivePackKeys(pack, mark) == {} && Expired(pack.mtime, graceMs, now)
                                            then {pack.id} else {}
      ensures old(partial) <= partial <= old(partial) + if WorthRewriting(pack, mark, graceMs, now) then {pack.id} else {}
      ensures WorthRewriting(pack, mark, graceMs, now) ==>
                Tried(pack, LivePackKeys(pack, mark), partial, replacementKeys, maximum)
      ensures old(replacementKeys) <= replacementKeys
    {
      NoLiveEntryNoLiveKey(pack, mark);
      if LiveEntries(pack.entries, mark) == [] && Expired(pack.mtime, graceMs, now) {
        SameIdSamePack(packs, pack);
        fullyDead := fullyDead + {pack.id};
      } else if WorthRewriting(pack, mark, graceMs, now) {
        var _ := RewritePack(pack, LivePackKeys(pack, mark));
      }
    }

    /** Expired packs with no live record die; mostly dead packs are rewritten while the budget lasts. */
    method SelectDeadPacks(graceMs: int, now: int)
      requires Valid() && DistinctPackIds(packs)
      requires fullyDead == {} && redundant == {}
      modifies this`fullyDead, this`partial, this`replacementKeys, this`requirements
      ensures Valid() && redundant == {}
      ensures fullyDead == set p | p in packs && LivePackKeys(p, mark) == {}
                                   && Expired(p.mtime, graceMs, now) :: p.id
      ensures forall p :: p in packs && p.id in partial && p.id !in old(partial) ==>
                WorthRewriting(p, mark, graceMs, now)
      ensures forall p :: p in packs && WorthRewriting(p, mark, graceMs, now) ==>
                Tried(p, LivePackKeys(p, mark), partial, replacementKeys, maximum)
      ensures old(partial) <= partial && old(replacementKeys) <= replacementKeys
    {
      ghost var keysOf := p => LivePackKeys(p, mark);
      for i := 0 to |packs|
        invariant Valid() && redundant == {}
        invariant fullyDead == set p | p in packs[..i] && LivePackKeys(p, mark) == {}
                                       && Expired(p.mtime, graceMs, now) :: p.id
        invariant forall p :: p in packs && p.id in partial && p.id !in old(partial) ==>
                    WorthRewriting(p, mark, graceMs, now)
        invariant forall p :: p in packs[..i] && WorthRewriting(p, mark, graceMs, now) ==>
                    Tried(p, keysOf(p), partial, replacementKeys, maximum)
        invariant old(partial) <= partial && old(replacementKeys) <= replacementKeys
      {
        assert packs[..i + 1] == packs[..i] + [packs[i]];
        ghost var usedIds, usedKeys := partial, replacementKeys;
        SelectDeadPack(packs[i], graceMs, now);
        SameIdSamePack(packs, packs[i]);
        TriedStays(packs[..i], keysOf, usedIds, usedKeys, partial, replacementKeys, maximum);
      }
      assert packs[..|packs|] == packs;
    }

    method TakeChoice(choice: DeltaChoice)
      requires Valid() && DistinctPackIds(packs)
      requires choice.Source? ==> choice.pack in packs
      modifies this`partial, this`replacementKeys, this`requirements, this`opportunistic, this`addedKeys
      ensures Valid() && old(partial) <= partial && old(replacementKeys) <= replacementKeys
      ensures opportunistic <= old(opportunistic) + partial
    {
      match choice
      case Unpacked(contentId) =>
        if Key(Content, contentId) in mark.liveKeys {
          var _ := AddKeys({Key(Content, contentId)});
        }
      case Source(pack) =>
        var before := replacementKeys;
        var ok := RewritePack(pack, LivePackKeys(pack, mark));
        if ok {
          opportunistic := opportunistic + {pack.id};
          addedKeys := addedKeys[pack.id := LivePackKeys(pack, mark) - before];
        }
    }

    /** Clean packs taken only so that a delta can form, and the keys they alone introduce. */
    method SelectDeltaSources(choices: seq<DeltaChoice>)
      requires Valid() && DistinctPackIds(packs)
      requires forall c :: c in choices && c.Source? ==> c.pack in packs
      modifies this`partial, this`replacementKeys, this`requirements, this`opportunistic, this`addedKeys
      ensures Valid() && old(partial) <= partial && old(replacementKeys) <= replacementKeys
      ensures opportunistic <= old(opportunistic) + partial
    {
      for i := 0 to |choices|
        invariant Valid() && old(partial) <= partial && old(replacementKeys) <= replacementKeys
        invariant opportunistic <= old(opportunistic) + partial
      {
        TakeChoice(choices[i]);
      }
    }

    /** A pack that owns only `owned` is dropped when that is empty, and rewritten otherwise. */
    method SettleDuplicates(pack: Pack, owned: set<Key>)
      requires Valid() && DistinctPackIds(packs) && pack in packs
      requires owned == OwnedLive(pack, packs, mark)
      modifies this`redundant, this`partial, this`replacementKeys, this`requirements, this`opportunistic, this`addedKeys
      ensures Valid()
      ensures redundant == if owned == {} && pack.id !in old(partial)
                           then old(redundant) + {pack.id} else old(redundant)
      ensures old(partial) <= partial <= old(partial) + if owned == {} then {} else {pack.id}
      ensures old(replacementKeys) <= replacementKeys
      ensures owned != {} ==> Tried(pack, owned, partial, replacementKeys, maximum)
    {
      if owned == {} {
        if pack.id !in partial {
          redundant := redundant + {pack.id};
        }
      } else {
        RewriteOwned(pack, owned);
      }
    }

    /** Rewrite a pack with the records it owns; the rewrite is then needed anyway, so the delta audit must not cancel it. */
    method RewriteOwned(pack: Pack, owned: set<Key>)
      requires Valid() && DistinctPackIds(packs) && pack in packs
      requires owned == OwnedLive(pack, packs, mark)
      modifies this`partial, this`replacementKeys, this`requirements, this`opportunistic, this`addedKeys
      ensures Valid() && old(partial) <= partial <= old(partial) + {pack.id} && old(replacementKeys) <= replacementKeys
      ensures Tried(pack, owned, partial, replacementKeys, maximum)
    {
      var ok := RewritePack(pack, owned);
      if ok {
        opportunistic := opportunistic - {pack.id};
        addedKeys := addedKeys - {pack.id};
      }
    }

    /** One pack of the duplicate pass. */
    method SelectDuplicate(pack: Pack, owners: map<Key, string>)
      requires Valid() && DistinctPackIds(packs) && pack in packs
      requires forall k :: k in mark.liveKeys ==>
                 OwnerOf(packs, mark, k) == if k in owners then Some(owners[k]) else None
      modifies this`redundant, this`partial, this`replacementKeys, this`requirements, this`opportunistic, this`addedKeys
      ensures Valid()
      ensures redundant == old(redundant) + if Disowned(pack, packs, mark) && pack.id !in old(partial) then {pack.id} else {}
      ensures old(partial) <= partial <= old(partial) + if Mixed(pack, packs, mark) then {pack.id} else {}
      ensures old(replacementKeys) <= replacementKeys
      ensures Mixed(pack, packs, mark) ==> Tried(pack, OwnedLive(pack, packs, mark), partial, replacementKeys, maximum)
    {
      var live := LivePackKeys(pack, mark);
      var owned := set k | k in live && (k !in owners || owners[k] == pack.id);
      assert owned == OwnedLive(pack, packs, mark);
      if live != {} && owned != live { SettleDuplicates(pack, owned); }
    }

    /** Packs holding another pack's records lose them: dropped when they own nothing, else rewritten if that fits. */
    method SelectDuplicates(owners: map<Key, string>)
      requires Valid() && DistinctPackIds(packs) && redundant == {}
      requires forall k :: k in mark.liveKeys ==>
                 OwnerOf(packs, mark, k) == if k in owners then Some(owners[k]) else None
      modifies this`redundant, this`partial, this`replacementKeys, this`requirements, this`opportunistic, this`addedKeys
      ensures Valid()
      ensures redundant == DuplicatesOnly(packs, packs, mark, old(partial))
      ensures old(partial) <= partial && partial - old(partial) <= MixedOwners(packs, mark)
      ensures old(replacementKeys) <= replacementKeys
      ensures forall p :: p in packs && Mixed(p, packs, mark) ==>
                Tried(p, OwnedLive(p, packs, mark), partial, replacementKeys, maximum)
    {
      for i := 0 to |packs|
        invariant Valid()
        invariant redundant == DuplicatesOnly(packs[..i], packs, mark, old(partial))
        invariant old(partial) <= partial && partial - old(partial) <= MixedOwners(packs, mark)
        invariant old(replacementKeys) <= replacementKeys
        invariant MixedTried(packs[..i], packs, mark, partial, replacementKeys, maximum)
        invariant forall j :: i <= j < |packs| ==> (packs[j].id in partial <==> packs[j].id in old(partial))
      {
        ghost var usedIds, usedKeys := partial, replacementKeys;
        DuplicatesOnlyStep(packs, i, mark, old(partial));
        SelectDuplicate(packs[i], owners);
        MixedTriedStep(packs, i, mark, usedIds, usedKeys, partial, replacementKeys, maximum);
      }
      assert packs[..|packs|] == packs;
    }
  }

  /** Every pack of mixed ownership among `some` was tried. */
  ghost predicate MixedTried(some: seq<Pack>, packs: seq<Pack>, mark: Mark, partial: set<string>, used: set<Key>, maximum: nat) {
    forall p :: p in some && Mixed(p, packs, mark) ==> Tried(p, OwnedLive(p, packs, mark), partial, used, maximum)
  }

  lemma MixedTriedStep(packs: seq<Pack>, i: nat, mark: Mark, partial: set<string>, used: set<Key>,
                       morePartial: set<string>, moreUsed: set<Key>, maximum: nat)
    requires i < |packs| && partial <= morePartial && used <= moreUsed
    requires MixedTried(packs[..i], packs, mark, partial, used, maximum)
    requires Mixed(packs[i], packs, mark) ==>
               Tried(packs[i], OwnedLive(packs[i], packs, mark), morePartial, moreUsed, maximum)
    ensures MixedTried(packs[..i + 1], packs, mark, morePartial, moreUsed, maximum)
  {
    assert packs[..i + 1] == packs[..i] + [packs[i]];
    TriedStays(packs[..i], p => OwnedLive(p, packs, mark), partial, used, morePartial, moreUsed, maximum);
  }

  /** Keys of the live loose objects. */
  ghost function LooseKeys(objects: seq<StoreObject>, mark: Mark): set<Key> {
    set o, k | o in objects && ObjectIsLive(o, mark) && k in ObjectKeys(o, mark) :: k
  }

  /** Has live records, all of which belong to other packs. */
  ghost predicate Disowned(p: Pack, packs: seq<Pack>, mark: Mark) {
    LivePackKeys(p, mark) != {} && OwnedLive(p, packs, mark) == {}
  }

  ghost function DuplicatesOnly(some: seq<Pack>, packs: seq<Pack>, mark: Mark, kept: set<string>): set<string> {
    set p | p in some && Disowned(p, packs, mark) && p.id !in kept :: p.id
  }

  /** Owns some but not all of its live records. */
  ghost predicate Mixed(p: Pack, packs: seq<Pack>, mark: Mark) {
    {} < OwnedLive(p, packs, mark) < LivePackKeys(p, mark)
  }

  ghost function MixedOwners(packs: seq<Pack>, mark: Mark): set<string> {
    set p | p in packs && Mixed(p, packs, mark) :: p.id
  }

  lemma DuplicatesOnlyStep(packs: seq<Pack>, i: nat, mark: Mark, kept: set<string>)
    requires i < |packs|
    ensures DuplicatesOnly(packs[..i + 1], packs, mark, kept) ==
            DuplicatesOnly(packs[..i], packs, mark, kept)
            + if Disowned(packs[i], packs, mark) && packs[i].id !in kept then {packs[i].id} else {}
  {
    assert packs[..i + 1] == packs[..i] + [packs[i]];
  }

  lemma SameIdSamePack(packs: seq<Pack>, pack: Pack)
    requires DistinctPackIds(packs) && pack in packs
    ensures forall p :: p in packs && p.id == pack.id ==> p == pack
  {
  }

  /** Exactly the old dead packs and the disowned ones go as they are; whatever deserves a rewrite is taken, or does not fit. */
  ghost predicate Selects(inv: Inventory, mark: Mark, maximum: nat, graceMs: int, now: int, sel: Selection) {
    && sel.fullyDead == (set p | p in inv.packs && LivePackKeys(p, mark) == {} && Expired(p.mtime, graceMs, now) :: p.id)
    && sel.redundant <= DuplicatesOnly(inv.packs, inv.packs, mark, {}) <= sel.redundant + sel.partial
    && (forall p :: p in inv.packs && WorthRewriting(p, mark, graceMs, now) ==>
          Tried(p, LivePackKeys(p, mark), sel.partial, sel.replacementKeys, maximum))
    && (forall p :: p in inv.packs && Mixed(p, inv.packs, mark) ==>
          Tried(p, OwnedLive(p, inv.packs, mark), sel.partial, sel.replacementKeys, maximum))
    && LooseTried(inv.objects, mark, sel.replacementKeys, maximum)
  }

  /** One pass of selection over an inventory, for any outcome of the delta heuristics. */
  method SelectCompaction(inv: Inventory, mark: Mark, maximum: nat, graceMs: int, now: int,
                          choices: seq<DeltaChoice>)
    returns (sel: Selection)
    requires DistinctPackIds(inv.packs)
    requires forall c :: c in choices && c.Source? ==> c.pack in inv.packs
    ensures Sound(sel, inv.packs, mark) && |sel.replacementKeys| <= maximum
    ensures Selects(inv, mark, maximum, graceMs, now, sel)
  {
    var selector := new Selector(inv.packs, mark, maximum);
    selector.SelectLooseObjects(inv.objects);
    ghost var loose := selector.replacementKeys;
    selector.SelectDeadPacks(graceMs, now);
    ghost var early := selector.Frozen();
    selector.SelectDeltaSources(choices);
    var owners := AssignOwners(inv.packs, mark);
    selector.SelectDuplicates(owners);
    sel := selector.Frozen();
    LooseTriedStays(inv.objects, mark, loose, sel.replacementKeys, maximum);
    TriedStays(inv.packs, p => LivePackKeys(p, mark), early.partial, early.replacementKeys,
               sel.partial, sel.replacementKeys, maximum);
  }
}
