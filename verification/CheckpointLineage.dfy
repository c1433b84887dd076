/** Checkpoint inheritance along a root-to-target path, and what protection does to it. */
module CheckpointLineage {
  import opened Wrappers
  import opened Sequences
  import opened CheckpointSlots

  type EntryId = string

  /** The rows of one session; absence means `OpenMissing`. */
  type Slots = map<EntryId, Slot>

  datatype Resolution = Missing | Checkpoint(at: EntryId, tree: TreeOid)

  function SlotAt(slots: Slots, e: EntryId): Slot {
    if e in slots then slots[e] else OpenMissing
  }

  function WriteSlot(slots: Slots, e: EntryId, slot: Slot): Slots {
    if slot.OpenMissing? then slots - {e} else slots[e := slot]
  }

  /** No row is stored for an open coordinate without a checkpoint. */
  ghost predicate Canonical(slots: Slots) {
    forall e :: e in slots ==> !slots[e].OpenMissing?
  }

  /** The deepest checkpoint on a path. */
  function LastCheckpoint(slots: Slots, path: seq<EntryId>): Resolution {
    if path == [] then Missing
    else
      var e := path[|path| - 1];
      match TreeOf(SlotAt(slots, e))
      case Some(tree) => Checkpoint(e, tree)
      case None => LastCheckpoint(slots, path[..|path| - 1])
  }

  /** It is the last one: nothing after it on the path has a checkpoint. */
  lemma {:induction false} LastCheckpointIsDeepest(slots: Slots, path: seq<EntryId>)
    ensures LastCheckpoint(slots, path).Missing? <==> forall i :: 0 <= i < |path| ==> TreeOf(SlotAt(slots, path[i])) == None
    ensures forall e, tree :: LastCheckpoint(slots, path) == Checkpoint(e, tree) ==> DeepestAt(slots, path, e, tree)
  {
    if path != [] {
      var front, last := path[..|path| - 1], |path| - 1;
      LastCheckpointIsDeepest(slots, front);
      match TreeOf(SlotAt(slots, path[last]))
      case Some(tree) =>
        assert DeepestIndex(slots, path, last, tree);
      case None =>
        if LastCheckpoint(slots, front).Checkpoint? {
          var Checkpoint(e, tree) := LastCheckpoint(slots, front);
          var i :| 0 <= i < |front| && front[i] == e && DeepestIndex(slots, front, i, tree);
          assert path[i] == e && DeepestIndex(slots, path, i, tree);
        } else {
          forall i | 0 <= i < |path| ensures TreeOf(SlotAt(slots, path[i])) == None {
            if i < last { assert front[i] == path[i]; }
          }
        }
    }
  }

  ghost predicate DeepestIndex(slots: Slots, path: seq<EntryId>, i: int, tree: TreeOid)
    requires 0 <= i < |path|
  {
    TreeOf(SlotAt(slots, path[i])) == Some(tree) && forall j :: i < j < |path| ==> TreeOf(SlotAt(slots, path[j])) == None
  }

  /** The checkpoint at `e`, and nothing below it on the path. */
  ghost predicate DeepestAt(slots: Slots, path: seq<EntryId>, e: EntryId, tree: TreeOid) {
    exists i :: 0 <= i < |path| && path[i] == e && DeepestIndex(slots, path, i, tree)
  }

  /** A blocked-missing target is authoritative; a blocked-missing ancestor erases nothing. */
  function Resolve(slots: Slots, path: seq<EntryId>): Resolution
    requires path != []
  {
    if SlotAt(slots, path[|path| - 1]).BlockedMissing? then Missing else LastCheckpoint(slots, path)
  }

  /** A target resolves to the deepest checkpoint of its path, and to none if there is none or it is blocked without one. */
  lemma ResolvesToDeepest(slots: Slots, path: seq<EntryId>)
    requires path != []
    ensures Resolve(slots, path).Missing? <==>
              || SlotAt(slots, path[|path| - 1]) == BlockedMissing
              || forall i :: 0 <= i < |path| ==> TreeOf(SlotAt(slots, path[i])) == None
    ensures forall e, tree :: Resolve(slots, path) == Checkpoint(e, tree) ==> DeepestAt(slots, path, e, tree)
  {
    LastCheckpointIsDeepest(slots, path);
  }

  function TreeIn(r: Resolution): Option<TreeOid> {
    match r
    case Missing => None
    case Checkpoint(_, tree) => Some(tree)
  }

  function Effective(slots: Slots, path: seq<EntryId>): Option<TreeOid>
    requires path != []
  {
    TreeIn(Resolve(slots, path))
  }

  /** The source's single forward walk; an empty lineage is refused. */
  method ReduceLineage(path: seq<EntryId>, slots: Slots) returns (r: Result<(Resolution, Slot), string>)
    ensures r.Err? <==> path == []
    ensures path != [] ==> r == Ok((Resolve(slots, path), SlotAt(slots, path[|path| - 1])))
  {
    if path == [] {
      return Err("checkpoint lineage must contain a target coordinate");
    }
    var resolution := Missing;
    var target := OpenMissing;
    for i := 0 to |path|
      invariant resolution == LastCheckpoint(slots, path[..i])
      invariant i > 0 ==> target == SlotAt(slots, path[i - 1])
    {
      target := SlotAt(slots, path[i]);
      assert path[..i + 1][..i] == path[..i];
      if target.OpenCheckpoint? || target.BlockedCheckpoint? {
        resolution := Checkpoint(path[i], target.tree);
      }
    }
    assert path[..|path|] == path;
    if target.BlockedMissing? {
      resolution := Missing;
    }
    return Ok((resolution, target));
  }

  /** Root-to-coordinate paths of one session tree. */
  type Ancestries = map<EntryId, seq<EntryId>>

  ghost predicate IsTree(tree: Ancestries) {
    forall e :: e in tree ==>
      && tree[e] != [] && tree[e][|tree[e]| - 1] == e
      && (forall i, j :: 0 <= i < j < |tree[e]| ==> tree[e][i] != tree[e][j])
      && (forall i :: 0 <= i < |tree[e]| ==> tree[e][i] in tree && tree[tree[e][i]] == tree[e][..i + 1])
  }

  /** Pin one location against its effective checkpoint. */
  function Protect(slots: Slots, path: seq<EntryId>): Slots
    requires path != []
  {
    var e := path[|path| - 1];
    WriteSlot(slots, e, Block(SlotAt(slots, e), Effective(slots, path)))
  }

  function ProtectAll(slots: Slots, tree: Ancestries, order: seq<EntryId>): Slots
    requires forall e :: e in order ==> e in tree && tree[e] != []
  {
    if order == [] then slots
    else
      var last := order[|order| - 1];
      Protect(ProtectAll(slots, tree, order[..|order| - 1]), tree[last])
  }

  lemma {:induction false} ProtectKeepsLastTree(slots: Slots, tree: Ancestries, c: EntryId, e: EntryId)
    requires IsTree(tree) && c in tree && e in tree
    ensures TreeIn(LastCheckpoint(Protect(slots, tree[c]), tree[e])) == TreeIn(LastCheckpoint(slots, tree[e]))
    decreases |tree[e]|
  {
    var path := tree[e];
    var front := path[..|path| - 1];
    if front != [] {
      var parent := front[|front| - 1];
      assert parent == path[|path| - 2];
      assert tree[parent] == front;
      ProtectKeepsLastTree(slots, tree, c, parent);
    }
  }

  /** Protecting a location changes no coordinate's effective tree. */
  lemma ProtectPreservesMeaning(slots: Slots, tree: Ancestries, c: EntryId)
    requires IsTree(tree) && c in tree
    ensures forall e :: e in tree ==> Effective(Protect(slots, tree[c]), tree[e]) == Effective(slots, tree[e])
  {
    forall e | e in tree
      ensures Effective(Protect(slots, tree[c]), tree[e]) == Effective(slots, tree[e])
    {
      ProtectKeepsLastTree(slots, tree, c, e);
    }
  }

  /** Protecting many locations is pointwise: each is blocked against its original meaning. */
  lemma {:induction false} ProtectAllPointwise(slots: Slots, tree: Ancestries, order: seq<EntryId>)
    requires IsTree(tree) && forall e :: e in order ==> e in tree
    ensures forall e :: e in tree ==>
              Effective(ProtectAll(slots, tree, order), tree[e]) == Effective(slots, tree[e])
    ensures forall e :: SlotAt(ProtectAll(slots, tree, order), e) ==
                        if e in order then Block(SlotAt(slots, e), Effective(slots, tree[e])) else SlotAt(slots, e)
    ensures Canonical(slots) ==> Canonical(ProtectAll(slots, tree, order))
  {
    if order != [] {
      var front, last := order[..|order| - 1], order[|order| - 1];
      assert order == front + [last];
      ProtectAllPointwise(slots, tree, front);
      ProtectPreservesMeaning(ProtectAll(slots, tree, front), tree, last);
    }
  }

  lemma CanonicalExtensional(a: Slots, b: Slots)
    requires Canonical(a) && Canonical(b) && forall e :: SlotAt(a, e) == SlotAt(b, e)
    ensures a == b
  {
    assert forall e :: e in a ==> SlotAt(a, e) == SlotAt(b, e);
    assert forall e :: e in b ==> SlotAt(a, e) == SlotAt(b, e);
  }

  /** Only the set of protected locations matters, so protections commute. */
  lemma ProtectionOrderIrrelevant(slots: Slots, tree: Ancestries, first: seq<EntryId>, second: seq<EntryId>)
    requires IsTree(tree) && Canonical(slots)
    requires forall e :: e in first ==> e in tree
    requires forall e :: e in first <==> e in second
    ensures ProtectAll(slots, tree, first) == ProtectAll(slots, tree, second)
  {
    ProtectAllPointwise(slots, tree, first);
    ProtectAllPointwise(slots, tree, second);
    CanonicalExtensional(ProtectAll(slots, tree, first), ProtectAll(slots, tree, second));
  }

  lemma ProtectionsCommute(slots: Slots, tree: Ancestries, c: EntryId, d: EntryId)
    requires IsTree(tree) && Canonical(slots) && c in tree && d in tree
    ensures Protect(Protect(slots, tree[c]), tree[d]) == Protect(Protect(slots, tree[d]), tree[c])
  {
    ProtectionOrderIrrelevant(slots, tree, [c, d], [d, c]);
    assert [c, d][..1] == [c] && [d, c][..1] == [d] && [c][..0] == [] && [d][..0] == [];
    assert ProtectAll(slots, tree, [c]) == Protect(slots, tree[c]);
    assert ProtectAll(slots, tree, [d]) == Protect(slots, tree[d]);
  }

  /** Protect every coordinate of one path, from the root down. */
  function ReconcilePath(slots: Slots, path: seq<EntryId>): Slots {
    if path == [] then slots else Protect(ReconcilePath(slots, path[..|path| - 1]), path)
  }

  ghost function PositionOn(path: seq<EntryId>, e: EntryId): (i: nat)
    requires e in path
    ensures i < |path| && path[i] == e
  {
    var i :| 0 <= i < |path| && path[i] == e; i
  }

  /** The prefixes of one path, as a session tree. */
  ghost function Prefixes(path: seq<EntryId>): Ancestries {
    map e | e in path :: path[..PositionOn(path, e) + 1]
  }

  lemma PrefixesAreTree(path: seq<EntryId>)
    requires NoDuplicates(path)
    ensures IsTree(Prefixes(path))
    ensures forall i :: 0 <= i < |path| ==> path[i] in Prefixes(path) && Prefixes(path)[path[i]] == path[..i + 1]
  {
    var tree := Prefixes(path);
    forall i | 0 <= i < |path| ensures path[i] in tree && tree[path[i]] == path[..i + 1] {
      assert PositionOn(path, path[i]) == i;
    }
    forall e | e in tree
      ensures tree[e] != [] && tree[e][|tree[e]| - 1] == e && NoDuplicates(tree[e])
      ensures forall i :: 0 <= i < |tree[e]| ==> tree[e][i] in tree && tree[tree[e][i]] == tree[e][..i + 1]
    {
      var k := PositionOn(path, e);
      forall i | 0 <= i < |tree[e]| ensures tree[e][i] in tree && tree[tree[e][i]] == tree[e][..i + 1] {
        assert tree[e][i] == path[i] && path[..k + 1][..i + 1] == path[..i + 1];
      }
    }
  }

  /** Every coordinate of the path is blocked against what it resolved to before, and no other row changes. */
  lemma ReconcilePointwise(slots: Slots, path: seq<EntryId>)
    requires NoDuplicates(path)
    ensures forall e :: e !in path ==> SlotAt(ReconcilePath(slots, path), e) == SlotAt(slots, e)
    ensures forall i :: 0 <= i < |path| ==>
              SlotAt(ReconcilePath(slots, path), path[i]) == Block(SlotAt(slots, path[i]), Effective(slots, path[..i + 1]))
  {
    if path == [] { return; }
    var tree, r := Prefixes(path), ReconcilePath(slots, path);
    PrefixesAreTree(path);
    assert tree[path[|path| - 1]] == path && path[..|path|] == path;
    ReconcileIsRootDown(slots, tree, path[|path| - 1], |path|);
    assert r == ProtectAll(slots, tree, path);
    ProtectAllPointwise(slots, tree, path);
    forall i | 0 <= i < |path| ensures SlotAt(r, path[i]) == Block(SlotAt(slots, path[i]), Effective(slots, path[..i + 1])) {
      assert path[i] in path && tree[path[i]] == path[..i + 1];
    }
  }

  /** Reconciling a barrier equals protecting each ancestor, in any order. */
  lemma ReconcileIsProtection(slots: Slots, tree: Ancestries, leaf: EntryId, order: seq<EntryId>)
    requires IsTree(tree) && Canonical(slots) && leaf in tree
    requires forall e :: e in order <==> e in tree[leaf]
    ensures ReconcilePath(slots, tree[leaf]) == ProtectAll(slots, tree, order)
    ensures forall e :: e in tree ==>
              Effective(ReconcilePath(slots, tree[leaf]), tree[e]) == Effective(slots, tree[e])
  {
    ReconcileIsRootDown(slots, tree, leaf, |tree[leaf]|);
    assert tree[leaf][..|tree[leaf]|] == tree[leaf];
    ProtectionOrderIrrelevant(slots, tree, tree[leaf], order);
    ProtectAllPointwise(slots, tree, order);
  }

  lemma {:induction false} ReconcileIsRootDown(slots: Slots, tree: Ancestries, leaf: EntryId, n: nat)
    requires IsTree(tree) && leaf in tree && n <= |tree[leaf]|
    ensures ReconcilePath(slots, tree[leaf][..n]) == ProtectAll(slots, tree, tree[leaf][..n])
  {
    if n > 0 {
      ReconcileIsRootDown(slots, tree, leaf, n - 1);
      assert tree[leaf][..n][..n - 1] == tree[leaf][..n - 1];
    }
  }

  lemma {:induction false} WriteElsewhere(slots: Slots, e: EntryId, slot: Slot, path: seq<EntryId>)
    requires e !in path
    ensures LastCheckpoint(WriteSlot(slots, e, slot), path) == LastCheckpoint(slots, path)
  {
    if path != [] {
      assert path[|path| - 1] in path && forall x :: x in path[..|path| - 1] ==> x in path;
      WriteElsewhere(slots, e, slot, path[..|path| - 1]);
    }
  }

  /** The source's loop: one running effective tree instead of a resolution per ancestor. */
  method ReconcileLoop(slots: Slots, path: seq<EntryId>) returns (r: Slots)
    requires NoDuplicates(path) && Canonical(slots)
    ensures r == ReconcilePath(slots, path) && Canonical(r)
  {
    r := slots;
    var effective: Option<TreeOid> := None;
    for i := 0 to |path|
      invariant r == ReconcilePath(slots, path[..i]) && Canonical(r)
      invariant effective == TreeIn(LastCheckpoint(r, path[..i]))
    {
      var e := path[i];
      var slot := SlotAt(r, e);
      assert path[..i + 1][..i] == path[..i];
      if slot.OpenCheckpoint? || slot.BlockedCheckpoint? {
        effective := Some(slot.tree);
      }
      assert slot.OpenMissing? ==> effective == Effective(r, path[..i + 1]);
      WriteElsewhere(r, e, Block(slot, effective), path[..i]);
      assert Protect(r, path[..i + 1]) == WriteSlot(r, e, Block(slot, effective));
      if slot.OpenCheckpoint? || slot.OpenMissing? {
        r := WriteSlot(r, e, Block(slot, effective));
      } else {
        assert r[e := slot] == r;
      }
    }
    assert path[..|path|] == path;
  }
}
