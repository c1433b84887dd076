/** The durable state of one session coordinate and its only transitions. */
module CheckpointSlots {
  import opened Wrappers

  type TreeOid = string

  /** `OpenMissing` is the absence of a row. */
  datatype Slot =
    | OpenMissing
    | OpenCheckpoint(tree: TreeOid)
    | BlockedMissing
    | BlockedCheckpoint(tree: TreeOid)

  datatype Failure = CaptureBlocked | NotBlockedMissing | CheckpointMismatch

  type Transition = Result<Slot, Failure>

  predicate IsBlocked(slot: Slot) {
    slot.BlockedMissing? || slot.BlockedCheckpoint?
  }

  function TreeOf(slot: Slot): Option<TreeOid> {
    if slot.OpenCheckpoint? || slot.BlockedCheckpoint? then Some(slot.tree) else None
  }

  function Capture(slot: Slot, tree: TreeOid): Transition {
    match slot
    case OpenMissing => Ok(OpenCheckpoint(tree))
    case OpenCheckpoint(_) => Ok(OpenCheckpoint(tree))
    case BlockedMissing => Err(CaptureBlocked)
    case BlockedCheckpoint(_) => Err(CaptureBlocked)
  }

  /** Close a coordinate, pinning the checkpoint it inherits. */
  function Block(slot: Slot, effective: Option<TreeOid>): Slot {
    match slot
    case OpenMissing => if effective.None? then BlockedMissing else BlockedCheckpoint(effective.value)
    case OpenCheckpoint(tree) => BlockedCheckpoint(tree)
    case BlockedMissing => slot
    case BlockedCheckpoint(_) => slot
  }

  function Release(slot: Slot, expected: TreeOid): Transition {
    if slot.BlockedCheckpoint? && slot.tree == expected
    then Ok(OpenCheckpoint(slot.tree))
    else Err(CheckpointMismatch)
  }

  function AdoptBlockedMissing(slot: Slot, tree: TreeOid): Transition {
    if slot.BlockedMissing? then Ok(OpenCheckpoint(tree)) else Err(NotBlockedMissing)
  }

  /**
   Which transitions undo which: a block refuses capture and is undone only by releasing
   the very tree it pinned, or by adopting when it pinned none.
   */
  lemma BlockLaws(slot: Slot, effective: Option<TreeOid>, later: Option<TreeOid>, tree: TreeOid)
    ensures IsBlocked(Block(slot, effective)) && Block(Block(slot, effective), later) == Block(slot, effective)
    ensures Capture(Block(slot, effective), tree).Err?
    ensures Release(Block(slot, effective), tree).Ok? <==> TreeOf(Block(slot, effective)) == Some(tree)
    ensures AdoptBlockedMissing(Block(slot, effective), tree).Ok? <==> TreeOf(Block(slot, effective)) == None
    ensures slot.OpenCheckpoint? ==> Release(Block(slot, effective), slot.tree) == Ok(slot)
  {
  }
}
