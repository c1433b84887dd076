/** Which coordinates a fork may carry over, and why carrying them keeps every resolution. */
module ForkProjection {
  import opened Wrappers
  import opened CheckpointSlots
  import opened CheckpointLineage
  import opened MetadataModel
  import opened SessionGraph
  import opened StableProjection
  import opened SessionAncestry

  function LastIndex(source: seq<Coordinate>, ids: seq<string>): int {
    if ids == [] then -1 else IndexOf(source, ids[|ids| - 1])
  }

  /** Unchanged, with a proven parent, and later in the source than the last proven one. */
  predicate Accepts(source: seq<Coordinate>, ids: seq<string>, c: Coordinate) {
    && HasId(source, c.id)
    && source[IndexOf(source, c.id)] == c
    && (c.parent.Some? ==> c.parent.value in ids)
    && IndexOf(source, c.id) > LastIndex(source, ids)
  }

  function ProvenIds(source: seq<Coordinate>, child: seq<Coordinate>): seq<string> {
    if child == [] then []
    else
      var ids := ProvenIds(source, child[..|child| - 1]);
      var c := child[|child| - 1];
      if Accepts(source, ids, c) then ids + [c.id] else ids
  }

  /** The source's loop, after both lists pass the index check. */
  method ProvenStableCoordinateIds(source: seq<Coordinate>, child: seq<Coordinate>) returns (r: Option<seq<string>>)
    ensures r.None? <==> !WellFormed(source) || !WellFormed(child)
    ensures r.Some? ==> r.value == ProvenIds(source, child)
  {
    var sourceById := IndexCoordinates(source);
    if sourceById.None? { return None; }
    var childById := IndexCoordinates(child);
    if childById.None? { return None; }
    var proven: set<string> := {};
    var ids: seq<string> := [];
    var last: int := -1;
    for i := 0 to |child|
      invariant ids == ProvenIds(source, child[..i]) && last == LastIndex(source, ids)
      invariant forall id :: id in proven <==> id in ids
    {
      assert child[..i + 1][..i] == child[..i];
      var index := ProvenAt(source, sourceById.value, child[i], proven, last, ids);
      if index.Some? {
        proven := proven + {child[i].id};
        ids := ids + [child[i].id];
        last := index.value;
      }
    }
    assert child[..|child|] == child;
    return Some(ids);
  }

  /** The source position of a child coordinate, if it extends what is proven so far. */
  method ProvenAt(source: seq<Coordinate>, byId: map<string, (Coordinate, nat)>, c: Coordinate,
                  proven: set<string>, last: int, ghost ids: seq<string>)
    returns (r: Option<nat>)
    requires forall id :: id in byId <==> HasId(source, id)
    requires forall id :: id in byId ==> byId[id] == (source[IndexOf(source, id)], IndexOf(source, id))
    requires last == LastIndex(source, ids) && forall id :: id in proven <==> id in ids
    ensures r.Some? <==> Accepts(source, ids, c)
    ensures r.Some? ==> r.value == IndexOf(source, c.id)
  {
    if c.id !in byId { return None; }
    var (observed, index) := byId[c.id];
    if c.kind == observed.kind && c.role == observed.role && c.parent == observed.parent
       && (c.parent.None? || c.parent.value in proven) && index > last
    {
      assert c == observed;
      return Some(index);
    }
    return None;
  }

  lemma IndexedInOrder(coords: seq<Coordinate>, byId: map<string, (Coordinate, nat)>)
    requires WellFormed(coords)
    requires forall id :: id in byId ==> byId[id].1 < |coords| && byId[id].0 == coords[byId[id].1] && byId[id].0.id == id
    ensures forall id :: id in byId ==>
              IndexOf(coords, id) < |coords| && byId[id] == (coords[IndexOf(coords, id)], IndexOf(coords, id))
  {
    forall id | id in byId
      ensures IndexOf(coords, id) < |coords| && byId[id] == (coords[IndexOf(coords, id)], IndexOf(coords, id))
    {
      IndexOfDistinct(coords, byId[id].1);
    }
  }

  method IndexCoordinates(coords: seq<Coordinate>) returns (r: Option<map<string, (Coordinate, nat)>>)
    ensures r.None? <==> !WellFormed(coords)
    ensures r.Some? ==> forall id :: id in r.value <==> HasId(coords, id)
    ensures r.Some? ==> forall id :: id in r.value ==>
              r.value[id] == (coords[IndexOf(coords, id)], IndexOf(coords, id))
  {
    var byId: map<string, (Coordinate, nat)> := map[];
    for i := 0 to |coords|
      invariant WellFormed(coords[..i])
      invariant forall id :: id in byId <==> HasId(coords[..i], id)
      invariant forall id :: id in byId ==> byId[id].1 < i && byId[id].0 == coords[byId[id].1] && byId[id].0.id == id
    {
      var c := coords[i];
      WellFormedStep(coords, i);
      WellFormedNeedsPrefix(coords, i + 1);
      if c.id in byId { return None; }
      if c.parent.Some? && c.parent.value !in byId { return None; }
      assert coords[..i + 1] == coords[..i] + [c];
      byId := byId[c.id := (c, i)];
    }
    assert coords[..|coords|] == coords;
    IndexedInOrder(coords, byId);
    return Some(byId);
  }

  /** One coordinate is the same on both sides, with all of its ancestry proven. */
  ghost predicate Agrees(source: seq<Coordinate>, child: seq<Coordinate>, id: string, ids: seq<string>)
    requires WellFormed(source) && WellFormed(child)
  {
    && HasId(source, id) && HasId(child, id)
    && StablePath(child, IndexOf(child, id)) == StablePath(source, IndexOf(source, id))
    && forall a :: a in StablePath(child, IndexOf(child, id)) ==> a in ids
  }

  /** The stable path of a coordinate is its parent's, then itself. */
  lemma PathByParent(coords: seq<Coordinate>, i: nat)
    requires WellFormed(coords) && AllStable(coords) && i < |coords|
    ensures HasId(coords, coords[i].id) && IndexOf(coords, coords[i].id) == i
    ensures coords[i].parent.None? ==> StablePath(coords, i) == [coords[i].id]
    ensures coords[i].parent.Some? ==>
              && HasId(coords, coords[i].parent.value)
              && StablePath(coords, i) == StablePath(coords, IndexOf(coords, coords[i].parent.value)) + [coords[i].id]
  {
    assert coords[i] in coords;
    IndexOfDistinct(coords, i);
    StablePathStep(coords, i);
    if coords[i].parent.Some? { IndexOfDistinct(coords, ParentIn(coords, i).value); }
  }

  /** Two paths that extend agreeing ones by the same proven coordinate agree. */
  lemma ExtendedAgrees(above: seq<string>, ids: seq<string>, id: string, path: seq<string>)
    requires path == above + [id] && forall a :: a in above ==> a in ids
    ensures forall a :: a in path ==> a in ids + [id]
  {
  }

  lemma AcceptedAgrees(source: seq<Coordinate>, child: seq<Coordinate>, n: nat, ids: seq<string>)
    requires WellFormed(source) && WellFormed(child) && AllStable(source) && AllStable(child)
    requires 0 < n <= |child| && Accepts(source, ids, child[n - 1])
    requires child[n - 1].parent.Some? ==> Agrees(source, child, child[n - 1].parent.value, ids)
    ensures Agrees(source, child, child[n - 1].id, ids + [child[n - 1].id])
  {
    var c := child[n - 1];
    var path, proven := StablePath(child, n - 1), StablePath(source, IndexOf(source, c.id));
    PathByParent(child, n - 1);
    PathByParent(source, IndexOf(source, c.id));
    match c.parent
    case None =>
      assert proven == path == [c.id];
    case Some(parent) =>
      var above := StablePath(child, IndexOf(child, parent));
      assert proven == path == above + [c.id];
      ExtendedAgrees(above, ids, c.id, path);
  }

  /** Proven coordinates are the same coordinate on both sides, with the same proven ancestry. */
  lemma {:induction false} ProvenAgree(source: seq<Coordinate>, child: seq<Coordinate>, n: nat, id: string)
    requires WellFormed(source) && WellFormed(child) && n <= |child|
    requires AllStable(source) && AllStable(child) && id in ProvenIds(source, child[..n])
    ensures Agrees(source, child, id, ProvenIds(source, child[..n]))
  {
    if n > 0 {
      assert child[..n][..n - 1] == child[..n - 1];
      var ids, c := ProvenIds(source, child[..n - 1]), child[n - 1];
      if Accepts(source, ids, c) && id == c.id {
        if c.parent.Some? { ProvenAgree(source, child, n - 1, c.parent.value); }
        AcceptedAgrees(source, child, n, ids);
      } else {
        ProvenAgree(source, child, n - 1, id);
      }
    }
  }

  /** `child` picks coordinates of `source` in order, at the positions `at`. */
  ghost predicate IsSubsequence(source: seq<Coordinate>, child: seq<Coordinate>, at: seq<nat>) {
    && |at| == |child|
    && (forall i, j :: 0 <= i < j < |at| ==> at[i] < at[j])
    && (forall i :: 0 <= i < |at| ==> at[i] < |source| && source[at[i]] == child[i])
  }

  function IdsInOrder(coords: seq<Coordinate>): seq<string> {
    seq(|coords|, i requires 0 <= i < |coords| => coords[i].id)
  }

  /** The next coordinate of an ancestry-closed subsequence is accepted. */
  lemma NextAccepted(source: seq<Coordinate>, child: seq<Coordinate>, at: seq<nat>, n: nat)
    requires WellFormed(source) && WellFormed(child) && IsSubsequence(source, child, at) && n < |child|
    ensures Accepts(source, IdsInOrder(child[..n]), child[n])
  {
    var ids, c := IdsInOrder(child[..n]), child[n];
    assert source[at[n]] == c;
    IndexOfDistinct(source, at[n]);
    if n > 0 {
      assert ids[n - 1] == source[at[n - 1]].id;
      IndexOfDistinct(source, at[n - 1]);
    }
    if c.parent.Some? {
      assert ParentBefore(child, n);
      var e :| e in child[..n] && e.id == c.parent.value;
      var j :| 0 <= j < n && child[..n][j] == e;
      assert ids[j] == c.parent.value;
    }
  }

  /** A subsequence that is closed under ancestry is proven in full. */
  lemma {:induction false} ClosedSubsequenceProven(source: seq<Coordinate>, child: seq<Coordinate>, at: seq<nat>, n: nat)
    requires WellFormed(source) && WellFormed(child) && IsSubsequence(source, child, at) && n <= |child|
    ensures ProvenIds(source, child[..n]) == IdsInOrder(child[..n])
  {
    if n > 0 {
      ClosedSubsequenceProven(source, child, at, n - 1);
      assert child[..n][..n - 1] == child[..n - 1];
      NextAccepted(source, child, at, n - 1);
    }
  }

  lemma {:induction false} SameSlotsSameCheckpoint(a: Slots, b: Slots, path: seq<EntryId>)
    requires forall e :: e in path ==> SlotAt(a, e) == SlotAt(b, e)
    ensures LastCheckpoint(a, path) == LastCheckpoint(b, path)
  {
    if path != [] {
      assert path[|path| - 1] in path && forall e :: e in path[..|path| - 1] ==> e in path;
      SameSlotsSameCheckpoint(a, b, path[..|path| - 1]);
    }
  }

  /** A coordinate with one path on both sides that resolves alike. */
  ghost predicate SameResolution(id: EntryId, forked: Slots, childTree: Ancestries, slots: Slots, sourceTree: Ancestries) {
    && id in childTree && id in sourceTree && childTree[id] == sourceTree[id] != []
    && Resolve(forked, childTree[id]) == Resolve(slots, sourceTree[id])
  }

  ghost predicate ResolvesMissing(id: EntryId, forked: Slots, childTree: Ancestries) {
    id in childTree && childTree[id] != [] && Resolve(forked, childTree[id]) == Missing
  }

  /** Every id shares one path on both sides, made of such ids. */
  ghost predicate SharedPaths(ids: seq<string>, childTree: Ancestries, sourceTree: Ancestries) {
    forall id :: id in ids ==>
      && id in childTree && id in sourceTree && childTree[id] == sourceTree[id] != []
      && forall a :: a in childTree[id] ==> a in ids
  }

  lemma ProvenSharePaths(source: seq<Coordinate>, child: seq<Coordinate>)
    requires WellFormed(source) && WellFormed(child) && AllStable(source) && AllStable(child)
    ensures SharedPaths(ProvenIds(source, child), TreeOfCoordinates(child), TreeOfCoordinates(source))
  {
    assert child[..|child|] == child;
    CoordinatesAreTree(child);
    forall id | id in ProvenIds(source, child) ensures Agrees(source, child, id, ProvenIds(source, child)) {
      ProvenAgree(source, child, |child|, id);
    }
  }

  lemma SharedPathsResolveAlike(ids: seq<string>, childTree: Ancestries, sourceTree: Ancestries, forked: Slots, slots: Slots)
    requires SharedPaths(ids, childTree, sourceTree)
    requires forall e :: e in ids ==> SlotAt(forked, e) == SlotAt(slots, e)
    ensures forall id :: id in ids ==> SameResolution(id, forked, childTree, slots, sourceTree)
  {
    forall id | id in ids ensures SameResolution(id, forked, childTree, slots, sourceTree) {
      SameSlotsSameCheckpoint(forked, slots, childTree[id]);
    }
  }

  function Exported(slots: Slots, ids: seq<string>): map<EntryId, Slot> {
    map id | id in ids :: SlotAt(slots, id)
  }

  /** What seeding writes for exported and for other retained coordinates. */
  lemma SeededRows(slots: Slots, proven: seq<string>, retained: seq<EntryId>)
    requires forall e :: e in proven ==> e in retained
    ensures var forked := SeedSlots(retained, Exported(slots, proven), None);
            forall e :: e in retained ==> SlotAt(forked, e) == if e in proven then SlotAt(slots, e) else BlockedMissing
  {
  }

  lemma BlockedResolvesMissing(id: EntryId, forked: Slots, tree: Ancestries)
    requires IsTree(tree) && id in tree && SlotAt(forked, id) == BlockedMissing
    ensures ResolvesMissing(id, forked, tree)
  {
  }

  /** The fork law over trees: shared paths resolve alike, the rest to missing. */
  lemma ForkOverTrees(slots: Slots, proven: seq<string>, retained: seq<EntryId>, childTree: Ancestries, sourceTree: Ancestries)
    requires IsTree(childTree) && SharedPaths(proven, childTree, sourceTree)
    requires forall id :: id in retained <==> id in childTree
    ensures var forked := SeedSlots(retained, Exported(slots, proven), None);
            && (forall id :: id in proven ==> SameResolution(id, forked, childTree, slots, sourceTree))
            && (forall id :: id in retained && id !in proven ==> ResolvesMissing(id, forked, childTree))
  {
    var forked := SeedSlots(retained, Exported(slots, proven), None);
    SeededRows(slots, proven, retained);
    SharedPathsResolveAlike(proven, childTree, sourceTree, forked, slots);
    forall id | id in retained && id !in proven ensures ResolvesMissing(id, forked, childTree) {
      BlockedResolvesMissing(id, forked, childTree);
    }
  }

  /** Forks preserve resolution: proven coordinates resolve as in the source, the others to missing. */
  lemma ForkPreservesResolution(slots: Slots, source: seq<Coordinate>, child: seq<Coordinate>, retained: seq<EntryId>)
    requires WellFormed(source) && WellFormed(child) && AllStable(source) && AllStable(child)
    requires forall id :: id in retained <==> id in Ids(child)
    ensures var proven := ProvenIds(source, child);
            var forked := SeedSlots(retained, Exported(slots, proven), None);
            && (forall id :: id in proven ==>
                  SameResolution(id, forked, TreeOfCoordinates(child), slots, TreeOfCoordinates(source)))
            && (forall id :: id in retained && id !in proven ==>
                  ResolvesMissing(id, forked, TreeOfCoordinates(child)))
  {
    ProvenSharePaths(source, child);
    CoordinatesAreTree(child);
    ForkOverTrees(slots, ProvenIds(source, child), retained, TreeOfCoordinates(child), TreeOfCoordinates(source));
  }

  lemma NewForkRows(db: Db, s: SessionId, file: string, retained: seq<EntryId>, active: seq<EntryId>,
                    projection: MetadataModel.Projection)
    requires Register(db, s, file, retained, active, Fork(projection)).Committed?
    requires !Register(db, s, file, retained, active, Fork(projection)).value.existing
    ensures SlotsOf(Register(db, s, file, retained, active, Fork(projection)).db, s)
         == SeedSlots(retained, projection.slots, None)
  {
  }

  lemma ExportedRows(db: Db, file: string, ids: seq<string>, projection: MetadataModel.Projection)
    requires ExportFork(db, file, set id | id in ids) == Some(projection)
    ensures Verified(db, projection.source, file)
    ensures projection.slots == Exported(SlotsOf(db, projection.source), ids)
  {
  }

  /** The same law for the transactions: export from one database, register in another. */
  lemma ForkTransactionPreservesResolution(
      sourceDb: Db, file: string, source: seq<Coordinate>, projection: MetadataModel.Projection,
      db: Db, s: SessionId, childFile: string, child: seq<Coordinate>, retained: seq<EntryId>, active: seq<EntryId>)
    requires WellFormed(source) && WellFormed(child) && AllStable(source) && AllStable(child)
    requires forall id :: id in retained <==> id in Ids(child)
    requires ExportFork(sourceDb, file, set id | id in ProvenIds(source, child)) == Some(projection)
    requires Register(db, s, childFile, retained, active, Fork(projection)).Committed?
    requires !Register(db, s, childFile, retained, active, Fork(projection)).value.existing
    ensures Verified(sourceDb, projection.source, file)
    ensures var forked := SlotsOf(Register(db, s, childFile, retained, active, Fork(projection)).db, s);
            && (forall id :: id in ProvenIds(source, child) ==>
                  SameResolution(id, forked, TreeOfCoordinates(child),
                                 SlotsOf(sourceDb, projection.source), TreeOfCoordinates(source)))
            && (forall id :: id in retained && id !in ProvenIds(source, child) ==>
                  ResolvesMissing(id, forked, TreeOfCoordinates(child)))
  {
    ExportedRows(sourceDb, file, ProvenIds(source, child), projection);
    NewForkRows(db, s, childFile, retained, active, projection);
    ForkPreservesResolution(SlotsOf(sourceDb, projection.source), source, child, retained);
  }
}
