/** One apply run: ordered phases over a filesystem whose calls may fail one by one. */
module ApplyRun {
  import opened Wrappers
  import opened WorkspacePaths
  import opened RestorePlan
  import opened MutationGate
  import opened ApplyModel
  import opened ApplyDisk

  datatype ProblemKind = WriteFailed | DeleteFailed | MkdirFailed | ReadFailed

  datatype ApplyProblem = ApplyProblem(path: Path, kind: ProblemKind)

  /** Only directories disappeared. */
  ghost predicate OnlyDirectoriesGo(before: Files, after: Files) {
    && after.Keys <= before.Keys
    && (forall p :: p in before ==> if p in after then after[p] == before[p] else before[p] == Directory)
  }

  ghost predicate Undisturbed(start: Files, files: Files, w: Work, dirs: set<Path>) {
    Intact(start, files, w) && ObservedDirectories(files, w, dirs)
  }

  /** Changing leaves that lie outside the excluded paths and the observed directories disturbs nothing. */
  lemma LeafChangesDisturbNothing(start: Files, before: Files, after: Files, w: Work, dirs: set<Path>, where: set<Path>)
    requires Undisturbed(start, before, w, dirs) && DiffersOnlyAt(before, after, where)
    requires forall p :: p in where ==> !Under(p, w.excluded) && p !in dirs && (p in after ==> after[p] != Directory)
    ensures Undisturbed(start, after, w, dirs)
    ensures AllObserved(before, w, dirs) ==> AllObserved(after, w, dirs)
  {
    IntactElsewhere(start, before, after, w, where);
    forall d | d in dirs ensures d in after && after[d] == Directory && !Under(d, w.excluded) {
      assert SameAt(before, after, d);
    }
    if AllObserved(before, w, dirs) {
      forall p | p in after && after[p] == Directory ensures p in dirs || Under(p, w.excluded) {
        assert SameAt(before, after, p);
      }
    }
  }

  /** Removing one observed directory disturbs nothing. */
  lemma DirectoryRemovalDisturbsNothing(start: Files, before: Files, w: Work, dirs: set<Path>, p: Path)
    requires Undisturbed(start, before, w, dirs) && p in dirs
    ensures Undisturbed(start, before - {p}, w, dirs - {p})
    ensures AllObserved(before, w, dirs) ==> AllObserved(before - {p}, w, dirs - {p})
  {
    assert DiffersOnlyAt(before, before - {p}, {p});
    IntactElsewhere(start, before, before - {p}, w, {p});
  }

  lemma DirectoryAdditionDisturbsNothing(start: Files, before: Files, w: Work, dirs: set<Path>, p: Path)
    requires Undisturbed(start, before, w, dirs) && !Under(p, w.excluded)
    ensures Undisturbed(start, before[p := Directory], w, dirs)
    ensures Undisturbed(start, before[p := Directory], w, dirs + {p})
    ensures AllObserved(before, w, dirs) ==> AllObserved(before[p := Directory], w, dirs + {p})
  {
    assert DiffersOnlyAt(before, before[p := Directory], {p});
    IntactElsewhere(start, before, before[p := Directory], w, {p});
  }

  lemma NoLeafAboveUnderDirectory(files: Files, p: Path)
    requires Tree(files) && Canonical(p) && IsDirectory(files, Parent(p))
    ensures !LeafAbove(files, p)
  {
    ParentIsNearest(p);
    if Parent(p) != "" {
      forall a | a in Ancestors(p) ensures a in files && files[a] == Directory {
        if a != Parent(p) { assert a in Ancestors(Parent(p)); }
      }
    }
  }

  /** Nothing below a target path is excluded. */
  lemma NotUnderBelowTarget(w: Work, t: Path, q: Path)
    requires Sound(w) && t in w.target && AtOrBelow(q, t)
    ensures !Under(q, w.excluded)
  {
    if Under(q, w.excluded) {
      var e :| e in w.excluded && AtOrBelow(q, e);
      BelowMeansAncestor(q, e);
      BelowMeansAncestor(q, t);
      BelowMeansAncestor(e, t);
      BelowMeansAncestor(t, e);
      if e in Ancestors(q) && t in Ancestors(q) { AncestorsComparable(q, e, t); }
      assert Comparable(e, t);
    }
  }

  /** The deepest of the paths at or below `t` has nothing below it. */
  lemma DeepestIsEmpty(files: Files, subtree: set<Path>, p: Path, t: Path)
    requires Tree(files) && p in subtree && AtOrBelow(p, t)
    requires forall q :: q in subtree ==> Depth(q) <= Depth(p)
    requires forall q :: q in files && AtOrBelow(q, t) ==> q in subtree
    ensures !HasChild(files, p)
  {
    if HasChild(files, p) {
      var q :| q in files && p in Ancestors(q);
      BelowBelow(q, p, t);
      AncestorsAreShallower(q, p);
      assert false;
    }
  }

  /** What a target leaf's destination looks like as long as nothing went wrong. */
  ghost predicate Untouched(w: Work, files: Files, t: Path) {
    && IsDirectory(files, Parent(t))
    && (if t in w.current then t in files && files[t] == Holds(w.current[t]) else t !in files)
  }

  lemma OrphanOnly(before: Files, after: Files, w: Work, orphan: Path)
    requires orphan !in before && DiffersOnlyAt(before, after, {orphan}) && !Under(orphan, w.excluded)
    ensures OnlyOrphans(before, after, w)
  {
    forall p | p in after ensures p in before || !Under(p, w.excluded) {
      if p != orphan { assert SameAt(before, after, p); }
    }
  }

  /** Every existing path is as it was; whatever was added lies outside the excluded paths. */
  ghost predicate OnlyOrphans(before: Files, after: Files, w: Work) {
    && (forall p :: p in before ==> SameAt(before, after, p))
    && (forall p :: p in after && p !in before ==> !Under(p, w.excluded))
  }

  class Apply {
    const disk: Disk
    const work: Work
    ghost const start: Files
    var dirs: set<Path>
    var problems: seq<ApplyProblem>
    var blocked: set<Path>
    var heldBack: set<Path>
    var dirtied: set<Path>
    var created: seq<Path>
    var updated: seq<Path>
    var deleted: seq<Path>

    /** What every step keeps, whichever calls fail. */
    ghost predicate Safe() reads this, disk, disk.gate, disk.gate.lease {
      && disk.Valid() && Sound(work) && EntriesTrue(start, work)
      && Undisturbed(start, disk.files, work, dirs)
      && (problems != [] ==> disk.faulted)
      && (problems == [] ==> AllObserved(disk.files, work, dirs) && blocked == {} && heldBack == {})
      && (Noop(work) ==> disk.files == start && disk.gate.trace == [] && dirtied == {})
    }

    constructor (disk: Disk, work: Work, dirs: set<Path>, refused: seq<ApplyProblem>)
      requires disk.Valid() && Sound(work) && Truthful(disk.files, work, dirs) && disk.gate.trace == []
      requires refused == [] ==> AllObserved(disk.files, work, dirs)
      requires refused != [] ==> disk.faulted
      ensures Safe() && this.disk == disk && this.work == work && start == disk.files
      ensures this.dirs == dirs && problems == refused && created == [] && updated == [] && deleted == []
    {
      this.disk, this.work, this.start, this.dirs := disk, work, disk.files, dirs;
      problems, blocked, heldBack, dirtied := refused, {}, {}, {};
      created, updated, deleted := [], [], [];
    }

    method Fail(p: Path, kind: ProblemKind)
      requires disk.faulted
      modifies this`problems
      ensures problems == old(problems) + [ApplyProblem(p, kind)]
      ensures old(Safe()) ==> Safe()
    {
      problems := problems + [ApplyProblem(p, kind)];
    }

    method MarkDirty(p: Path)
      requires !Noop(work)
      modifies this`dirtied
      ensures old(Safe()) ==> Safe()
    {
      dirtied := dirtied + {Parent(p)};
    }

    /** Observed ancestors are still the scanned directories. */
    method CheckAncestors(p: Path) returns (ok: bool)
      requires Safe()
      modifies disk`faulted
      ensures Safe() && (old(disk.faulted) || !ok ==> disk.faulted)
    {
      var fails: bool := *;
      ok := !fails && forall a :: a in Ancestors(p) && a in dirs ==> a in disk.files && disk.files[a] == Directory;
      disk.faulted := disk.faulted || !ok;
    }

    /** The path still holds what the scan saw there. */
    method CheckCurrent(p: Path) returns (ok: bool)
      requires Safe() && p in work.current
      modifies disk`faulted
      ensures Safe() && (old(disk.faulted) ==> disk.faulted)
      ensures ok ==> p in disk.files && disk.files[p] == Holds(work.current[p])
      ensures !ok ==> disk.faulted || p !in disk.files || disk.files[p] != Holds(work.current[p])
    {
      ok := CheckAncestors(p);
      if !ok { return; }
      var fails: bool := *;
      disk.faulted := disk.faulted || fails;
      if fails || p !in disk.files || disk.files[p] != Holds(work.current[p]) { return false; }
      ok := CheckAncestors(p);
    }

    /** Nothing appeared at a path about to be created. */
    method CheckAbsent(p: Path) returns (ok: bool)
      requires Safe()
      modifies disk`faulted
      ensures Safe() && (old(disk.faulted) ==> disk.faulted)
      ensures ok ==> p !in disk.files
      ensures !ok ==> disk.faulted || p in disk.files || LeafAbove(disk.files, p)
    {
      ok := CheckAncestors(p);
      if !ok { return; }
      var seen := disk.Lstat(p);
      return seen.Missing?;
    }

    /** The one way to a mutation: re-authenticate the gate first. */
    method Authorize() returns (ok: bool)
      requires Safe() && !Noop(work)
      modifies disk`faulted, disk.gate, disk.gate.lease
      ensures Safe() && ok == disk.gate.state.Authorized? && (old(disk.faulted) || !ok ==> disk.faulted)
    {
      ok := disk.Authorize();
    }

    method RemoveLeaf(p: Path) returns (ok: bool)
      requires Safe() && p in work.current && !Noop(work)
      modifies this`dirtied, disk, disk.gate, disk.gate.lease
      ensures Safe() && (old(disk.faulted) ==> disk.faulted)
      ensures ok ==> disk.files == old(disk.files) - {p}
      ensures !ok ==> disk.files == old(disk.files)
      ensures !ok ==> disk.faulted || p !in disk.files || disk.files[p] != Holds(work.current[p])
    {
      ok := CheckCurrent(p);
      if !ok { return; }
      ok := Authorize();
      if !ok { return; }
      ghost var before := disk.files;
      ok := disk.Unlink(p);
      if ok {
        assert DiffersOnlyAt(before, disk.files, {p});
        LeafChangesDisturbNothing(start, before, disk.files, work, dirs, {p});
        MarkDirty(p);
      }
    }

    /** Step 1, one entry: the target does not hold it. */
    method UnlinkEntry(p: Path)
      requires Safe() && p in work.current && p !in work.target
      requires problems == [] ==> p in disk.files && disk.files[p] == Holds(work.current[p])
      modifies this`problems, this`dirtied, this`updated, this`deleted, disk, disk.gate, disk.gate.lease
      ensures Safe() && (old(disk.faulted) ==> disk.faulted) && old(problems) <= problems
      ensures problems == [] ==> disk.files == old(disk.files) - {p}
      ensures problems == [] ==> updated == old(updated) + if p in work.kept then [p] else []
      ensures problems == [] ==> deleted == old(deleted) + if p in work.kept then [] else [p]
    {
      if p !in work.kept && p !in work.deletes { return; }
      var ok := RemoveLeaf(p);
      if !ok {
        Fail(p, DeleteFailed);
        return;
      }
      if p in work.kept { updated := updated + [p]; } else { deleted := deleted + [p]; }
    }

    /** Remove one observed directory if it is empty. */
    method RemoveDirectory(p: Path) returns (r: Removal)
      requires Safe() && p in dirs && !Noop(work)
      modifies this`dirs, this`dirtied, disk, disk.gate, disk.gate.lease
      ensures Safe() && (old(disk.faulted) ==> disk.faulted)
      ensures r == Removed ==> disk.files == old(disk.files) - {p} && dirs == old(dirs) - {p}
      ensures r == Removed ==> old(disk.files)[p] == Directory && !HasChild(old(disk.files), p)
      ensures r != Removed ==> disk.files == old(disk.files) && dirs == old(dirs)
      ensures r == Refusal ==> disk.faulted
      ensures r != Removed ==> disk.faulted || HasChild(disk.files, p)
    {
      var ok := CheckAncestors(p);
      if ok { ok := Authorize(); }
      if !ok { return Refusal; }
      r := RmdirObserved(p);
    }

    method RmdirObserved(p: Path) returns (r: Removal)
      requires Safe() && p in dirs && !Noop(work) && disk.gate.state.Authorized?
      modifies this`dirs, this`dirtied, disk, disk.gate`trace
      ensures Safe() && (old(disk.faulted) ==> disk.faulted)
      ensures r == Removed ==> disk.files == old(disk.files) - {p} && dirs == old(dirs) - {p}
      ensures r == Removed ==> !HasChild(old(disk.files), p)
      ensures r != Removed ==> disk.files == old(disk.files) && dirs == old(dirs)
      ensures r == Refusal ==> disk.faulted
      ensures r != Removed ==> disk.faulted || HasChild(disk.files, p)
    {
      ghost var before := disk.files;
      r := disk.Rmdir(p);
      if r == Removed {
        DirectoryRemovalDisturbsNothing(start, before, work, dirs, p);
        dirs, dirtied := dirs - {p}, dirtied - {p};
        MarkDirty(p);
      }
    }

    /** Step 2, one directory: kept on purpose while it holds anything. */
    method PruneDirectory(p: Path)
      requires Safe() && p in dirs && !Noop(work)
      modifies this`dirs, this`problems, this`dirtied, disk, disk.gate, disk.gate.lease
      ensures Safe() && (old(disk.faulted) ==> disk.faulted) && old(problems) <= problems
      ensures disk.files == old(disk.files) || (disk.files == old(disk.files) - {p} && !HasChild(old(disk.files), p))
      ensures !disk.faulted ==> problems == old(problems) && (p in disk.files <==> HasChild(old(disk.files), p))
      ensures OnlyDirectoriesGo(old(disk.files), disk.files)
      ensures old(dirs) - {p} <= dirs
    {
      var r := RemoveDirectory(p);
      if r == Refusal { Fail(p, DeleteFailed); }
    }

    /** What is left of the observed subtree at or below `t`; without problems nothing else is there. */
    ghost predicate Clearing(t: Path, subtree: set<Path>) reads this, disk {
      && subtree == (set d | d in dirs && AtOrBelow(d, t))
      && (problems == [] ==> forall q :: q in disk.files && AtOrBelow(q, t) ==> q in subtree)
    }

    /** Remove the deepest directory of the subtree, or hold the leaf back. */
    method ClearDeepest(t: Path, subtree: set<Path>) returns (ok: bool, rest: set<Path>)
      requires Safe() && !Noop(work) && Clearing(t, subtree) && subtree != {}
      modifies this`dirs, this`problems, this`dirtied, this`blocked, this`heldBack, disk, disk.gate, disk.gate.lease
      ensures Safe() && (old(disk.faulted) ==> disk.faulted) && old(problems) <= problems
      ensures OnlyDirectoriesGo(old(disk.files), disk.files)
      ensures ok ==> problems == old(problems) && Clearing(t, rest) && rest < subtree
      ensures !ok ==> problems != old(problems) && t in heldBack && t in blocked
    {
      var p := Deepest(subtree);
      var r := RemoveDirectory(p);
      ok, rest := r == Removed, subtree - {p};
      if !ok {
        if problems == [] { DeepestIsEmpty(disk.files, subtree, p, t); }
        Fail(p, DeleteFailed);
        heldBack, blocked := heldBack + {t}, blocked + {t};
      }
    }

    /** Clear the observed subtree a target leaf replaces, deepest first; any leftover holds the leaf back. */
    method ClearSubtree(t: Path)
      requires Safe() && t in work.target && !Noop(work)
      requires problems == [] ==> forall q :: q in disk.files && AtOrBelow(q, t) ==> disk.files[q] == Directory
      modifies this`dirs, this`problems, this`dirtied, this`blocked, this`heldBack, disk, disk.gate, disk.gate.lease
      ensures Safe() && (old(disk.faulted) ==> disk.faulted) && old(problems) <= problems
      ensures OnlyDirectoriesGo(old(disk.files), disk.files)
      ensures problems == [] ==> forall q :: q in disk.files ==> !AtOrBelow(q, t)
      ensures problems != old(problems) ==> t in heldBack && t in blocked
      ensures problems == old(problems) ==> forall d :: d in dirs ==> !AtOrBelow(d, t)
    {
      TargetIsClear(work, t);
      var subtree := set d | d in dirs && AtOrBelow(d, t);
      assert problems == [] ==> forall q :: q in disk.files && AtOrBelow(q, t) ==> q in subtree by {
        forall q | q in disk.files && AtOrBelow(q, t) && problems == [] ensures q in subtree {
          NotUnderBelowTarget(work, t, q);
        }
      }
      var ok := true;
      while ok && subtree != {}
        invariant Safe() && (old(disk.faulted) ==> disk.faulted) && old(problems) <= problems
        invariant OnlyDirectoriesGo(old(disk.files), disk.files)
        invariant if ok then problems == old(problems) && Clearing(t, subtree) else problems != old(problems)
        invariant !ok ==> t in heldBack && t in blocked
        decreases ok, subtree
      {
        ok, subtree := ClearDeepest(t, subtree);
      }
      assert ok ==> forall d :: d in dirs && AtOrBelow(d, t) ==> d in subtree;
    }

    predicate IsBlocked(p: Path) reads this`blocked {
      exists b :: b in blocked && AtOrBelow(p, b)
    }

    /** Step 3, one directory that is there already. */
    method AcceptDirectory(p: Path)
      requires Safe() && p in work.kept && p in disk.files && disk.files[p] == Directory
      modifies this`problems, this`blocked, disk`faulted
      ensures Safe() && (old(disk.faulted) ==> disk.faulted) && old(problems) <= problems
      ensures if problems == old(problems) then p in dirs && blocked == old(blocked) else p in blocked
    {
      KeptIsClear(work, p);
      var fails: bool := *;
      disk.faulted := disk.faulted || fails;
      if p !in dirs || fails {
        Fail(p, WriteFailed);
        blocked := blocked + {p};
      }
    }

    /** Create one directory and confirm its identity; one that is made but not confirmed is a problem. */
    method CreateDirectory(p: Path) returns (made: bool)
      requires Safe() && p in work.kept && !Noop(work) && disk.gate.state.Authorized?
      requires problems == [] ==> !LeafAbove(disk.files, p) && IsDirectory(disk.files, Parent(p))
      modifies this`dirs, this`problems, this`dirtied, this`blocked, disk, disk.gate`trace
      ensures Safe() && (old(disk.faulted) ==> disk.faulted) && old(problems) <= problems
      ensures made ==> disk.files == old(disk.files)[p := Directory]
      ensures made ==> if problems == old(problems) then p in dirs && blocked == old(blocked) else p in blocked
      ensures !made ==> disk.files == old(disk.files) && problems == old(problems) && blocked == old(blocked)
      ensures !made ==> disk.faulted || p in disk.files || !IsDirectory(disk.files, Parent(p))
    {
      KeptIsClear(work, p);
      ghost var before := disk.files;
      made := disk.Mkdir(p);
      if !made { return; }
      DirectoryAdditionDisturbsNothing(start, before, work, dirs, p);
      dirtied := dirtied + {Parent(p)};
      var fails: bool := *;
      disk.faulted := disk.faulted || fails;
      if fails {
        problems, blocked := problems + [ApplyProblem(p, MkdirFailed)], blocked + {p};
      } else {
        dirs := dirs + {p};
      }
    }

    /** Step 3, one directory that is missing; observed only once its identity is confirmed. */
    method MakeDirectory(p: Path, replaced: bool)
      requires Safe() && p in work.kept && !Noop(work)
      requires problems == [] ==> p !in disk.files && IsDirectory(disk.files, Parent(p)) && !replaced
      modifies this`dirs, this`problems, this`dirtied, this`blocked, this`updated, disk, disk.gate, disk.gate.lease
      ensures Safe() && (old(disk.faulted) ==> disk.faulted) && old(problems) <= problems
      ensures problems == [] ==> disk.files == old(disk.files)[p := Directory] && updated == old(updated)
      ensures if problems == old(problems) then p in dirs && blocked == old(blocked) else p in blocked
    {
      KeptIsClear(work, p);
      if problems == [] { NoLeafAboveUnderDirectory(disk.files, p); }
      var ok := CheckAbsent(p);
      if ok { ok := Authorize(); }
      if ok { ok := CreateDirectory(p); }
      if !ok {
        Fail(p, MkdirFailed);
        blocked := blocked + {p};
      } else if replaced && p !in blocked {
        updated := updated + [p];
      }
    }

    /** Step 3, one directory of the target. */
    method EnsureDirectory(p: Path)
      requires Safe() && p in work.kept
      requires problems == [] ==> IsDirectory(disk.files, Parent(p)) && (p in disk.files ==> disk.files[p] == Directory)
      requires Noop(work) ==> p in disk.files && disk.files[p] == Directory
      modifies this`dirs, this`problems, this`dirtied, this`blocked, this`updated, disk, disk.gate, disk.gate.lease
      ensures Safe() && (old(disk.faulted) ==> disk.faulted) && old(problems) <= problems
      ensures problems == [] ==> disk.files == old(disk.files)[p := Directory] && updated == old(updated)
      ensures (p in dirs && p in disk.files && disk.files[p] == Directory) || p in blocked
      ensures problems != old(problems) || old(IsBlocked(p)) ==> p in blocked && forall q :: AtOrBelow(q, p) ==> IsBlocked(q)
    {
      KeptIsClear(work, p);
      if IsBlocked(p) {
        blocked := blocked + {p};
        return;
      }
      if problems == [] { NoLeafAboveUnderDirectory(disk.files, p); }
      var seen := disk.Lstat(p);
      match seen
      case Unreadable =>
        Fail(p, ReadFailed);
        blocked := blocked + {p};
      case Missing =>
        MakeDirectory(p, false);
      case Found(node) =>
        if node == Directory {
          AcceptDirectory(p);
        } else if p !in work.current {
          Fail(p, WriteFailed);
          blocked := blocked + {p};
        } else {
          var ok := RemoveLeaf(p);
          if !ok {
            Fail(p, DeleteFailed);
            blocked := blocked + {p};
          } else {
            MakeDirectory(p, true);
          }
        }
    }

    ghost predicate Awaiting(t: Path) reads this, disk {
      Untouched(work, disk.files, t)
    }

    ghost predicate Pending(t: Path) {
      t in work.target && (t in work.creates || t in work.changes)
    }

    /** The destination is still as scanned: absent, or holding the entry seen there. */
    method CheckDestination(t: Path) returns (ok: bool)
      requires Safe() && Pending(t) && Canonical(t)
      requires problems == [] ==> Awaiting(t)
      modifies disk`faulted
      ensures Safe() && (old(disk.faulted) || !ok ==> disk.faulted)
    {
      if t in work.creates {
        if problems == [] { NoLeafAboveUnderDirectory(disk.files, t); }
        ok := CheckAbsent(t);
      } else {
        ok := CheckCurrent(t);
      }
    }

    /** A random sibling name. */
    method DrawTemporary(t: Path) returns (temporary: Path)
      requires Canonical(t)
      ensures Canonical(temporary) && Parent(temporary) == Parent(t)
    {
      var name: string := *;
      if name == "" || '/' in name { name := ".cyclotomy.tmp"; }
      ParentIsNearest(t);
      JoinedPath(Parent(t), name);
      temporary := if Parent(t) == "" then name else Parent(t) + "/" + name;
    }

    ghost predicate Sibling(p: Path, t: Path) {
      Canonical(p) && Parent(p) == Parent(t) && p != t
    }

    /** Create and fill the temporary; on failure it may stay behind with any content. */
    method PrepareTemporary(t: Path, temporary: Path) returns (made: bool, ok: bool)
      requires Safe() && Pending(t) && Sibling(temporary, t)
      requires problems == [] ==> IsDirectory(disk.files, Parent(t))
      modifies disk, disk.gate, disk.gate.lease
      ensures Safe() && (old(disk.faulted) || !ok ==> disk.faulted)
      ensures !made ==> disk.files == old(disk.files)
      ensures made || ok ==> temporary !in old(disk.files) && temporary in disk.files && disk.files[temporary] != Directory
      ensures made || ok ==> DiffersOnlyAt(old(disk.files), disk.files, {temporary}) && !Under(temporary, work.excluded)
      ensures ok ==> made && disk.files == old(disk.files)[temporary := Holds(work.target[t])]
    {
      made := false;
      ok := Authorize();
      if !ok { return; }
      var leaf := work.target[t];
      ghost var before := disk.files;
      ok := disk.CreateExclusive(temporary, Holds(if leaf.Regular? then Regular(disk.digest([])) else leaf));
      if !ok { return; }
      made := true;
      SiblingIsClear(start, before, work, t, temporary);
      LeafChangesDisturbNothing(start, before, disk.files, work, dirs, {temporary});
      if leaf.Symlink? { return; }
      ok := disk.StreamInto(temporary, leaf.oid);
      LeafChangesDisturbNothing(start, before, disk.files, work, dirs, {temporary});
      if ok { ok := FinishTemporary(); }
    }

    /** Recreation mode, then synchronisation of the content. */
    method FinishTemporary() returns (ok: bool)
      requires Safe() && !Noop(work)
      modifies disk`faulted, disk.gate, disk.gate.lease
      ensures Safe() && (old(disk.faulted) || !ok ==> disk.faulted)
    {
      ok := Authorize();
      if ok { ok := Authorize(); }
      var fails: bool := *;
      disk.faulted := disk.faulted || fails;
      ok := ok && !fails;
    }

    /** Remove a temporary left by a failure; an orphan is inert. */
    method Discard(temporary: Path)
      requires Safe() && disk.faulted && !Noop(work)
      requires temporary in disk.files && disk.files[temporary] != Directory && !Under(temporary, work.excluded)
      modifies disk, disk.gate, disk.gate.lease
      ensures Safe() && disk.faulted && DiffersOnlyAt(old(disk.files), disk.files, {temporary})
      ensures temporary in disk.files ==> disk.files[temporary] != Directory
    {
      var ok := Authorize();
      if !ok { return; }
      ghost var before := disk.files;
      ok := disk.Unlink(temporary);
      LeafChangesDisturbNothing(start, before, disk.files, work, dirs, {temporary});
    }

    /** Publish a prepared temporary over the destination. */
    method Commit(t: Path, temporary: Path) returns (ok: bool)
      requires Safe() && Pending(t) && Sibling(temporary, t)
      requires temporary in disk.files && disk.files[temporary] == Holds(work.target[t]) && !Under(temporary, work.excluded)
      requires problems == [] ==> Awaiting(t)
      modifies disk, disk.gate, disk.gate.lease
      ensures Safe() && (old(disk.faulted) || !ok ==> disk.faulted)
      ensures ok ==> disk.files == (old(disk.files) - {temporary})[t := Holds(work.target[t])]
      ensures !ok ==> disk.files == old(disk.files)
    {
      TargetIsClear(work, t);
      ok := CheckDestination(t);
      if !ok { return; }
      ok := Authorize();
      if !ok { return; }
      ghost var before := disk.files;
      ok := disk.Rename(temporary, t);
      if ok { LeafChangesDisturbNothing(start, before, disk.files, work, dirs, {temporary, t}); }
    }

    /** Write through a temporary sibling and one atomic rename. */
    method PublishAtomically(t: Path) returns (ok: bool)
      requires Safe() && Pending(t)
      requires problems == [] ==> Awaiting(t)
      modifies disk, disk.gate, disk.gate.lease
      ensures Safe() && (old(disk.faulted) || !ok ==> disk.faulted)
      ensures ok ==> disk.files == old(disk.files)[t := Holds(work.target[t])]
      ensures !ok ==> OnlyOrphans(old(disk.files), disk.files, work)
    {
      TargetIsClear(work, t);
      ok := CheckDestination(t);
      if !ok { return; }
      var temporary := DrawTemporary(t);
      if temporary == t {
        disk.faulted := true;
        return false;
      }
      var left;
      left, ok := PrepareTemporary(t, temporary);
      if ok { ok := Commit(t, temporary); }
      if !ok && left {
        Discard(temporary);
        OrphanOnly(old(disk.files), disk.files, work, temporary);
      }
    }

    /** Truncate the opened file and stream the wanted content into it. */
    method ReplaceContent(t: Path) returns (ok: bool)
      requires Safe() && Pending(t) && work.target[t].Regular? && disk.gate.state.Authorized?
      requires t in disk.files && disk.files[t] != Directory
      modifies disk, disk.gate, disk.gate.lease
      ensures Safe() && (old(disk.faulted) || !ok ==> disk.faulted)
      ensures ok ==> disk.files == old(disk.files)[t := Holds(work.target[t])]
      ensures DiffersOnlyAt(old(disk.files), disk.files, {t})
    {
      TargetIsClear(work, t);
      var fails: bool := *;
      if fails {
        disk.faulted := true;
        return false;
      }
      disk.Overwrite(t, disk.digest([]));
      ok := disk.StreamInto(t, work.target[t].oid);
      assert DiffersOnlyAt(old(disk.files), disk.files, {t});
      LeafChangesDisturbNothing(start, old(disk.files), disk.files, work, dirs, {t});
    }

    /** Final truncation, synchronisation and verification of rewritten content. */
    method ConfirmContent(t: Path) returns (ok: bool)
      requires Safe() && Pending(t)
      modifies disk`faulted, disk.gate, disk.gate.lease
      ensures Safe() && (old(disk.faulted) || !ok ==> disk.faulted)
    {
      ok := Authorize();
      if ok { ok := Authorize(); }
      var fails: bool := *;
      disk.faulted := disk.faulted || fails;
      if !ok || fails { return false; }
      ok := CheckAncestors(t);
    }

    /** Rewrite a scanned regular file through its own inode; a failure may leave partial content. */
    method RewriteInPlace(t: Path) returns (ok: bool)
      requires Safe() && Pending(t) && t in work.current && work.current[t].Regular? && work.target[t].Regular?
      requires problems == [] ==> Awaiting(t)
      modifies disk, disk.gate, disk.gate.lease
      ensures Safe() && (old(disk.faulted) || !ok ==> disk.faulted)
      ensures ok ==> disk.files == old(disk.files)[t := Holds(work.target[t])]
      ensures DiffersOnlyAt(old(disk.files), disk.files, {t})
    {
      ok := CheckCurrent(t);
      if !ok { return; }
      ok := Authorize();
      if !ok { return; }
      ok := ReplaceContent(t);
      if !ok { return; }
      ok := ConfirmContent(t);
    }

    /** Only a regular file that stays one is rewritten through its own inode. */
    predicate InPlace(t: Path)
      requires t in work.target
    {
      work.target[t].Regular? && t in work.current && work.current[t].Regular?
    }

    /** A blocked parent, or something at a path to be created. */
    method SpotRefused(t: Path) returns (refused: Option<ProblemKind>)
      requires Safe() && Pending(t)
      requires problems == [] ==> Awaiting(t)
      modifies disk`faulted
      ensures Safe() && (old(disk.faulted) || refused.Some? ==> disk.faulted)
    {
      if IsBlocked(Parent(t)) { return Some(WriteFailed); }
      if t !in work.creates { return None; }
      if problems == [] { NoLeafAboveUnderDirectory(disk.files, t); }
      var seen := disk.Lstat(t);
      if seen.Missing? { return None; }
      return Some(if seen.Found? || work.target[t].Symlink? then WriteFailed else ReadFailed);
    }

    /** Rewrite in place, or publish and note the parent for flushing. */
    method ReplaceLeaf(t: Path) returns (ok: bool)
      requires Safe() && Pending(t)
      requires problems == [] ==> Awaiting(t)
      modifies this`dirtied, disk, disk.gate, disk.gate.lease
      ensures Safe() && (old(disk.faulted) || !ok ==> disk.faulted)
      ensures ok ==> disk.files == old(disk.files)[t := Holds(work.target[t])]
      ensures OnlyOrphans(old(disk.files) - {t}, disk.files - {t}, work)
      ensures !ok && !InPlace(t) ==> OnlyOrphans(old(disk.files), disk.files, work)
    {
      if InPlace(t) {
        ok := RewriteInPlace(t);
      } else {
        ok := PublishAtomically(t);
        if ok { MarkDirty(t); }
      }
    }

    /** Steps 4 and 5, one target leaf that is missing or differs. */
    method WriteLeaf(t: Path)
      requires Safe() && Pending(t)
      requires problems == [] ==> Awaiting(t)
      modifies this`problems, this`dirtied, this`created, this`updated, disk, disk.gate, disk.gate.lease
      ensures Safe() && (old(disk.faulted) ==> disk.faulted) && old(problems) <= problems
      ensures problems == [] ==> disk.files == old(disk.files)[t := Holds(work.target[t])]
      ensures OnlyOrphans(old(disk.files) - {t}, disk.files - {t}, work)
      ensures problems != old(problems) && !InPlace(t) ==> OnlyOrphans(old(disk.files), disk.files, work)
      ensures problems == [] ==> created == old(created) + if t in work.creates then [t] else []
      ensures problems == [] ==> updated == old(updated) + if t in work.creates then [] else [t]
    {
      if t in heldBack { return; }
      var refused := SpotRefused(t);
      if refused.Some? {
        Fail(t, refused.value);
        return;
      }
      var ok := ReplaceLeaf(t);
      if !ok {
        Fail(t, WriteFailed);
        return;
      }
      if t in work.creates { created := created + [t]; } else { updated := updated + [t]; }
    }

    /** Flush one directory whose entries changed; one that is gone or untrusted is left to its parent. */
    method SyncDirectory(d: Path)
      requires Safe() && d in dirtied
      modifies this`problems, disk`faulted, disk.gate, disk.gate.lease
      ensures Safe() && (old(disk.faulted) ==> disk.faulted) && old(problems) <= problems
    {
      if d != "" && d !in dirs { return; }
      var ok := CheckAncestors(d + "/.cyclotomy-durability-barrier");
      var refused := false;
      if ok {
        ok := Authorize();
        refused := !ok;
      }
      var fails: bool := *;
      disk.faulted := disk.faulted || fails;
      if !ok || fails {
        var vanished: bool := *;
        if vanished && !refused { return; }
        Fail(if d == "" then "." else d, WriteFailed);
      }
    }
  }
}
