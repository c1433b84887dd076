/** The ordered phases of an apply, and what a whole run guarantees. */
module ApplyWorkspace {
  import opened Sequences
  import opened WorkspacePaths
  import opened RestorePlan
  import opened ApplyModel
  import opened ApplyRun

  function Stale(w: Work): set<Path> { w.current.Keys - w.target.Keys }

  function Fill(paths: set<Path>, target: map<Path, Leaf>): map<Path, Node> {
    map p | p in paths && p in target :: Holds(target[p])
  }

  function DirectoryNodes(paths: set<Path>): map<Path, Node> {
    map p | p in paths :: Directory
  }

  lemma ElementsPush<T>(s: seq<T>, x: T)
    ensures Elements(s + [x]) == Elements(s) + {x}
  { }

  /** Step 1: unlink every current entry the target does not hold. */
  method UnlinkStale(run: Apply)
    requires run.Safe() && run.disk.files == run.start && run.updated == run.deleted == []
    modifies run, run.disk, run.disk.gate, run.disk.gate.lease
    ensures run.Safe() && (old(run.disk.faulted) ==> run.disk.faulted) && old(run.problems) <= run.problems
    ensures run.problems == [] ==> run.disk.files == run.start - Stale(run.work)
    ensures run.problems == [] ==> Elements(run.updated) == Stale(run.work) * run.work.kept
    ensures run.problems == [] ==> Elements(run.deleted) == Stale(run.work) - run.work.kept
    ensures run.created == old(run.created) && run.dirs == old(run.dirs)
  {
    var left := Stale(run.work);
    ghost var done: set<Path> := {};
    while left != {}
      invariant left + done == Stale(run.work) && left !! done
      invariant run.Safe() && (old(run.disk.faulted) ==> run.disk.faulted) && old(run.problems) <= run.problems
      invariant run.problems == [] ==> run.disk.files == run.start - done
      invariant run.problems == [] ==> Elements(run.updated) == done * run.work.kept
      invariant run.problems == [] ==> Elements(run.deleted) == done - run.work.kept
      invariant run.created == old(run.created) && run.dirs == old(run.dirs)
      decreases left
    {
      var p :| p in left;
      UnlinkNext(run, p, done);
      left, done := left - {p}, done + {p};
    }
  }

  method UnlinkNext(run: Apply, p: Path, ghost done: set<Path>)
    requires run.Safe() && p in Stale(run.work) && p !in done
    requires run.problems == [] ==> run.disk.files == run.start - done
    requires run.problems == [] ==> Elements(run.updated) == done * run.work.kept
    requires run.problems == [] ==> Elements(run.deleted) == done - run.work.kept
    modifies run`problems, run`dirtied, run`updated, run`deleted, run.disk, run.disk.gate, run.disk.gate.lease
    ensures run.Safe() && (old(run.disk.faulted) ==> run.disk.faulted) && old(run.problems) <= run.problems
    ensures run.problems == [] ==> run.disk.files == run.start - (done + {p})
    ensures run.problems == [] ==> Elements(run.updated) == (done + {p}) * run.work.kept
    ensures run.problems == [] ==> Elements(run.deleted) == (done + {p}) - run.work.kept
  {
    ElementsPush(run.updated, p);
    ElementsPush(run.deleted, p);
    assert run.updated + [] == run.updated && run.deleted + [] == run.deleted;
    run.UnlinkEntry(p);
  }

  /** Step 2: prune directories of current entries the target no longer needs, deepest first. */
  method PruneDirectories(run: Apply)
    requires run.Safe() && DirectoriesOf(run.work.current) <= run.dirs
    modifies run`dirs, run`problems, run`dirtied, run.disk, run.disk.gate, run.disk.gate.lease
    ensures run.Safe() && (old(run.disk.faulted) ==> run.disk.faulted) && old(run.problems) <= run.problems
    ensures OnlyDirectoriesGo(old(run.disk.files), run.disk.files)
  {
    var left := DirectoriesOf(run.work.current) - run.work.kept;
    while left != {}
      invariant left <= run.dirs && (Noop(run.work) ==> left == {})
      invariant run.Safe() && (old(run.disk.faulted) ==> run.disk.faulted) && old(run.problems) <= run.problems
      invariant OnlyDirectoriesGo(old(run.disk.files), run.disk.files)
      decreases left
    {
      var p := Deepest(left);
      run.PruneDirectory(p);
      left := left - {p};
    }
  }

  /** Target leaves that a scanned directory stands in the way of. */
  method ReplacementRoots(run: Apply) returns (roots: set<Path>)
    requires Sound(run.work)
    ensures roots == set t | t in run.work.target && t !in run.work.current && t in run.dirs
  {
    var w := run.work;
    roots := {};
    var left := w.target.Keys;
    while left != {}
      invariant left <= w.target.Keys
      invariant roots == set t | t in w.target.Keys - left && t !in w.current && t in run.dirs
      decreases left
    {
      var t :| t in left;
      left := left - {t};
      if t !in w.current && t in run.dirs {
        var covered := SetHasAtOrAbove(t, roots);
        forall r | r in roots ensures !AtOrBelow(t, r) { BelowMeansAncestor(t, r); }
        if !covered { roots := roots + {t}; }
      }
    }
  }

  /** Whatever lies at or below a leaf to create is a directory. */
  ghost predicate NoLeafInTheWay(w: Work, files: Files) {
    forall t, q :: t in w.target && t !in w.current && q in files && AtOrBelow(q, t) ==> files[q] == Directory
  }

  /** Between steps 2 and 3: clear the way for leaves that replace directories. */
  method ClearReplacements(run: Apply)
    requires run.Safe()
    requires run.problems == [] ==> NoLeafInTheWay(run.work, run.disk.files)
    modifies run`dirs, run`problems, run`dirtied, run`blocked, run`heldBack, run.disk, run.disk.gate, run.disk.gate.lease
    ensures run.Safe() && (old(run.disk.faulted) ==> run.disk.faulted) && old(run.problems) <= run.problems
    ensures OnlyDirectoriesGo(old(run.disk.files), run.disk.files)
    ensures run.problems == [] ==> forall t :: t in run.work.target && t !in run.work.current ==> t !in run.disk.files
  {
    var w := run.work;
    var roots := ReplacementRoots(run);
    forall t | t in w.target && t !in w.current && t !in roots && run.problems == [] ensures t !in run.disk.files {
      TargetIsClear(w, t);
      assert AtOrBelow(t, t);
    }
    var left := roots;
    while left != {}
      invariant left <= roots && run.Safe() && (old(run.disk.faulted) ==> run.disk.faulted) && old(run.problems) <= run.problems
      invariant OnlyDirectoriesGo(old(run.disk.files), run.disk.files)
      invariant run.problems == [] ==> forall t :: t in w.target && t !in w.current && t !in left ==> t !in run.disk.files
      decreases left
    {
      var t :| t in left;
      run.ClearSubtree(t);
      assert AtOrBelow(t, t);
      left := left - {t};
    }
  }

  ghost predicate NoLeafAt(paths: set<Path>, files: Files) {
    forall p :: p in paths && p in files ==> files[p] == Directory
  }

  /** Shallowest first: the parent of the next directory is the root or already there. */
  lemma ParentIsMade(w: Work, k: Path, done: set<Path>, left: set<Path>, before: Files)
    requires Sound(w) && left + done == w.kept && k in left && forall p :: p in left ==> Depth(k) <= Depth(p)
    requires NoLeafAt(w.kept, before)
    ensures IsDirectory(before + DirectoryNodes(done), Parent(k))
    ensures k in before + DirectoryNodes(done) ==> (before + DirectoryNodes(done))[k] == Directory
  {
    KeptIsClear(w, k);
    if Parent(k) != "" {
      ParentIsNearest(k);
      AncestorsAreShallower(k, Parent(k));
      assert Parent(k) in done;
    }
  }

  /** Step 3: create the target's directories, shallowest first. */
  method EnsureDirectories(run: Apply)
    requires run.Safe()
    requires run.problems == [] ==> NoLeafAt(run.work.kept, run.disk.files)
    requires Noop(run.work) ==> AllDirectories(run.work.kept, run.start)
    modifies run`dirs, run`problems, run`dirtied, run`blocked, run`updated, run.disk, run.disk.gate, run.disk.gate.lease
    ensures run.Safe() && (old(run.disk.faulted) ==> run.disk.faulted) && old(run.problems) <= run.problems
    ensures run.problems == [] ==> run.disk.files == old(run.disk.files) + DirectoryNodes(run.work.kept)
    ensures run.problems == [] ==> run.updated == old(run.updated)
  {
    var w := run.work;
    var left := w.kept;
    ghost var done: set<Path> := {};
    while left != {}
      invariant left + done == w.kept
      invariant run.Safe() && (old(run.disk.faulted) ==> run.disk.faulted) && old(run.problems) <= run.problems
      invariant run.problems == [] ==> run.disk.files == old(run.disk.files) + DirectoryNodes(done)
      invariant run.problems == [] ==> run.updated == old(run.updated)
      decreases left
    {
      var k := Shallowest(left);
      EnsureNext(run, k, done, left, old(run.disk.files));
      left, done := left - {k}, done + {k};
    }
  }

  method EnsureNext(run: Apply, k: Path, ghost done: set<Path>, ghost left: set<Path>, ghost before: Files)
    requires run.Safe() && left + done == run.work.kept && k in left && forall p :: p in left ==> Depth(k) <= Depth(p)
    requires run.problems == [] ==> NoLeafAt(run.work.kept, before) && run.disk.files == before + DirectoryNodes(done)
    requires Noop(run.work) ==> AllDirectories(run.work.kept, run.start)
    modifies run`dirs, run`problems, run`dirtied, run`blocked, run`updated, run.disk, run.disk.gate, run.disk.gate.lease
    ensures run.Safe() && (old(run.disk.faulted) ==> run.disk.faulted) && old(run.problems) <= run.problems
    ensures run.problems == [] ==> run.disk.files == before + DirectoryNodes(done + {k})
    ensures run.problems == [] ==> run.updated == old(run.updated)
  {
    ghost var w := run.work;
    assert k in w.kept;
    if run.problems == [] { ParentIsMade(w, k, done, left, before); }
    MadeStep(before, done, k);
    run.EnsureDirectory(k);
  }

  lemma MadeStep(before: Files, done: set<Path>, k: Path)
    ensures (before + DirectoryNodes(done))[k := Directory] == before + DirectoryNodes(done + {k})
  { }

  ghost predicate AllDirectories(paths: set<Path>, files: Files) {
    forall p :: p in paths ==> p in files && files[p] == Directory
  }

  /** Writing some target leaves leaves the others' destinations as they were. */
  lemma OthersStayUntouched(w: Work, before: Files, paths: set<Path>, other: Path)
    requires Sound(w) && paths <= w.target.Keys && other in w.target && other !in paths && Untouched(w, before, other)
    ensures Untouched(w, before + Fill(paths, w.target), other)
  {
    ParentIsNearest(other);
    assert Parent(other) != "" ==> Parent(other) in Ancestors(other);
  }

  /** Steps 4 and 5 alike: write every listed leaf. */
  method WriteLeaves(run: Apply, paths: set<Path>)
    requires run.Safe() && forall t :: t in paths ==> run.Pending(t)
    requires run.problems == [] ==> forall t :: t in paths ==> run.Awaiting(t)
    modifies run`problems, run`dirtied, run`created, run`updated, run.disk, run.disk.gate, run.disk.gate.lease
    ensures run.Safe() && (old(run.disk.faulted) ==> run.disk.faulted) && old(run.problems) <= run.problems
    ensures run.problems == [] ==> run.disk.files == old(run.disk.files) + Fill(paths, run.work.target)
    ensures run.problems == [] ==> Elements(run.created) == old(Elements(run.created)) + paths * run.work.creates
    ensures run.problems == [] ==> Elements(run.updated) == old(Elements(run.updated)) + (paths - run.work.creates)
  {
    var left := paths;
    ghost var done: set<Path> := {};
    while left != {}
      invariant left + done == paths && left !! done
      invariant run.Safe() && (old(run.disk.faulted) ==> run.disk.faulted) && old(run.problems) <= run.problems
      invariant run.problems == [] ==> Written(run, paths, left, done, old(run.disk.files), old(Elements(run.created)), old(Elements(run.updated)))
      decreases left
    {
      var t :| t in left;
      WriteNext(run, t, paths, left, done, old(run.disk.files), old(Elements(run.created)), old(Elements(run.updated)));
      left, done := left - {t}, done + {t};
    }
  }

  /** Where a problem-free run stands between two writes. */
  ghost predicate Written(run: Apply, paths: set<Path>, left: set<Path>, done: set<Path>,
                          before: Files, created: set<Path>, updated: set<Path>)
    reads run, run.disk
  {
    && (forall t :: t in left ==> run.Awaiting(t))
    && run.disk.files == before + Fill(done, run.work.target)
    && Elements(run.created) == created + done * run.work.creates
    && Elements(run.updated) == updated + (done - run.work.creates)
  }

  lemma FillStep(before: Files, done: set<Path>, target: map<Path, Leaf>, t: Path)
    requires t in target
    ensures (before + Fill(done, target))[t := Holds(target[t])] == before + Fill(done + {t}, target)
  { }

  /** Writing one leaf leaves the other pending ones as they were. */
  lemma OthersAwait(run: Apply, t: Path, left: set<Path>)
    requires Sound(run.work) && t in run.work.target && left <= run.work.target.Keys
    requires forall u :: u in left ==> run.Awaiting(u)
    ensures forall u :: u in left && u != t ==> Untouched(run.work, run.disk.files[t := Holds(run.work.target[t])], u)
  {
    FillStep(run.disk.files, {}, run.work.target, t);
    forall u | u in left && u != t ensures Untouched(run.work, run.disk.files[t := Holds(run.work.target[t])], u) {
      assert run.Awaiting(u);
      OthersStayUntouched(run.work, run.disk.files, {t}, u);
    }
  }

  method WriteNext(run: Apply, t: Path, ghost paths: set<Path>, ghost left: set<Path>, ghost done: set<Path>,
                   ghost before: Files, ghost created: set<Path>, ghost updated: set<Path>)
    requires run.Safe() && run.Pending(t) && left <= run.work.target.Keys && t in left && t !in done
    requires run.problems == [] ==> Written(run, paths, left, done, before, created, updated)
    modifies run`problems, run`dirtied, run`created, run`updated, run.disk, run.disk.gate, run.disk.gate.lease
    ensures run.Safe() && (old(run.disk.faulted) ==> run.disk.faulted) && old(run.problems) <= run.problems
    ensures run.problems == [] ==> Written(run, paths, left - {t}, done + {t}, before, created, updated)
  {
    var w := run.work;
    ElementsPush(run.created, t);
    ElementsPush(run.updated, t);
    assert run.updated + [] == run.updated && run.created + [] == run.created;
    if run.problems == [] { OthersAwait(run, t, left); }
    FillStep(before, done, w.target, t);
    run.WriteLeaf(t);
  }

  /** Flush every directory that gained or lost an entry. */
  method SyncDirectories(run: Apply)
    requires run.Safe()
    modifies run`problems, run.disk`faulted, run.disk.gate, run.disk.gate.lease
    ensures run.Safe() && (old(run.disk.faulted) ==> run.disk.faulted) && old(run.problems) <= run.problems
  {
    var left := run.dirtied;
    while left != {}
      invariant left <= run.dirtied
      invariant run.Safe() && (old(run.disk.faulted) ==> run.disk.faulted) && old(run.problems) <= run.problems
      decreases left
    {
      var d :| d in left;
      run.SyncDirectory(d);
      left := left - {d};
    }
  }

  /** Between unlinking and writing: the managed leaves are the current ones at target paths. */
  ghost predicate Survivors(w: Work, files: Files) {
    && (forall p :: p in files && files[p] != Directory ==> Under(p, w.excluded) || (p in w.current && p in w.target))
    && (forall p :: p in w.current && p in w.target ==> p in files && files[p] == Holds(w.current[p]))
  }

  lemma SurvivorsAfterUnlink(start: Files, w: Work, dirs: set<Path>)
    requires Truthful(start, w, dirs) && Complete(start, w, dirs)
    ensures Survivors(w, start - Stale(w))
  { }

  lemma SurvivorsKeepWithoutDirectories(w: Work, before: Files, after: Files)
    requires Survivors(w, before) && OnlyDirectoriesGo(before, after)
    ensures Survivors(w, after)
  { }

  lemma SurvivorsLeaveTheWay(w: Work, files: Files)
    requires Sound(w) && Survivors(w, files)
    ensures NoLeafInTheWay(w, files) && NoLeafAt(w.kept, files)
  {
    forall t, q | t in w.target && t !in w.current && q in files && AtOrBelow(q, t) ensures files[q] == Directory {
      NotUnderBelowTarget(w, t, q);
      BelowMeansAncestor(q, t);
    }
    forall k | k in w.kept && k in files ensures files[k] == Directory { KeptIsClear(w, k); }
  }

  lemma SurvivorsKeepWithDirectories(w: Work, files: Files)
    requires Sound(w) && Survivors(w, files)
    ensures Survivors(w, files + DirectoryNodes(w.kept))
  {
    forall p | p in w.current && p in w.target ensures p !in w.kept {
      if p in w.kept { KeptIsClear(w, p); }
    }
  }

  /** With directories made and the way cleared, every destination is as expected. */
  lemma DestinationUntouched(w: Work, files: Files, t: Path)
    requires Sound(w) && t in w.target && Survivors(w, files)
    requires forall p :: p in w.target && p !in w.current ==> p !in files
    ensures Untouched(w, files + DirectoryNodes(w.kept), t)
  {
    ParentIsNearest(t);
    if t in w.kept { KeptIsClear(w, t); }
  }

  /** The leaves to write, by kind. */
  function PendingLeaves(w: Work, regular: bool): set<Path> {
    set t | t in w.target && (t in w.creates || t in w.changes) && w.target[t].Regular? == regular
  }

  lemma WrittenMeansTarget(w: Work, files: Files)
    requires Sound(w) && Survivors(w, files)
    ensures ManagedLeaves(files + Fill(PendingLeaves(w, true), w.target) + Fill(PendingLeaves(w, false), w.target), w.excluded)
         == AsNodes(w.target)
  {
    var final := files + Fill(PendingLeaves(w, true), w.target) + Fill(PendingLeaves(w, false), w.target);
    var m := ManagedLeaves(final, w.excluded);
    forall t | t in w.target ensures t in m && m[t] == Holds(w.target[t]) { TargetIsClear(w, t); }
    forall p | p in m ensures p in w.target { }
  }

  lemma NoopHasDirectories(start: Files, w: Work)
    requires Sound(w) && Noop(w) && Tree(start) && EntriesTrue(start, w)
    ensures AllDirectories(w.kept, start)
  {
    forall k | k in w.kept ensures k in start && start[k] == Directory {
      var t, a :| t in w.target && a in Ancestors(t) && a == k;
    }
  }

  /** With nothing in the way, making the target's directories leaves every destination as it was. */
  lemma WayIsClear(w: Work, before: Files, files: Files)
    requires Sound(w) && Survivors(w, before) && OnlyDirectoriesGo(before, files)
    requires forall t :: t in w.target && t !in w.current ==> t !in files
    ensures NoLeafAt(w.kept, files) && Survivors(w, files + DirectoryNodes(w.kept))
    ensures forall t :: t in w.target ==> Untouched(w, files + DirectoryNodes(w.kept), t)
  {
    SurvivorsKeepWithoutDirectories(w, before, files);
    SurvivorsLeaveTheWay(w, files);
    SurvivorsKeepWithDirectories(w, files);
    forall t | t in w.target ensures Untouched(w, files + DirectoryNodes(w.kept), t) { DestinationUntouched(w, files, t); }
  }

  /** Steps 1 and 2: unlink what the target lacks, prune, and clear replaced directories. */
  method ClearWay(run: Apply)
    requires run.Safe() && run.disk.files == run.start && run.created == run.updated == run.deleted == []
    requires run.problems == [] ==> Complete(run.start, run.work, run.dirs)
    requires DirectoriesOf(run.work.current) <= run.dirs
    modifies run, run.disk, run.disk.gate, run.disk.gate.lease
    ensures run.Safe() && (old(run.disk.faulted) ==> run.disk.faulted) && old(run.problems) <= run.problems
    ensures run.problems == [] ==> WayCleared(run.work, run.disk.files)
    ensures run.problems == [] ==> Elements(run.updated) == Stale(run.work) * run.work.kept
    ensures run.problems == [] ==> Elements(run.deleted) == Stale(run.work) - run.work.kept
    ensures run.created == []
  {
    ghost var w := run.work;
    if run.problems == [] { SurvivorsAfterUnlink(run.start, w, run.dirs); }
    UnlinkStale(run);
    ghost var first := run.disk.files;
    PruneDirectories(run);
    ghost var second := run.disk.files;
    if run.problems == [] {
      SurvivorsKeepWithoutDirectories(w, first, second);
      SurvivorsLeaveTheWay(w, second);
    }
    ClearReplacements(run);
    if run.problems == [] { WayIsClear(w, second, run.disk.files); }
  }

  /** Every destination is as the scan saw it, and nothing else is left but directories. */
  ghost predicate WayReady(w: Work, files: Files) {
    Survivors(w, files) && forall t :: t in w.target ==> Untouched(w, files, t)
  }

  /** Only directories are missing before the target's leaves can be written. */
  ghost predicate WayCleared(w: Work, files: Files) {
    NoLeafAt(w.kept, files) && WayReady(w, files + DirectoryNodes(w.kept))
  }

  /** Steps 1 to 3: what is left is directories and the current leaves at target paths. */
  method MakeWay(run: Apply)
    requires run.Safe() && run.disk.files == run.start && run.created == run.updated == run.deleted == []
    requires run.problems == [] ==> Complete(run.start, run.work, run.dirs)
    requires DirectoriesOf(run.work.current) <= run.dirs
    modifies run, run.disk, run.disk.gate, run.disk.gate.lease
    ensures run.Safe() && (old(run.disk.faulted) ==> run.disk.faulted) && old(run.problems) <= run.problems
    ensures run.problems == [] ==> WayReady(run.work, run.disk.files)
    ensures run.problems == [] ==> Elements(run.updated) == Stale(run.work) * run.work.kept
    ensures run.problems == [] ==> Elements(run.deleted) == Stale(run.work) - run.work.kept
    ensures run.created == []
  {
    ghost var w := run.work;
    if Noop(w) { NoopHasDirectories(run.start, w); }
    ClearWay(run);
    EnsureDirectories(run);
  }

  /** Steps 4 and 5: regular files first, then symbolic links. */
  method WriteTarget(run: Apply)
    requires run.Safe()
    requires run.problems == [] ==> WayReady(run.work, run.disk.files)
    modifies run`problems, run`dirtied, run`created, run`updated, run.disk, run.disk.gate, run.disk.gate.lease
    ensures run.Safe() && (old(run.disk.faulted) ==> run.disk.faulted) && old(run.problems) <= run.problems
    ensures run.problems == [] ==> ManagedLeaves(run.disk.files, run.work.excluded) == AsNodes(run.work.target)
    ensures run.problems == [] ==> Elements(run.created) == old(Elements(run.created)) + Created(run.work.current, run.work.target)
    ensures run.problems == [] ==> Elements(run.updated) == old(Elements(run.updated)) + Modified(run.work.current, run.work.target)
  {
    var w := run.work;
    var regular, links := PendingLeaves(w, true), PendingLeaves(w, false);
    ghost var before := run.disk.files;
    if run.problems == [] {
      WrittenMeansTarget(w, before);
      forall t | t in links ensures Untouched(w, before + Fill(regular, w.target), t) { OthersStayUntouched(w, before, regular, t); }
    }
    PendingByKind(w);
    WriteLeaves(run, regular);
    WriteLeaves(run, links);
  }

  lemma PendingByKind(w: Work)
    requires Sound(w)
    ensures (PendingLeaves(w, true) + PendingLeaves(w, false)) * w.creates == Created(w.current, w.target)
    ensures (PendingLeaves(w, true) + PendingLeaves(w, false)) - w.creates == Modified(w.current, w.target)
  { }

  lemma NothingBefore(none: seq<Path>, some: set<Path>)
    requires none == []
    ensures Elements(none) + some == some
  { }

  /** Steps 4 and 5, then the flushes. */
  method WriteAndSync(run: Apply)
    requires run.Safe()
    requires run.problems == [] ==> WayReady(run.work, run.disk.files)
    modifies run`problems, run`dirtied, run`created, run`updated, run.disk, run.disk.gate, run.disk.gate.lease
    ensures run.Safe() && (old(run.disk.faulted) ==> run.disk.faulted) && old(run.problems) <= run.problems
    ensures run.problems == [] ==> ManagedLeaves(run.disk.files, run.work.excluded) == AsNodes(run.work.target)
    ensures run.problems == [] ==> Elements(run.created) == old(Elements(run.created)) + Created(run.work.current, run.work.target)
    ensures run.problems == [] ==> Elements(run.updated) == old(Elements(run.updated)) + Modified(run.work.current, run.work.target)
  {
    WriteTarget(run);
    SyncDirectories(run);
  }

  /** All phases in order. A run without problems has made the managed leaves equal the target. */
  method RunPhases(run: Apply)
    requires run.Safe() && run.disk.files == run.start && run.created == run.updated == run.deleted == []
    requires run.problems == [] ==> Complete(run.start, run.work, run.dirs)
    requires DirectoriesOf(run.work.current) <= run.dirs
    modifies run, run.disk, run.disk.gate, run.disk.gate.lease
    ensures run.Safe() && (old(run.disk.faulted) ==> run.disk.faulted) && old(run.problems) <= run.problems
    ensures run.problems == [] ==> ManagedLeaves(run.disk.files, run.work.excluded) == AsNodes(run.work.target)
    ensures run.problems == [] ==> Elements(run.created) == Created(run.work.current, run.work.target)
    ensures run.problems == [] ==> Elements(run.deleted) == Stale(run.work) - run.work.kept
    ensures run.problems == [] ==> Elements(run.updated) == Stale(run.work) * run.work.kept + Modified(run.work.current, run.work.target)
  {
    MakeWay(run);
    NothingBefore(run.created, Created(run.work.current, run.work.target));
    WriteAndSync(run);
  }
}
