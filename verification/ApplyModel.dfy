/** What an apply run starts from, and what it may never disturb. */
module ApplyModel {
  import opened WorkspacePaths
  import opened RestorePlan

  datatype Node = Directory | Holds(leaf: Leaf) | Special

  type Files = map<Path, Node>

  /** Every path hangs below directories; the workspace root itself is implicit. */
  ghost predicate Tree(files: Files) {
    && (forall p :: p in files ==> Canonical(p))
    && (forall p, a :: p in files && a in Ancestors(p) ==> a in files && files[a] == Directory)
  }

  ghost predicate HasChild(files: Files, dir: Path) {
    exists q :: q in files && dir in Ancestors(q)
  }

  predicate IsDirectory(files: Files, dir: Path) {
    dir == "" || (dir in files && files[dir] == Directory)
  }

  ghost predicate LeafAbove(files: Files, p: Path) {
    exists a :: a in Ancestors(p) && a in files && files[a] != Directory
  }

  lemma RemovalKeepsTree(files: Files, p: Path)
    requires Tree(files) && p in files && (files[p] == Directory ==> !HasChild(files, p))
    ensures Tree(files - {p})
  {
    forall q, a | q in files - {p} && a in Ancestors(q) ensures a in files - {p} && files[a] == Directory {
      assert a in files && files[a] == Directory;
      assert p in Ancestors(q) ==> HasChild(files, p);
    }
  }

  lemma AdditionKeepsTree(files: Files, p: Path, node: Node)
    requires Tree(files) && Canonical(p) && IsDirectory(files, Parent(p))
    requires p !in files || files[p] != Directory
    ensures Tree(files[p := node])
  {
    ParentIsNearest(p);
    var after := files[p := node];
    forall q, a | q in after && a in Ancestors(q) ensures a in after && after[a] == Directory {
      if q == p {
        if Parent(p) != "" && a != Parent(p) { assert a in Ancestors(Parent(p)); }
        if p in Ancestors(p) { AncestorsNest(p, p); }
      } else {
        assert a in files && files[a] == Directory;
      }
    }
  }

  /** At or below an excluded path. */
  ghost predicate Under(p: Path, excluded: set<Path>) {
    exists e :: e in excluded && AtOrBelow(p, e)
  }

  /** The indexed plan one run carries out. */
  datatype Work = Work(target: map<Path, Leaf>, current: map<Path, Leaf>, excluded: set<Path>, kept: set<Path>,
                       creates: set<Path>, deletes: set<Path>, changes: set<Path>)

  ghost predicate PrefixFree(target: map<Path, Leaf>) {
    forall t, a :: t in target && a in Ancestors(t) ==> a !in target
  }

  ghost predicate Clear(target: map<Path, Leaf>, excluded: set<Path>) {
    forall t, e :: t in target && e in excluded ==> !Comparable(e, t)
  }

  function DirectoriesOf(target: map<Path, Leaf>): set<Path> {
    set t, a | t in target && a in Ancestors(t) :: a
  }

  ghost predicate Sound(w: Work) {
    && (forall t :: t in w.target ==> Canonical(t))
    && PrefixFree(w.target) && Clear(w.target, w.excluded) && w.kept == DirectoriesOf(w.target)
    && (forall t :: t in w.target ==> (t in w.creates <==> t !in w.current))
    && (forall t :: t in w.target ==> (t in w.changes <==> t in w.current && w.current[t] != w.target[t]))
    && w.current.Keys - w.target.Keys <= w.deletes
  }

  predicate Noop(w: Work) { w.current == w.target }

  /** The scan told the truth about what it lists. */
  ghost predicate Truthful(start: Files, w: Work, dirs: set<Path>) {
    EntriesTrue(start, w) && ObservedDirectories(start, w, dirs)
  }

  ghost predicate EntriesTrue(start: Files, w: Work) {
    && w.excluded <= start.Keys
    && (forall c :: c in w.current ==> c in start && start[c] == Holds(w.current[c]) && !Under(c, w.excluded))
  }

  ghost predicate ObservedDirectories(files: Files, w: Work, dirs: set<Path>) {
    forall d :: d in dirs ==> d in files && files[d] == Directory && !Under(d, w.excluded)
  }

  ghost predicate AllObserved(files: Files, w: Work, dirs: set<Path>) {
    forall p :: p in files && files[p] == Directory ==> p in dirs || Under(p, w.excluded)
  }

  /** The scan missed nothing outside the excluded paths. */
  ghost predicate Complete(start: Files, w: Work, dirs: set<Path>) {
    && AllObserved(start, w, dirs)
    && (forall p :: p in start && start[p] != Directory ==> p in w.current || Under(p, w.excluded))
  }

  /** Nothing at or below an excluded path was added, removed or changed. */
  ghost predicate Intact(start: Files, files: Files, w: Work) {
    forall p :: Under(p, w.excluded) ==> SameAt(start, files, p)
  }

  ghost predicate DiffersOnlyAt(before: Files, after: Files, where: set<Path>) {
    forall p :: p !in where ==> SameAt(before, after, p)
  }

  lemma IntactElsewhere(start: Files, before: Files, after: Files, w: Work, where: set<Path>)
    requires Intact(start, before, w) && DiffersOnlyAt(before, after, where)
    requires forall p :: p in where ==> !Under(p, w.excluded)
    ensures Intact(start, after, w)
  {
    forall p | Under(p, w.excluded) ensures SameAt(start, after, p) {
      assert SameAt(start, before, p) && SameAt(before, after, p);
    }
  }

  /** Target paths, their directories and their new siblings all lie outside the excluded paths. */
  lemma TargetIsClear(w: Work, t: Path)
    requires Sound(w) && t in w.target
    ensures !Under(t, w.excluded)
  {
    if Under(t, w.excluded) {
      var e :| e in w.excluded && AtOrBelow(t, e);
      assert Comparable(e, t);
    }
  }

  lemma KeptIsClear(w: Work, k: Path)
    requires Sound(w) && k in w.kept
    ensures !Under(k, w.excluded) && k !in w.target && Canonical(k)
    ensures Parent(k) == "" || Parent(k) in w.kept
  {
    var t, a :| t in w.target && a in Ancestors(t) && a == k;
    var i :| 0 <= i < |t| && t[i] == '/' && t[..i] == k;
    AncestorsNest(t, k);
    ParentIsNearest(k);
    if Under(k, w.excluded) {
      var e :| e in w.excluded && AtOrBelow(k, e);
      BelowMeansAncestor(k, e);
      BelowMeansAncestor(t, e);
      assert Comparable(e, t);
    }
    if Parent(k) != "" { assert Parent(k) in Ancestors(t); }
  }

  lemma SiblingIsClear(start: Files, files: Files, w: Work, t: Path, sibling: Path)
    requires Sound(w) && t in w.target && Canonical(sibling) && Parent(sibling) == Parent(t) && sibling !in files
    requires Intact(start, files, w) && w.excluded <= start.Keys
    ensures !Under(sibling, w.excluded)
  {
    if Under(sibling, w.excluded) {
      var e :| e in w.excluded && AtOrBelow(sibling, e);
      BelowMeansAncestor(e, e);
      assert Under(e, w.excluded) && SameAt(start, files, e);
      BelowMeansAncestor(sibling, e);
      ParentIsNearest(sibling);
      ParentIsNearest(t);
      BelowMeansAncestor(t, e);
    }
  }

  /** The leaves a scan of these files would list. */
  ghost function ManagedLeaves(files: Files, excluded: set<Path>): map<Path, Node> {
    map p | p in files && files[p] != Directory && !Under(p, excluded) :: files[p]
  }

  ghost function AsNodes(target: map<Path, Leaf>): map<Path, Node> {
    map t | t in target :: Holds(target[t])
  }

  /** A truthful, complete scan lists exactly the managed leaves. */
  lemma ScanListsManagedLeaves(start: Files, w: Work, dirs: set<Path>)
    requires Truthful(start, w, dirs) && Complete(start, w, dirs)
    ensures ManagedLeaves(start, w.excluded) == AsNodes(w.current)
  {
    var m := ManagedLeaves(start, w.excluded);
    forall p ensures p in m <==> p in w.current { }
  }
}
