/** The logical restore plan: what turns the current leaves into the target's. */
module RestorePlan {
  import opened Wrappers
  import opened Sequences
  import opened WorkspacePaths

  /** Content ids name content, so equal ids mean equal bytes. */
  type Oid = nat

  datatype Leaf = Regular(oid: Oid) | Symlink(text: string)

  datatype Entry = Entry(path: Path, leaf: Leaf)

  datatype OccupancyKind = Folder | File | Link | Other

  datatype Occupancy = Occupancy(path: Path, kind: OccupancyKind)

  datatype Problem = Scanned(path: Path, detail: string) | ScopeBlocker(path: Path, targetPath: Path) | ScopeMismatch

  datatype Blocker = Blocker(path: Path, targetPath: Path)

  type Scope = seq<string>

  datatype Observed = Observed(entries: seq<Entry>, excluded: seq<Occupancy>, scope: Scope, problems: seq<Problem>)

  /** Only a comparison target carries expected occupancies. */
  datatype Manifest = Manifest(entries: seq<Entry>, scope: Scope, occupancies: Option<seq<Occupancy>>)

  datatype Plan = Plan(created: seq<Path>, deleted: seq<Path>, modified: seq<Path>, required: set<Oid>,
                       blockers: seq<Blocker>, occupancyChanged: seq<Path>, problems: seq<Problem>)

  /** Canonical paths are not empty and do not begin with a slash. */
  predicate Canonical(path: Path) {
    path != "" && path[0] != '/'
  }

  predicate Paths(entries: seq<Entry>) {
    && (forall i :: 0 <= i < |entries| ==> Canonical(entries[i].path))
    && (forall i, j :: 0 <= i < j < |entries| ==> entries[i].path != entries[j].path)
  }

  /** The leaf each path holds. */
  function Leaves(entries: seq<Entry>): map<Path, Leaf> {
    if entries == [] then map[]
    else var last := entries[|entries| - 1]; Leaves(entries[..|entries| - 1])[last.path := last.leaf]
  }

  lemma {:induction false} LeavesMembers(entries: seq<Entry>)
    requires Paths(entries)
    ensures forall p :: p in Leaves(entries) <==> exists i :: 0 <= i < |entries| && entries[i].path == p
    ensures forall i :: 0 <= i < |entries| ==> entries[i].path in Leaves(entries) && Leaves(entries)[entries[i].path] == entries[i].leaf
  {
    if entries != [] {
      var front := entries[..|entries| - 1];
      LeavesMembers(front);
      forall i | 0 <= i < |front| ensures entries[i].path in Leaves(entries) && Leaves(entries)[entries[i].path] == entries[i].leaf {
        assert front[i] == entries[i];
      }
      forall p | p in Leaves(entries) ensures exists i :: 0 <= i < |entries| && entries[i].path == p {
        if p in Leaves(front) {
          var i :| 0 <= i < |front| && front[i].path == p;
          assert entries[i].path == p;
        } else {
          assert entries[|entries| - 1].path == p;
        }
      }
    }
  }

  function Created(c: map<Path, Leaf>, t: map<Path, Leaf>): set<Path> { t.Keys - c.Keys }

  function Deleted(c: map<Path, Leaf>, t: map<Path, Leaf>): set<Path> { c.Keys - t.Keys }

  function Modified(c: map<Path, Leaf>, t: map<Path, Leaf>): set<Path> {
    set p | p in c && p in t && c[p] != t[p]
  }

  method IndexLeaves(entries: seq<Entry>) returns (r: map<Path, Leaf>)
    ensures r == Leaves(entries)
  {
    r := map[];
    for i := 0 to |entries|
      invariant r == Leaves(entries[..i])
    {
      r := r[entries[i].path := entries[i].leaf];
      assert entries[..i + 1][..i] == entries[..i];
    }
    assert entries[..|entries|] == entries;
  }

  /** The last slash no later than `from`; a negative position is clamped to the first character. */
  function LastSlashFrom(path: Path, from: int): (r: int)
    requires from < |path| && path != ""
    ensures -1 <= r <= (if from < 0 then 0 else from)
    ensures r >= 0 ==> path[r] == '/'
    ensures forall i :: r < i <= from ==> path[i] != '/'
  {
    LastSlash(path[..(if from < 0 then 0 else from) + 1])
  }

  /** A path's nearest strict ancestor among the target's leaves. */
  method NearestAncestor(path: Path, target: map<Path, Leaf>) returns (r: Option<Path>)
    requires Canonical(path)
    ensures r.Some? ==> r.value in target && r.value in Ancestors(path)
                        && forall a :: a in target && a in Ancestors(path) ==> |a| <= |r.value|
    ensures r.None? ==> Ancestors(path) !! target.Keys
  {
    var separator := LastSlash(path);
    while separator != -1
      invariant -1 <= separator < |path|
      invariant separator >= 0 ==> path[separator] == '/'
      invariant forall a :: a in target && a in Ancestors(path) ==> |a| <= separator
      decreases separator
    {
      var ancestor := path[..separator];
      if ancestor in target { return Some(ancestor); }
      var next := LastSlashFrom(path, separator - 1);
      forall a | a in target && a in Ancestors(path) ensures |a| <= next {
        var i :| 0 <= i < |path| && path[i] == '/' && path[..i] == a;
      }
      separator := next;
    }
    return None;
  }

  method NearestAtOrAbove(path: Path, target: map<Path, Leaf>) returns (r: Option<Path>)
    requires Canonical(path)
    ensures r.Some? ==> r.value in target && AtOrBelow(path, r.value)
                        && forall a :: a in target && AtOrBelow(path, a) ==> |a| <= |r.value|
    ensures r.None? ==> forall a :: a in target ==> !AtOrBelow(path, a)
  {
    forall a ensures AtOrBelow(path, a) <==> a == path || a in Ancestors(path) { BelowMeansAncestor(path, a); }
    if path in target { return Some(path); }
    r := NearestAncestor(path, target);
  }

  function ImplicitDirectories(entries: seq<Entry>): set<Path> {
    set i, a | 0 <= i < |entries| && a in Ancestors(entries[i].path) :: a
  }

  method CollectDirectories(entries: seq<Entry>) returns (r: set<Path>)
    ensures r == ImplicitDirectories(entries)
  {
    r := {};
    for i := 0 to |entries|
      invariant r == set j, a | 0 <= j < i && a in Ancestors(entries[j].path) :: a
    {
      r := AddAncestors(entries[i].path, r);
    }
  }

  /** Whether one path is the other or lies below it. */
  predicate Comparable(a: Path, b: Path) { AtOrBelow(a, b) || AtOrBelow(b, a) }

  ghost predicate NoneComparable(excluded: seq<Occupancy>, target: map<Path, Leaf>) {
    forall o, t :: o in excluded && t in target ==> !Comparable(o.path, t)
  }

  ghost predicate BlocksSome(e: Path, target: map<Path, Leaf>) {
    exists t :: t in target && Comparable(e, t)
  }

  /** A blocker names the target leaf the excluded path is at or below, else itself as a directory. */
  ghost predicate Names(b: Blocker, target: map<Path, Leaf>) {
    if exists t :: t in target && AtOrBelow(b.path, t) then
      b.targetPath in target && AtOrBelow(b.path, b.targetPath)
      && forall a :: a in target && AtOrBelow(b.path, a) ==> |a| <= |b.targetPath|
    else b.targetPath == b.path && BlocksSome(b.path, target)
  }

  /** An excluded path collides with the target exactly when some target leaf is comparable to it. */
  method CheckOccupancy(path: Path, target: map<Path, Leaf>, directories: set<Path>) returns (r: Option<Path>)
    requires Canonical(path)
    requires forall d :: d in directories <==> exists t :: t in target && d in Ancestors(t)
    ensures r.Some? <==> BlocksSome(path, target)
    ensures r.Some? ==> Names(Blocker(path, r.value), target)
  {
    r := NearestAtOrAbove(path, target);
    forall t ensures AtOrBelow(t, path) <==> t == path || path in Ancestors(t) { BelowMeansAncestor(t, path); }
    if r.Some? {
      assert Comparable(path, r.value);
    } else if path in directories {
      var t :| t in target && path in Ancestors(t);
      assert Comparable(path, t);
      r := Some(path);
    }
  }

  method FindBlockers(excluded: seq<Occupancy>, target: map<Path, Leaf>, directories: set<Path>)
    returns (r: seq<Blocker>)
    requires forall i :: 0 <= i < |excluded| ==> Canonical(excluded[i].path)
    requires forall d :: d in directories <==> exists t :: t in target && d in Ancestors(t)
    ensures NoDuplicates(r) && forall b :: b in r ==> Names(b, target)
    ensures (set b | b in r :: b.path) == set o | o in excluded && BlocksSome(o.path, target) :: o.path
  {
    r := [];
    for i := 0 to |excluded|
      invariant NoDuplicates(r) && forall b :: b in r ==> Names(b, target)
      invariant (set b | b in r :: b.path) == set o | o in excluded[..i] && BlocksSome(o.path, target) :: o.path
    {
      var o := excluded[i];
      var found := CheckOccupancy(o.path, target, directories);
      assert excluded[..i + 1] == excluded[..i] + [o];
      ghost var before := r;
      if found.Some? {
        var b := Blocker(o.path, found.value);
        if b !in r { r := r + [b]; }
        assert b in r && (set x | x in r :: x.path) == (set x | x in before :: x.path) + {b.path};
      }
    }
    assert excluded[..|excluded|] == excluded;
  }

  /** Entries to delete, and entries present on both sides with different content. */
  method DiffCurrent(entries: seq<Entry>, target: map<Path, Leaf>, scopeMatches: bool)
    returns (deleted: seq<Path>, modified: seq<Path>)
    requires Paths(entries)
    ensures NoDuplicates(deleted) && NoDuplicates(modified)
    ensures Elements(deleted) == if scopeMatches then Deleted(Leaves(entries), target) else {}
    ensures Elements(modified) == Modified(Leaves(entries), target)
  {
    deleted, modified := [], [];
    for i := 0 to |entries|
      invariant NoDuplicates(deleted) && NoDuplicates(modified)
      invariant forall p :: p in deleted <==> scopeMatches && p !in target && exists j :: 0 <= j < i && entries[j].path == p
      invariant forall p :: p in modified <==>
        exists j :: 0 <= j < i && entries[j].path == p && p in target && target[p] != entries[j].leaf
    {
      var e := entries[i];
      if e.path !in target {
        if scopeMatches { deleted := deleted + [e.path]; }
      } else {
        match e.leaf
        case Regular(oid) =>
          if !target[e.path].Regular? || target[e.path].oid != oid { modified := modified + [e.path]; }
        case Symlink(text) =>
          if !target[e.path].Symlink? || target[e.path].text != text { modified := modified + [e.path]; }
      }
    }
    LeavesMembers(entries);
  }

  /** What differing targets need is found at their entries. */
  lemma RequiredListed(entries: seq<Entry>, current: map<Path, Leaf>)
    requires Paths(entries)
    ensures Required(current, Leaves(entries)) == set j | 0 <= j < |entries| && Needed(entries[j], current) :: entries[j].leaf.oid
  {
    LeavesMembers(entries);
    var t := Leaves(entries);
    forall oid | oid in Required(current, t)
      ensures exists j :: 0 <= j < |entries| && Needed(entries[j], current) && entries[j].leaf.oid == oid
    {
      var p :| p in t && t[p] == Regular(oid) && !(p in current && current[p] == t[p]);
      var j :| 0 <= j < |entries| && entries[j].path == p;
      assert Needed(entries[j], current);
    }
  }

  /** Missing target paths, and the blobs of differing regular targets. */
  method DiffTarget(entries: seq<Entry>, current: map<Path, Leaf>) returns (created: seq<Path>, required: set<Oid>)
    requires Paths(entries)
    ensures NoDuplicates(created) && Elements(created) == Created(current, Leaves(entries))
    ensures required == Required(current, Leaves(entries))
  {
    created, required := [], {};
    for i := 0 to |entries|
      invariant NoDuplicates(created)
      invariant forall p :: p in created <==> p !in current && exists j :: 0 <= j < i && entries[j].path == p
      invariant required == set j | 0 <= j < i && Needed(entries[j], current) :: entries[j].leaf.oid
    {
      var e := entries[i];
      if e.path !in current { created := created + [e.path]; }
      if e.leaf.Regular? {
        if e.path !in current || !current[e.path].Regular? || current[e.path].oid != e.leaf.oid {
          required := required + {e.leaf.oid};
        }
      }
    }
    RequiredListed(entries, current);
    LeavesMembers(entries);
  }

  predicate Needed(e: Entry, current: map<Path, Leaf>) {
    e.leaf.Regular? && !(e.path in current && current[e.path] == e.leaf)
  }

  /** The blobs whose bytes a target path needs and does not hold yet. */
  function Required(c: map<Path, Leaf>, t: map<Path, Leaf>): set<Oid> {
    set p | p in t && t[p].Regular? && !(p in c && c[p] == t[p]) :: t[p].oid
  }

  function Kinds(excluded: seq<Occupancy>): map<Path, OccupancyKind> {
    if excluded == [] then map[]
    else var last := excluded[|excluded| - 1]; Kinds(excluded[..|excluded| - 1])[last.path := last.kind]
  }

  method IndexKinds(excluded: seq<Occupancy>) returns (r: map<Path, OccupancyKind>)
    ensures r == Kinds(excluded)
  {
    r := map[];
    for i := 0 to |excluded|
      invariant r == Kinds(excluded[..i])
    {
      r := r[excluded[i].path := excluded[i].kind];
      assert excluded[..i + 1][..i] == excluded[..i];
    }
    assert excluded[..|excluded|] == excluded;
  }

  predicate SameAt<K(==), V(==)>(a: map<K, V>, b: map<K, V>, k: K) {
    (k in a <==> k in b) && (k in a ==> a[k] == b[k])
  }

  method DiffKinds(now: map<Path, OccupancyKind>, wanted: map<Path, OccupancyKind>) returns (r: seq<Path>)
    ensures NoDuplicates(r)
    ensures forall p :: p in r <==> !SameAt(now, wanted, p)
  {
    var paths := now.Keys + wanted.Keys;
    r := [];
    while paths != {}
      invariant NoDuplicates(r) && forall p :: p in r ==> p !in paths && !SameAt(now, wanted, p)
      invariant forall p :: p in now.Keys + wanted.Keys && p !in paths && !SameAt(now, wanted, p) ==> p in r
      invariant paths <= now.Keys + wanted.Keys
      decreases paths
    {
      var p :| p in paths;
      paths := paths - {p};
      if !SameAt(now, wanted, p) { r := r + [p]; }
    }
  }

  method DiffOccupancies(current: seq<Occupancy>, expected: seq<Occupancy>) returns (r: seq<Path>)
    ensures NoDuplicates(r)
    ensures forall p :: p in r <==> !SameAt(Kinds(current), Kinds(expected), p)
  {
    var now := IndexKinds(current);
    var wanted := IndexKinds(expected);
    r := DiffKinds(now, wanted);
  }

  ghost predicate WellFormed(current: Observed, target: Manifest) {
    && Paths(current.entries) && Paths(target.entries)
    && forall i :: 0 <= i < |current.excluded| ==> Canonical(current.excluded[i].path)
  }

  method PlanWorkspaceRestore(current: Observed, target: Manifest) returns (plan: Plan)
    requires WellFormed(current, target)
    ensures PlanMatches(current, target, plan)
  {
    var t := IndexLeaves(target.entries);
    var c := IndexLeaves(current.entries);
    var problems := current.problems;
    var scopeMatches := current.scope == target.scope;
    if !scopeMatches { problems := problems + [ScopeMismatch]; }
    var deleted, modified := DiffCurrent(current.entries, t, scopeMatches);
    var directories := CollectDirectories(target.entries);
    TargetDirectories(target.entries);
    var blockers := FindBlockers(current.excluded, t, directories);
    for i := 0 to |blockers|
      invariant problems == current.problems + (if scopeMatches then [] else [ScopeMismatch]) + BlockerProblems(blockers[..i])
    {
      problems := problems + [ScopeBlocker(blockers[i].path, blockers[i].targetPath)];
      assert blockers[..i + 1][..i] == blockers[..i];
    }
    assert blockers[..|blockers|] == blockers;
    var occupancyChanged := [];
    if target.occupancies.Some? {
      occupancyChanged := DiffOccupancies(current.excluded, target.occupancies.value);
    }
    var created, required := DiffTarget(target.entries, c);
    plan := Plan(created, deleted, modified, required, blockers, occupancyChanged, problems);
  }

  function BlockerProblems(blockers: seq<Blocker>): seq<Problem> {
    if blockers == [] then []
    else var last := blockers[|blockers| - 1];
         BlockerProblems(blockers[..|blockers| - 1]) + [ScopeBlocker(last.path, last.targetPath)]
  }

  lemma TargetDirectories(entries: seq<Entry>)
    requires Paths(entries)
    ensures forall d :: d in ImplicitDirectories(entries) <==> exists t :: t in Leaves(entries) && d in Ancestors(t)
  {
    LeavesMembers(entries);
    forall d | d in ImplicitDirectories(entries) ensures exists t :: t in Leaves(entries) && d in Ancestors(t) {
      var i :| 0 <= i < |entries| && d in Ancestors(entries[i].path);
      assert entries[i].path in Leaves(entries);
    }
  }

  /** What the plan of two observations says, part by part. */
  ghost predicate PlanMatches(current: Observed, target: Manifest, plan: Plan) {
    var c, t := Leaves(current.entries), Leaves(target.entries);
    && NoDuplicates(plan.created) && Elements(plan.created) == Created(c, t)
    && NoDuplicates(plan.deleted)
    && Elements(plan.deleted) == (if current.scope == target.scope then Deleted(c, t) else {})
    && NoDuplicates(plan.modified) && Elements(plan.modified) == Modified(c, t)
    && plan.required == Required(c, t)
    && NoDuplicates(plan.blockers) && (forall b :: b in plan.blockers ==> Names(b, t))
    && (set b | b in plan.blockers :: b.path) == (set o | o in current.excluded && BlocksSome(o.path, t) :: o.path)
    && NoDuplicates(plan.occupancyChanged)
    && (forall p :: p in plan.occupancyChanged <==>
          target.occupancies.Some? && !SameAt(Kinds(current.excluded), Kinds(target.occupancies.value), p))
    && plan.problems == current.problems + (if current.scope == target.scope then [] else [ScopeMismatch])
                        + BlockerProblems(plan.blockers)
  }

  predicate HasChanges(plan: Plan) {
    |plan.created| > 0 || |plan.deleted| > 0 || |plan.modified| > 0 || |plan.occupancyChanged| > 0
  }

  /** Carrying a plan out on leaves: drop the deleted ones, write the target's others. */
  ghost function Restored(c: map<Path, Leaf>, t: map<Path, Leaf>, plan: Plan): map<Path, Leaf>
    requires Elements(plan.created) + Elements(plan.modified) <= t.Keys
  {
    (c - Elements(plan.deleted)) + map p | p in t && (p in plan.created || p in plan.modified) :: t[p]
  }

  /** Only the listed paths are touched, and doing so is exactly the target, for matching scopes. */
  lemma PlanTurnsCurrentIntoTarget(current: Observed, target: Manifest, plan: Plan)
    requires WellFormed(current, target) && PlanMatches(current, target, plan) && current.scope == target.scope
    ensures Elements(plan.created) + Elements(plan.modified) <= Leaves(target.entries).Keys
    ensures Restored(Leaves(current.entries), Leaves(target.entries), plan) == Leaves(target.entries)
  {
    var c, t := Leaves(current.entries), Leaves(target.entries);
    assert forall p :: p in plan.created <==> p in Created(c, t) by {
      assert forall p :: p in plan.created <==> p in Elements(plan.created);
    }
    assert forall p :: p in plan.modified <==> p in Modified(c, t) by {
      assert forall p :: p in plan.modified <==> p in Elements(plan.modified);
    }
    var r := Restored(c, t, plan);
    assert r.Keys == t.Keys;
    forall p | p in t ensures r[p] == t[p] { }
  }

  lemma NoElements<T>(s: seq<T>)
    ensures |s| == 0 <==> Elements(s) == {}
  {
    if |s| > 0 { assert s[0] in Elements(s); }
  }

  /** A comparison sees no change exactly when leaves and excluded markers both agree. */
  lemma NoChangesMeansEqual(current: Observed, target: Manifest, plan: Plan)
    requires WellFormed(current, target) && PlanMatches(current, target, plan) && current.scope == target.scope
    ensures !HasChanges(plan) <==>
            && Leaves(current.entries) == Leaves(target.entries)
            && (target.occupancies.Some? ==> Kinds(current.excluded) == Kinds(target.occupancies.value))
  {
    var c, t := Leaves(current.entries), Leaves(target.entries);
    NoElements(plan.created);
    NoElements(plan.deleted);
    NoElements(plan.modified);
    NoElements(plan.occupancyChanged);
    if Created(c, t) == {} && Deleted(c, t) == {} && Modified(c, t) == {} {
      forall p ensures p in c <==> p in t {
        assert p !in Created(c, t) && p !in Deleted(c, t);
      }
      forall p | p in c ensures c[p] == t[p] { assert p !in Modified(c, t); }
      assert c == t;
    }
    if target.occupancies.Some? {
      var now, wanted := Kinds(current.excluded), Kinds(target.occupancies.value);
      if plan.occupancyChanged == [] {
        forall p ensures p in now <==> p in wanted { assert SameAt(now, wanted, p); }
        forall p | p in now ensures now[p] == wanted[p] { assert SameAt(now, wanted, p); }
        assert now == wanted;
      } else {
        assert !SameAt(now, wanted, plan.occupancyChanged[0]);
      }
    }
  }

  /** Blockers are empty exactly when no excluded path is comparable with a target path. */
  lemma NoBlockersMeansDisjoint(current: Observed, target: Manifest, plan: Plan)
    requires WellFormed(current, target) && PlanMatches(current, target, plan)
    ensures plan.blockers == [] <==>
            NoneComparable(current.excluded, Leaves(target.entries))
  {
    var t := Leaves(target.entries);
    var blocked := set o | o in current.excluded && BlocksSome(o.path, t) :: o.path;
    if plan.blockers == [] {
      forall o, p | o in current.excluded && p in t ensures !Comparable(o.path, p) {
        assert o.path !in blocked;
      }
    } else {
      assert plan.blockers[0].path in blocked;
      var o :| o in current.excluded && BlocksSome(o.path, t) && o.path == plan.blockers[0].path;
      var p :| p in t && Comparable(o.path, p);
      assert !NoneComparable(current.excluded, t);
    }
  }

  /** A plan is fit to carry out exactly when the scan is whole, the scopes agree and nothing blocks. */
  lemma CompletePlan(current: Observed, target: Manifest, plan: Plan)
    requires WellFormed(current, target) && PlanMatches(current, target, plan)
    ensures plan.problems == [] <==>
            && current.problems == [] && current.scope == target.scope
            && NoneComparable(current.excluded, Leaves(target.entries))
  {
    NoBlockersMeansDisjoint(current, target, plan);
  }
}
