/** A whole apply: preflight, plan, phases and the final gate check. */
module ApplyTree {
  import opened Wrappers
  import opened Sequences
  import opened WorkspacePaths
  import opened RestorePlan
  import opened MutationGate
  import StreamWindow
  import opened ApplyModel
  import opened ApplyDisk
  import opened ApplyRun
  import ApplyWorkspace

  datatype ApplyError = IncompleteScan | RootUnavailable | LacksDirectoryIdentity | InvalidPlan | NamespaceChanged
                      | GateRejected(cause: Cause)

  datatype ApplyReport = ApplyReport(created: seq<Path>, updated: seq<Path>, deleted: seq<Path>,
                                     unchangedCount: nat, problems: seq<ApplyProblem>)

  function ExcludedPaths(observed: Observed): set<Path> {
    set o | o in observed.excluded :: o.path
  }

  /** What remains once git-internal paths are refused. */
  function Visible(leaves: map<Path, Leaf>, internal: Path -> bool): map<Path, Leaf> {
    map p | p in leaves && !internal(p) :: leaves[p]
  }

  /** The scan seen as work with nothing to do. */
  ghost function ScanOnly(observed: Observed): Work {
    Work(map[], Leaves(observed.entries), ExcludedPaths(observed), {}, {}, {}, {})
  }

  /** The scan lists the truth about these files and misses nothing outside the excluded paths. */
  ghost predicate WholeScan(files: Files, observed: Observed, dirs: set<Path>) {
    Truthful(files, ScanOnly(observed), dirs) && Complete(files, ScanOnly(observed), dirs)
  }

  /** Index entries by path, refusing each git-internal path. */
  method IndexVisible(entries: seq<Entry>, internal: Path -> bool, problems: seq<ApplyProblem>)
    returns (byPath: map<Path, Leaf>, after: seq<ApplyProblem>)
    ensures byPath == Visible(Leaves(entries), internal)
    ensures after == [] <==> problems == [] && byPath == Leaves(entries)
  {
    byPath, after := map[], problems;
    for i := 0 to |entries|
      invariant byPath == Visible(Leaves(entries[..i]), internal)
      invariant after == [] <==> problems == [] && byPath == Leaves(entries[..i])
    {
      var e := entries[i];
      assert entries[..i + 1][..i] == entries[..i];
      ghost var full := Leaves(entries[..i]);
      if internal(e.path) {
        var problem := ApplyProblem(e.path, WriteFailed);
        if problem !in after { after := after + [problem]; }
        assert e.path in Leaves(entries[..i + 1]) && e.path !in byPath;
      } else {
        VisibleStep(full, internal, e);
        byPath := byPath[e.path := e.leaf];
      }
    }
    assert entries[..|entries|] == entries;
  }

  lemma VisibleStep(full: map<Path, Leaf>, internal: Path -> bool, e: Entry)
    requires !internal(e.path)
    ensures Visible(full[e.path := e.leaf], internal) == Visible(full, internal)[e.path := e.leaf]
    ensures Visible(full, internal) == full <==>
            Visible(full[e.path := e.leaf], internal) == full[e.path := e.leaf]
  {
    var after := full[e.path := e.leaf];
    if Visible(after, internal) == after {
      forall p | p in full ensures p in Visible(full, internal) { assert p in after; }
      assert Visible(full, internal) == full;
    }
    if Visible(full, internal) == full {
      forall p | p in after ensures p in Visible(after, internal) { assert p == e.path || p in full; }
      assert Visible(after, internal) == after;
    }
  }

  method RefuseExcluded(excluded: seq<Occupancy>, internal: Path -> bool, problems: seq<ApplyProblem>)
    returns (after: seq<ApplyProblem>)
    ensures problems <= after
  {
    after := problems;
    for i := 0 to |excluded|
      invariant problems <= after
    {
      var problem := ApplyProblem(excluded[i].path, WriteFailed);
      if internal(excluded[i].path) && problem !in after { after := after + [problem]; }
    }
  }

  /** What a plan needs to be carried out at all. */
  ghost predicate Applicable(observed: Observed, manifest: Manifest, dirs: set<Path>, internal: Path -> bool) {
    && observed.problems == [] && observed.scope == manifest.scope
    && NoneComparable(observed.excluded, Leaves(manifest.entries))
    && DirectoriesOf(Visible(Leaves(observed.entries), internal)) <= dirs
  }

  /** A whole scan always holds the directory identities apply asks for. */
  lemma WholeScanHasDirectories(files: Files, observed: Observed, dirs: set<Path>, internal: Path -> bool)
    requires Tree(files) && WholeScan(files, observed, dirs)
    ensures DirectoriesOf(Visible(Leaves(observed.entries), internal)) <= dirs
  {
    var w := ScanOnly(observed);
    forall d | d in DirectoriesOf(Visible(w.current, internal)) ensures d in dirs {
      var c, a :| c in Visible(w.current, internal) && a in Ancestors(c) && a == d;
      ScannedAncestor(files, w, dirs, c, d);
    }
  }

  lemma ScannedAncestor(files: Files, w: Work, dirs: set<Path>, c: Path, d: Path)
    requires Tree(files) && Truthful(files, w, dirs) && Complete(files, w, dirs)
    requires c in w.current && d in Ancestors(c)
    ensures d in dirs
  {
    assert c in files && d in files && files[d] == Directory;
    if Under(d, w.excluded) {
      var e :| e in w.excluded && AtOrBelow(d, e);
      BelowBelow(c, d, e);
      assert Under(c, w.excluded);
    }
  }

  /** The indexed work of a complete plan is sound. */
  lemma PlannedWorkIsSound(observed: Observed, manifest: Manifest, plan: Plan, internal: Path -> bool, w: Work)
    requires WellFormed(observed, manifest) && PlanMatches(observed, manifest, plan) && plan.problems == []
    requires PrefixFree(Leaves(manifest.entries))
    requires w == Work(Visible(Leaves(manifest.entries), internal), Visible(Leaves(observed.entries), internal),
                       ExcludedPaths(observed), DirectoriesOf(Visible(Leaves(manifest.entries), internal)),
                       Elements(plan.created), Elements(plan.deleted), Elements(plan.modified))
    ensures Sound(w)
  {
    var c, t := Leaves(observed.entries), Leaves(manifest.entries);
    CompletePlan(observed, manifest, plan);
    LeavesMembers(manifest.entries);
    forall p | p in w.target ensures Canonical(p) { assert p in t; }
    forall p, e | p in w.target && e in w.excluded ensures !Comparable(e, p) {
      var o :| o in observed.excluded && o.path == e;
      assert o in observed.excluded && p in t;
    }
  }

  /**
   * Whichever calls fail: excluded content is untouched, the gate is disciplined, a refusal before the
   * phases mutated nothing, and a report without problems means that the managed leaves are the target's.
   * With no failing call an applicable plan always ends that way. An apply of what is already there
   * never enters the gate.
   */
  method ApplyTreeToWorkspace(disk: Disk, manifest: Manifest, observed: Observed, dirs: set<Path>, internal: Path -> bool)
    returns (r: Result<ApplyReport, ApplyError>)
    requires disk.Valid() && disk.gate.trace == [] && !disk.faulted
    requires WellFormed(observed, manifest) && PrefixFree(Leaves(manifest.entries))
    requires observed.problems == [] ==> WholeScan(disk.files, observed, dirs)
    modifies disk, disk.gate, disk.gate.lease
    ensures disk.Valid() && Disciplined(disk.gate.trace)
    ensures forall p :: Under(p, ExcludedPaths(observed)) ==> SameAt(old(disk.files), disk.files, p)
    ensures r.Err? && !r.error.GateRejected? ==> disk.files == old(disk.files) && disk.gate.trace == []
    ensures r.Ok? && r.value.problems == [] ==>
              ManagedLeaves(disk.files, ExcludedPaths(observed)) == AsNodes(Leaves(manifest.entries))
    ensures r.Ok? && r.value.problems == [] ==> ReportMatches(r.value, Leaves(observed.entries), Leaves(manifest.entries))
    ensures !disk.faulted ==> (r.Ok? <==> Applicable(observed, manifest, dirs, internal))
    ensures !disk.faulted && r.Ok? ==> r.value.problems == []
    ensures Leaves(observed.entries) == Leaves(manifest.entries) ==> disk.files == old(disk.files) && disk.gate.trace == []
  {
    if observed.problems != [] { return Err(IncompleteScan); }
    var unavailable: bool := *;
    if unavailable {
      disk.faulted := true;
      return Err(RootUnavailable);
    }
    var target, refused := IndexVisible(manifest.entries, internal, []);
    refused := RefuseExcluded(observed.excluded, internal, refused);
    var current;
    current, refused := IndexVisible(observed.entries, internal, refused);
    if !(DirectoriesOf(current) <= dirs) { return Err(LacksDirectoryIdentity); }
    var plan := PlanWorkspaceRestore(observed, manifest);
    CompletePlan(observed, manifest, plan);
    if plan.problems != [] { return Err(InvalidPlan); }
    var changed: bool := *;
    if changed {
      disk.faulted := true;
      return Err(NamespaceChanged);
    }
    var creates, deletes, changes := (set p | p in plan.created), (set p | p in plan.deleted), (set p | p in plan.modified);
    var w := Work(target, current, ExcludedPaths(observed), DirectoriesOf(target), creates, deletes, changes);
    PlannedWorkIsSound(observed, manifest, plan, internal, w);
    disk.faulted := refused != [];
    r := CarryOut(disk, w, dirs, refused);
  }

  ghost predicate ReportMatches(report: ApplyReport, c: map<Path, Leaf>, t: map<Path, Leaf>) {
    && Elements(report.created) == Created(c, t)
    && Elements(report.deleted) == Deleted(c, t) - DirectoriesOf(t)
    && Elements(report.updated) == Modified(c, t) + Deleted(c, t) * DirectoriesOf(t)
  }

  /** Run the phases on indexed work; a rejected gate turns the report into an error. */
  method CarryOut(disk: Disk, w: Work, dirs: set<Path>, refused: seq<ApplyProblem>)
    returns (r: Result<ApplyReport, ApplyError>)
    requires disk.Valid() && disk.gate.trace == [] && Sound(w) && Truthful(disk.files, w, dirs)
    requires refused == [] ==> Complete(disk.files, w, dirs)
    requires disk.faulted == (refused != []) && DirectoriesOf(w.current) <= dirs
    modifies disk, disk.gate, disk.gate.lease
    ensures disk.Valid() && Disciplined(disk.gate.trace) && Intact(old(disk.files), disk.files, w)
    ensures r.Err? ==> r.error.GateRejected? && disk.faulted
    ensures r.Ok? && r.value.problems == [] ==> refused == [] && ReportMatches(r.value, w.current, w.target)
    ensures r.Ok? && r.value.problems == [] ==> ManagedLeaves(disk.files, w.excluded) == AsNodes(w.target)
    ensures !disk.faulted && r.Ok? ==> r.value.problems == []
    ensures Noop(w) ==> disk.files == old(disk.files) && disk.gate.trace == []
  {
    var run := new Apply(disk, w, dirs, refused);
    ApplyWorkspace.RunPhases(run);
    UnbrokenIsDisciplined(disk.gate.trace);
    var same := |set t | t in w.target && t !in w.creates && t !in w.changes|;
    match disk.gate.state
    case Rejected(cause) => r := Err(GateRejected(cause));
    case _ => r := Ok(ApplyReport(run.created, run.updated, run.deleted, same, run.problems));
  }

  /** A whole rescan of an applied workspace lists exactly the target. */
  lemma RescanSeesTarget(files: Files, target: map<Path, Leaf>, rescanned: Observed, dirs: set<Path>)
    requires ManagedLeaves(files, ExcludedPaths(rescanned)) == AsNodes(target)
    requires WholeScan(files, rescanned, dirs)
    ensures Leaves(rescanned.entries) == target
  {
    var c := Leaves(rescanned.entries);
    ScanListsManagedLeaves(files, ScanOnly(rescanned), dirs);
    assert AsNodes(c) == AsNodes(target);
    forall p ensures p in c <==> p in target { assert p in AsNodes(c) <==> p in AsNodes(target); }
    forall p | p in c ensures c[p] == target[p] { assert AsNodes(c)[p] == AsNodes(target)[p]; }
  }

  /** After a success, applying the same target to a fresh scan neither mutates nor cuts over. */
  method ApplyAgain(files: Files, manifest: Manifest, rescanned: Observed, dirs: set<Path>, internal: Path -> bool,
                    lease: MutationLease, digest: seq<StreamWindow.Byte> -> Oid)
    returns (r: Result<ApplyReport, ApplyError>, after: Files, ghost trace: seq<Event>)
    requires Tree(files) && lease.Valid() && WellFormed(rescanned, manifest) && PrefixFree(Leaves(manifest.entries))
    requires ManagedLeaves(files, ExcludedPaths(rescanned)) == AsNodes(Leaves(manifest.entries))
    requires WholeScan(files, rescanned, dirs)
    modifies lease
    ensures after == files && trace == []
  {
    RescanSeesTarget(files, Leaves(manifest.entries), rescanned, dirs);
    var gate := new Gate(lease);
    var disk := new Disk(gate, files, digest);
    r := ApplyTreeToWorkspace(disk, manifest, rescanned, dirs, internal);
    after, trace := disk.files, gate.trace;
  }
}
