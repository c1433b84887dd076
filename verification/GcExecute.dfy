/** Carrying out a sweep: one removal at a time, stoppable or failing anywhere. */
module GcExecute {
  import opened Wrappers
  import opened Sequences
  import opened GcModel
  import GcSweep

  function FilterOut<T(==)>(s: seq<T>, gone: set<T>): seq<T> {
    if s == [] then []
    else if s[0] in gone then FilterOut(s[1..], gone)
    else [s[0]] + FilterOut(s[1..], gone)
  }

  function Total<T>(s: seq<T>, weight: T -> nat): nat {
    if s == [] then 0 else weight(s[0]) + Total(s[1..], weight)
  }

  lemma {:induction false} FilterOutMembers<T(!new)>(s: seq<T>, gone: set<T>)
    ensures forall x :: x in FilterOut(s, gone) <==> x in s && x !in gone
  {
    if s != [] {
      FilterOutMembers(s[1..], gone);
      assert s == [s[0]] + s[1..];
    }
  }

  lemma {:induction false} FilterOutTwice<T(!new)>(s: seq<T>, a: set<T>, b: set<T>)
    ensures FilterOut(FilterOut(s, a), b) == FilterOut(s, a + b)
  {
    if s != [] { FilterOutTwice(s[1..], a, b); }
  }

  lemma {:induction false} FilterOutNone<T(!new)>(s: seq<T>, gone: set<T>)
    requires forall x :: x in s ==> x !in gone
    ensures FilterOut(s, gone) == s
  {
    if s != [] {
      assert s[0] in s && forall x :: x in s[1..] ==> x in s;
      FilterOutNone(s[1..], gone);
    }
  }

  /** Removing one more element lowers any total by exactly that element's weight. */
  lemma {:induction false} TotalWithoutOne<T(!new)>(s: seq<T>, gone: set<T>, x: T, weight: T -> nat)
    requires NoDuplicates(s) && x in s && x !in gone
    ensures Total(FilterOut(s, gone + {x}), weight) + weight(x) == Total(FilterOut(s, gone), weight)
  {
    assert s == [s[0]] + s[1..];
    if s[0] == x {
      SameOutside(s[1..], gone, x);
    } else {
      TotalWithoutOne(s[1..], gone, x, weight);
    }
  }

  lemma {:induction false} SameOutside<T(!new)>(s: seq<T>, gone: set<T>, x: T)
    requires x !in s
    ensures FilterOut(s, gone + {x}) == FilterOut(s, gone)
  {
    if s != [] {
      assert s[0] in s && forall y :: y in s[1..] ==> y in s;
      SameOutside(s[1..], gone, x);
    }
  }

  /** Totals of what a whole removal list leaves, and of its unvisited rest. */
  lemma {:induction false} TotalOfRest<T(!new)>(s: seq<T>, removals: seq<T>, n: nat, weight: T -> nat)
    requires NoDuplicates(s) && NoDuplicates(removals) && n <= |removals|
    requires forall x :: x in removals ==> x in s
    ensures Total(FilterOut(s, Elements(removals[..n])), weight)
         == Total(FilterOut(s, Elements(removals)), weight) + Total(removals[n..], weight)
    decreases |removals| - n
  {
    if n == |removals| {
      assert removals[..n] == removals;
    } else {
      TotalOfRest(s, removals, n + 1, weight);
      ElementsStep(removals, n);
      TotalWithoutOne(s, Elements(removals[..n]), removals[n], weight);
    }
  }

  function ObjectBytes(o: StoreObject): nat { o.byteLength }

  function PackBytes(p: Pack): nat { p.size }

  /** Temporary files are not kept objects. */
  function ObjectCount(o: StoreObject): nat { if o.temporary then 0 else 1 }

  function EntryCount(p: Pack): nat { |p.entries| }

  function KeptIn(objects: seq<StoreObject>, packs: seq<Pack>): nat {
    Total(objects, ObjectCount) + Total(packs, EntryCount)
  }

  function IncomingBytes(f: IncomingFile): nat { f.size }

  function BytesIn(objects: seq<StoreObject>, packs: seq<Pack>, incoming: seq<IncomingFile>): nat {
    Total(objects, ObjectBytes) + Total(packs, PackBytes) + Total(incoming, IncomingBytes)
  }

  /** What happens when one more removal is attempted. */
  datatype Attempt = Proceeds | Cancelled | Fails

  /** A half-written pack. */
  datatype IncomingFile = IncomingFile(path: string, size: nat, modifiedAt: int)

  /** What has been removed so far, by kind. */
  datatype Tally = Tally(trees: nat, blobs: nat, tmpFiles: nat, records: nat, packs: nat, compacted: nat) {
    function Plus(more: Tally): Tally {
      Tally(trees + more.trees, blobs + more.blobs, tmpFiles + more.tmpFiles, records + more.records,
            packs + more.packs, compacted + more.compacted)
    }

    function WithTmpFiles(more: nat): Tally {
      this.(tmpFiles := tmpFiles + more)
    }

    function Of(part: Part): nat {
      match part
      case AsTemporary => tmpFiles
      case AsCompacted => compacted
      case AsTree => trees
      case AsBlob => blobs
      case AsRecord => records
    }
  }

  /** Under which counters a removal is reported; a loose record is reported under two. */
  datatype Part = AsTemporary | AsCompacted | AsTree | AsBlob | AsRecord

  predicate ObjectCounts(o: StoreObject, mark: Mark, part: Part) {
    match part
    case AsTemporary => o.temporary
    case AsCompacted => !o.temporary && ObjectKeys(o, mark) * mark.liveKeys != {}
    case AsTree => !o.temporary && ObjectKeys(o, mark) * mark.liveKeys == {} && o.kind == LooseStructural
    case AsBlob => !o.temporary && ObjectKeys(o, mark) * mark.liveKeys == {} && o.kind != LooseStructural
    case AsRecord => !o.temporary && o.kind in {LooseContent, LooseRecipe}
  }

  predicate EntryCounts(e: PackEntry, mark: Mark, part: Part) {
    match part
    case AsTree => e.key !in mark.liveKeys && e.key.kind in {TreeRoot, TreeNode, Scope}
    case AsBlob => e.key !in mark.liveKeys && e.key.kind in {Content, Recipe}
    case AsRecord => e.key !in mark.liveKeys
    case _ => false
  }

  function CountObjects(objects: seq<StoreObject>, mark: Mark, part: Part): nat {
    if objects == [] then 0
    else CountObjects(objects[..|objects| - 1], mark, part) + if ObjectCounts(objects[|objects| - 1], mark, part) then 1 else 0
  }

  function CountEntries(entries: seq<PackEntry>, mark: Mark, part: Part): nat {
    if entries == [] then 0
    else CountEntries(entries[..|entries| - 1], mark, part) + if EntryCounts(entries[|entries| - 1], mark, part) then 1 else 0
  }

  function CountPacked(packs: seq<Pack>, mark: Mark, part: Part): nat {
    if packs == [] then 0
    else CountPacked(packs[..|packs| - 1], mark, part) + CountEntries(packs[|packs| - 1].entries, mark, part)
  }

  function NothingRemoved(): Tally { Tally(0, 0, 0, 0, 0, 0) }

  /** A loose object counts as a temporary file, as compacted when a packed copy replaces it, or as dead. */
  function TallyObject(o: StoreObject, mark: Mark): Tally {
    if o.temporary then NothingRemoved().(tmpFiles := 1)
    else
      var record := NothingRemoved().(records := if o.kind == LooseContent || o.kind == LooseRecipe then 1 else 0);
      if ObjectIsLive(o, mark) then record.(compacted := 1)
      else if o.kind == LooseStructural then record.(trees := 1)
      else record.(blobs := 1)
  }

  /** A pack's dead entries count as removed records; its live ones are stored elsewhere. */
  function TallyEntries(entries: seq<PackEntry>, mark: Mark): Tally {
    if entries == [] then NothingRemoved()
    else
      var rest, last := TallyEntries(entries[..|entries| - 1], mark), entries[|entries| - 1];
      if last.key in mark.liveKeys then rest
      else if last.key.kind.TreeRoot? || last.key.kind.TreeNode? || last.key.kind.Scope?
      then rest.(records := rest.records + 1, trees := rest.trees + 1)
      else rest.(records := rest.records + 1, blobs := rest.blobs + 1)
  }

  function TallyObjects(objects: seq<StoreObject>, mark: Mark): Tally {
    if objects == [] then NothingRemoved()
    else TallyObjects(objects[..|objects| - 1], mark).Plus(TallyObject(objects[|objects| - 1], mark))
  }

  function TallyPacks(packs: seq<Pack>, mark: Mark): Tally {
    if packs == [] then NothingRemoved()
    else TallyPacks(packs[..|packs| - 1], mark).Plus(TallyEntries(packs[|packs| - 1].entries, mark).(packs := 1))
  }

  /** Packs, then incoming files, each of which counts as a temporary file. */
  function TallyFiles(packs: seq<Pack>, incoming: nat, mark: Mark): Tally {
    TallyPacks(packs, mark).WithTmpFiles(incoming)
  }

  lemma TallyObjectCounts(o: StoreObject, mark: Mark, part: Part)
    ensures TallyObject(o, mark).Of(part) == if ObjectCounts(o, mark, part) then 1 else 0
    ensures TallyObject(o, mark).packs == 0
  { }

  lemma {:induction false} TallyObjectsCounts(objects: seq<StoreObject>, mark: Mark, part: Part)
    ensures TallyObjects(objects, mark).Of(part) == CountObjects(objects, mark, part)
    ensures TallyObjects(objects, mark).packs == 0
  {
    if objects != [] {
      TallyObjectsCounts(objects[..|objects| - 1], mark, part);
      TallyObjectCounts(objects[|objects| - 1], mark, part);
    }
  }

  lemma {:induction false} TallyEntriesCounts(entries: seq<PackEntry>, mark: Mark, part: Part)
    ensures TallyEntries(entries, mark).Of(part) == CountEntries(entries, mark, part)
    ensures TallyEntries(entries, mark).packs == 0
  {
    if entries != [] { TallyEntriesCounts(entries[..|entries| - 1], mark, part); }
  }

  lemma {:induction false} TallyPacksCounts(packs: seq<Pack>, mark: Mark, part: Part)
    ensures TallyPacks(packs, mark).Of(part) == CountPacked(packs, mark, part)
    ensures TallyPacks(packs, mark).packs == |packs|
  {
    if packs != [] {
      TallyPacksCounts(packs[..|packs| - 1], mark, part);
      TallyEntriesCounts(packs[|packs| - 1].entries, mark, part);
    }
  }

  function AllEntries(packs: seq<Pack>): seq<PackEntry> {
    if packs == [] then [] else AllEntries(packs[..|packs| - 1]) + packs[|packs| - 1].entries
  }

  lemma {:induction false} KeptObjectsCount(objects: seq<StoreObject>)
    ensures Total(objects, ObjectCount) == |FinishedFiles(objects)|
  {
    if objects != [] { KeptObjectsCount(objects[1..]); }
  }

  /** The files that are not temporary. */
  function FinishedFiles(objects: seq<StoreObject>): seq<StoreObject> {
    if objects == [] then []
    else (if objects[0].temporary then [] else [objects[0]]) + FinishedFiles(objects[1..])
  }

  lemma {:induction false} TotalSnoc<T>(s: seq<T>, x: T, weight: T -> nat)
    ensures Total(s + [x], weight) == Total(s, weight) + weight(x)
  {
    if s == [] {
      assert s + [x] == [x] && [x][1..] == [];
    } else {
      assert (s + [x])[1..] == s[1..] + [x];
      TotalSnoc(s[1..], x, weight);
    }
  }

  lemma {:induction false} KeptEntriesCount(packs: seq<Pack>)
    ensures Total(packs, EntryCount) == |AllEntries(packs)|
  {
    if packs != [] {
      var front, last := packs[..|packs| - 1], packs[|packs| - 1];
      assert packs == front + [last];
      KeptEntriesCount(front);
      TotalSnoc(front, last, EntryCount);
    }
  }

  datatype Report = Report(freedBytes: nat, removed: Tally, keptObjects: nat, stopped: bool)

  datatype SweepPlan = SweepPlan(inv: Inventory, waiting: seq<IncomingFile>, mark: Mark,
                                 objects: seq<StoreObject>, packs: seq<Pack>, incoming: seq<IncomingFile>)

  ghost predicate ValidPlan(plan: SweepPlan) {
    && NoDuplicates(plan.inv.objects) && DistinctPackIds(plan.inv.packs) && NoDuplicates(plan.waiting)
    && NoDuplicates(plan.objects) && NoDuplicates(plan.packs) && NoDuplicates(plan.incoming)
    && (forall o :: o in plan.objects ==> o in plan.inv.objects)
    && (forall p :: p in plan.packs ==> p in plan.inv.packs)
    && (forall f :: f in plan.incoming ==> f in plan.waiting)
  }

  /** How far a sweep got: objects go first, then packs, then incoming files. */
  datatype Progress = Progress(objects: nat, packs: nat, incoming: nat) {
    predicate Within(plan: SweepPlan) {
      && objects <= |plan.objects| && packs <= |plan.packs| && incoming <= |plan.incoming|
      && (packs > 0 ==> objects == |plan.objects|)
      && (incoming > 0 ==> objects == |plan.objects| && packs == |plan.packs|)
    }

    predicate Complete(plan: SweepPlan) {
      objects == |plan.objects| && packs == |plan.packs| && incoming == |plan.incoming|
    }

    function Steps(): nat { objects + packs + incoming }
  }

  /** The objects, packs and incoming files on disk. */
  class StoreState {
    var objects: seq<StoreObject>
    var packs: seq<Pack>
    var incoming: seq<IncomingFile>

    constructor (inv: Inventory, incoming: seq<IncomingFile>)
      ensures objects == inv.objects && packs == inv.packs && this.incoming == incoming
    {
      objects, packs, this.incoming := inv.objects, inv.packs, incoming;
    }

    function Bytes(): nat
      reads this
    {
      BytesIn(objects, packs, incoming)
    }

    /** Exactly the first removals of the plan are gone. */
    ghost predicate After(plan: SweepPlan, done: Progress)
      reads this
      requires done.Within(plan)
    {
      && objects == FilterOut(plan.inv.objects, Elements(plan.objects[..done.objects]))
      && packs == FilterOut(plan.inv.packs, Elements(plan.packs[..done.packs]))
      && incoming == FilterOut(plan.waiting, Elements(plan.incoming[..done.incoming]))
    }

    method RemoveObject(o: StoreObject, plan: SweepPlan, ghost i: nat)
      requires ValidPlan(plan) && i < |plan.objects| && plan.objects[i] == o && After(plan, Progress(i, 0, 0))
      modifies this`objects
      ensures After(plan, Progress(i + 1, 0, 0))
      ensures Bytes() + o.byteLength == old(Bytes())
    {
      ghost var gone := Elements(plan.objects[..i]);
      ElementsStep(plan.objects, i);
      FilterOutTwice(plan.inv.objects, gone, {o});
      TotalWithoutOne(plan.inv.objects, gone, o, ObjectBytes);
      objects := FilterOut(objects, {o});
    }

    method RemovePack(p: Pack, plan: SweepPlan, ghost j: nat)
      requires ValidPlan(plan) && j < |plan.packs| && plan.packs[j] == p && After(plan, Progress(|plan.objects|, j, 0))
      modifies this`packs
      ensures After(plan, Progress(|plan.objects|, j + 1, 0))
      ensures Bytes() + p.size == old(Bytes())
    {
      ghost var gone := Elements(plan.packs[..j]);
      ElementsStep(plan.packs, j);
      FilterOutTwice(plan.inv.packs, gone, {p});
      TotalWithoutOne(plan.inv.packs, gone, p, PackBytes);
      packs := FilterOut(packs, {p});
    }

    method RemoveIncoming(f: IncomingFile, plan: SweepPlan, ghost k: nat)
      requires ValidPlan(plan) && k < |plan.incoming| && plan.incoming[k] == f
      requires After(plan, Progress(|plan.objects|, |plan.packs|, k))
      modifies this`incoming
      ensures After(plan, Progress(|plan.objects|, |plan.packs|, k + 1))
      ensures Bytes() + f.size == old(Bytes())
    {
      ghost var gone := Elements(plan.incoming[..k]);
      ElementsStep(plan.incoming, k);
      FilterOutTwice(plan.waiting, gone, {f});
      TotalWithoutOne(plan.waiting, gone, f, IncomingBytes);
      incoming := FilterOut(incoming, {f});
    }
  }

  /** Every live record is represented in the store as it stands. */
  ghost predicate AllCovered(objects: seq<StoreObject>, packs: seq<Pack>, mark: Mark) {
    forall k :: k in mark.liveKeys ==> Covered(Inventory(objects, packs), mark, k, {}, {})
  }

  /** Carried out in full, the plan leaves every live record represented. */
  ghost predicate KeepsCoverage(plan: SweepPlan) {
    forall k :: k in plan.mark.liveKeys ==>
      Covered(plan.inv, plan.mark, k, Elements(plan.objects), PackIds(plan.packs))
  }

  /** A plan whose completion keeps coverage keeps it after any prefix. */
  lemma PrefixCovered(plan: SweepPlan, i: nat, j: nat, objects: seq<StoreObject>, packs: seq<Pack>)
    requires ValidPlan(plan) && i <= |plan.objects| && j <= |plan.packs|
    requires objects == FilterOut(plan.inv.objects, Elements(plan.objects[..i]))
    requires packs == FilterOut(plan.inv.packs, Elements(plan.packs[..j]))
    requires KeepsCoverage(plan)
    ensures AllCovered(objects, packs, plan.mark)
  {
    FilterOutMembers(plan.inv.objects, Elements(plan.objects[..i]));
    FilterOutMembers(plan.inv.packs, Elements(plan.packs[..j]));
    forall k | k in plan.mark.liveKeys
      ensures Covered(Inventory(objects, packs), plan.mark, k, {}, {})
    {
      GcSweep.CoverageIsMonotone(plan.inv, plan.mark, k, Elements(plan.objects[..i]), Elements(plan.objects),
                                 PackIds(plan.packs[..j]), PackIds(plan.packs));
      if o :| o in plan.inv.objects && o !in Elements(plan.objects[..i]) && k in ObjectKeys(o, plan.mark) {
        assert o in objects;
      } else {
        var p :| p in plan.inv.packs && p.id !in PackIds(plan.packs[..j]) && PackCovers(p, k, plan.mark);
        assert p in packs;
      }
    }
  }

  method RemoveObjects(store: StoreState, plan: SweepPlan, control: nat -> Attempt)
    returns (n: nat, freed: nat, removed: Tally, last: Attempt)
    requires ValidPlan(plan) && store.After(plan, Progress(0, 0, 0))
    modifies store`objects
    ensures n <= |plan.objects| && store.After(plan, Progress(n, 0, 0))
    ensures if last == Proceeds then n == |plan.objects| else control(n) == last
    ensures freed + store.Bytes() == old(store.Bytes())
    ensures removed == TallyObjects(plan.objects[..n], plan.mark)
  {
    n, freed, removed := 0, 0, NothingRemoved();
    while n < |plan.objects|
      invariant n <= |plan.objects| && store.After(plan, Progress(n, 0, 0))
      invariant freed + store.Bytes() == old(store.Bytes())
      invariant removed == TallyObjects(plan.objects[..n], plan.mark)
    {
      last := control(n);
      if last != Proceeds { return; }
      var o := plan.objects[n];
      store.RemoveObject(o, plan, n);
      assert plan.objects[..n + 1][..n] == plan.objects[..n];
      freed, removed := freed + o.byteLength, removed.Plus(TallyObject(o, plan.mark));
      n := n + 1;
    }
    last := Proceeds;
  }

  method CountDeadEntries(entries: seq<PackEntry>, mark: Mark) returns (removed: Tally)
    ensures removed == TallyEntries(entries, mark)
  {
    removed := NothingRemoved();
    for i := 0 to |entries|
      invariant removed == TallyEntries(entries[..i], mark)
    {
      assert entries[..i + 1][..i] == entries[..i];
      var kind := entries[i].key.kind;
      if entries[i].key !in mark.liveKeys {
        removed := removed.(records := removed.records + 1);
        if kind == TreeRoot || kind == TreeNode || kind == Scope {
          removed := removed.(trees := removed.trees + 1);
        } else {
          removed := removed.(blobs := removed.blobs + 1);
        }
      }
    }
    assert entries[..|entries|] == entries;
  }

  method RemovePacks(store: StoreState, plan: SweepPlan, control: nat -> Attempt)
    returns (n: nat, freed: nat, removed: Tally, last: Attempt)
    requires ValidPlan(plan) && store.After(plan, Progress(|plan.objects|, 0, 0))
    modifies store`packs
    ensures n <= |plan.packs| && store.After(plan, Progress(|plan.objects|, n, 0))
    ensures if last == Proceeds then n == |plan.packs| else control(|plan.objects| + n) == last
    ensures freed + store.Bytes() == old(store.Bytes())
    ensures removed == TallyPacks(plan.packs[..n], plan.mark)
  {
    n, freed, removed := 0, 0, NothingRemoved();
    while n < |plan.packs|
      invariant n <= |plan.packs| && store.After(plan, Progress(|plan.objects|, n, 0))
      invariant freed + store.Bytes() == old(store.Bytes())
      invariant removed == TallyPacks(plan.packs[..n], plan.mark)
    {
      last := control(|plan.objects| + n);
      if last != Proceeds { return; }
      store.RemovePack(plan.packs[n], plan, n);
      assert plan.packs[..n + 1][..n] == plan.packs[..n];
      var dead := CountDeadEntries(plan.packs[n].entries, plan.mark);
      freed, removed := freed + plan.packs[n].size, removed.Plus(dead.(packs := 1));
      n := n + 1;
    }
    last := Proceeds;
  }

  method RemoveAllIncoming(store: StoreState, plan: SweepPlan, control: nat -> Attempt)
    returns (n: nat, freed: nat, last: Attempt)
    requires ValidPlan(plan) && store.After(plan, Progress(|plan.objects|, |plan.packs|, 0))
    modifies store`incoming
    ensures n <= |plan.incoming| && store.After(plan, Progress(|plan.objects|, |plan.packs|, n))
    ensures if last == Proceeds then n == |plan.incoming| else control(|plan.objects| + |plan.packs| + n) == last
    ensures freed + store.Bytes() == old(store.Bytes())
  {
    n, freed := 0, 0;
    while n < |plan.incoming|
      invariant n <= |plan.incoming| && store.After(plan, Progress(|plan.objects|, |plan.packs|, n))
      invariant freed + store.Bytes() == old(store.Bytes())
    {
      last := control(|plan.objects| + |plan.packs| + n);
      if last != Proceeds { return; }
      store.RemoveIncoming(plan.incoming[n], plan, n);
      freed := freed + plan.incoming[n].size;
      n := n + 1;
    }
    last := Proceeds;
  }

  /** The report counts what is outside the plan, then what a stopped sweep left behind. */
  function ReportedKept(plan: SweepPlan, done: Progress, stopped: bool): nat
    requires done.Within(plan)
  {
    KeptIn(FilterOut(plan.inv.objects, set o | o in plan.objects), FilterOut(plan.inv.packs, set p | p in plan.packs))
    + if stopped then KeptIn(plan.objects[done.objects..], plan.packs[done.packs..]) else 0
  }

  lemma ReportedKeptIsExact(plan: SweepPlan, done: Progress, stopped: bool)
    requires ValidPlan(plan) && done.Within(plan)
    requires !stopped ==> done.Complete(plan)
    ensures ReportedKept(plan, done, stopped) ==
            KeptIn(FilterOut(plan.inv.objects, Elements(plan.objects[..done.objects])),
                   FilterOut(plan.inv.packs, Elements(plan.packs[..done.packs])))
  {
    TotalOfRest(plan.inv.objects, plan.objects, done.objects, ObjectCount);
    TotalOfRest(plan.inv.packs, plan.packs, done.packs, EntryCount);
    assert Elements(plan.objects) == set o | o in plan.objects;
    assert Elements(plan.packs) == set p | p in plan.packs;
  }

  /** What the removals done so far add up to. */
  ghost function TallyUpTo(plan: SweepPlan, done: Progress): Tally
    requires done.Within(plan)
  {
    TallyObjects(plan.objects[..done.objects], plan.mark).Plus(TallyFiles(plan.packs[..done.packs], done.incoming, plan.mark))
  }

  /** The packs, and once all are gone the incoming files. */
  method RemovePackFiles(store: StoreState, plan: SweepPlan, control: nat -> Attempt)
    returns (done: Progress, freed: nat, removed: Tally, last: Attempt)
    requires ValidPlan(plan) && store.After(plan, Progress(|plan.objects|, 0, 0))
    modifies store`packs, store`incoming
    ensures done.Within(plan) && done.objects == |plan.objects| && store.After(plan, done)
    ensures if last == Proceeds then done.Complete(plan) else control(done.Steps()) == last
    ensures freed + store.Bytes() == old(store.Bytes())
    ensures removed == TallyFiles(plan.packs[..done.packs], done.incoming, plan.mark)
  {
    var packs;
    packs, freed, removed, last := RemovePacks(store, plan, control);
    if last != Proceeds { return Progress(|plan.objects|, packs, 0), freed, removed, last; }
    var incoming, more;
    incoming, more, last := RemoveAllIncoming(store, plan, control);
    done := Progress(|plan.objects|, packs, incoming);
    freed, removed := freed + more, removed.WithTmpFiles(incoming);
  }

  lemma NothingGoneYet(plan: SweepPlan, store: StoreState)
    requires store.objects == plan.inv.objects && store.packs == plan.inv.packs && store.incoming == plan.waiting
    ensures store.After(plan, Progress(0, 0, 0))
  {
    FilterOutNone(plan.inv.objects, Elements(plan.objects[..0]));
    FilterOutNone(plan.inv.packs, Elements(plan.packs[..0]));
    FilterOutNone(plan.waiting, Elements(plan.incoming[..0]));
  }

  method RunRemovals(store: StoreState, plan: SweepPlan, control: nat -> Attempt)
    returns (done: Progress, freed: nat, removed: Tally, last: Attempt)
    requires ValidPlan(plan)
    requires store.objects == plan.inv.objects && store.packs == plan.inv.packs && store.incoming == plan.waiting
    modifies store
    ensures done.Within(plan) && store.After(plan, done)
    ensures if last == Proceeds then done.Complete(plan) else control(done.Steps()) == last
    ensures freed + store.Bytes() == old(store.Bytes())
    ensures removed == TallyUpTo(plan, done)
  {
    NothingGoneYet(plan, store);
    var objects;
    objects, freed, removed, last := RemoveObjects(store, plan, control);
    if last != Proceeds { return Progress(objects, 0, 0), freed, removed, last; }
    var files, more;
    done, more, files, last := RemovePackFiles(store, plan, control);
    freed, removed := freed + more, removed.Plus(files);
  }

  /** Every counter is the number of removals it stands for. */
  ghost predicate Tallies(removed: Tally, plan: SweepPlan, done: Progress)
    requires done.Within(plan)
  {
    removed.packs == done.packs && forall part: Part :: Counts(removed, plan, done, part)
  }

  ghost predicate Counts(removed: Tally, plan: SweepPlan, done: Progress, part: Part)
    requires done.Within(plan)
  {
    removed.Of(part) == CountObjects(plan.objects[..done.objects], plan.mark, part)
                        + CountPacked(plan.packs[..done.packs], plan.mark, part)
                        + if part == AsTemporary then done.incoming else 0
  }

  lemma SumCounts(a: Tally, b: Tally, incoming: nat, part: Part)
    ensures a.Plus(b.WithTmpFiles(incoming)).Of(part)
         == a.Of(part) + b.Of(part) + if part == AsTemporary then incoming else 0
    ensures a.Plus(b.WithTmpFiles(incoming)).packs == a.packs + b.packs
  { }

  lemma PartIsExact(plan: SweepPlan, done: Progress, part: Part)
    requires done.Within(plan)
    ensures Counts(TallyUpTo(plan, done), plan, done, part) && TallyUpTo(plan, done).packs == done.packs
  {
    var objects, packs := plan.objects[..done.objects], plan.packs[..done.packs];
    TallyObjectsCounts(objects, plan.mark, part);
    TallyPacksCounts(packs, plan.mark, part);
    SumCounts(TallyObjects(objects, plan.mark), TallyPacks(packs, plan.mark), done.incoming, part);
  }

  lemma TallyIsExact(plan: SweepPlan, done: Progress)
    requires done.Within(plan)
    ensures Tallies(TallyUpTo(plan, done), plan, done)
  {
    PartIsExact(plan, done, AsTemporary);
    forall part: Part ensures Counts(TallyUpTo(plan, done), plan, done, part) {
      PartIsExact(plan, done, part);
    }
  }

  lemma KeptIsExact(objects: seq<StoreObject>, packs: seq<Pack>)
    ensures KeptIn(objects, packs) == |FinishedFiles(objects)| + |AllEntries(packs)|
  {
    KeptObjectsCount(objects);
    KeptEntriesCount(packs);
  }

  /** A report tells exactly what went and what is left. */
  ghost predicate Reports(report: Report, plan: SweepPlan, done: Progress, store: StoreState)
    reads store
    requires done.Within(plan)
  {
    && report.freedBytes + store.Bytes() == BytesIn(plan.inv.objects, plan.inv.packs, plan.waiting)
    && Tallies(report.removed, plan, done)
    && report.keptObjects == |FinishedFiles(store.objects)| + |AllEntries(store.packs)|
    && (!report.stopped ==> done.Complete(plan))
  }

  /**
   * Remove the planned objects, then the packs, then the incoming files, until done, cancelled or failed;
   * after the last one the pack index is rebuilt, which may fail too.
   */
  method ExecuteSweep(store: StoreState, plan: SweepPlan, control: nat -> Attempt)
    returns (r: Result<Report, nat>, ghost done: Progress)
    requires ValidPlan(plan)
    requires store.objects == plan.inv.objects && store.packs == plan.inv.packs && store.incoming == plan.waiting
    requires KeepsCoverage(plan)
    modifies store
    ensures AllCovered(store.objects, store.packs, plan.mark)
    ensures done.Within(plan) && store.After(plan, done)
    ensures r.Ok? ==> Reports(r.value, plan, done, store)
    ensures r.Ok? && r.value.stopped ==> control(done.Steps()) == Cancelled
    ensures r.Err? ==> r.error == done.Steps() && control(r.error) == Fails
  {
    var reached, freed, removed, last := RunRemovals(store, plan, control);
    done := reached;
    PrefixCovered(plan, reached.objects, reached.packs, store.objects, store.packs);
    if last == Fails { return Err(reached.Steps()), done; }
    if last == Proceeds && reached.packs + reached.incoming > 0 && control(reached.Steps()) == Fails {
      return Err(reached.Steps()), done;
    }
    ReportedKeptIsExact(plan, reached, last == Cancelled);
    TallyIsExact(plan, reached);
    KeptIsExact(store.objects, store.packs);
    r := Ok(Report(freed, removed, ReportedKept(plan, reached, last == Cancelled), last == Cancelled));
  }
}
