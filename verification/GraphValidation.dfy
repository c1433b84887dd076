/** The index-based validator: a three-colour walk over one parent array. */
module GraphValidation {
  import opened Wrappers
  import opened Sequences
  import opened SessionGraph

  datatype GraphError = DuplicateId | OrphanedParent | ParentCycle | ParentFollowsChild

  type Colour = c: nat | c <= 2

  /** Ids seen so far, by position. */
  method IndexEntries(log: seq<Entry>) returns (r: Option<map<string, nat>>)
    ensures r.None? <==> !DistinctIds(log)
    ensures r.Some? ==> forall id :: id in r.value <==> HasId(log, id)
    ensures r.Some? ==> forall id :: id in r.value ==> r.value[id] == IndexOf(log, id)
  {
    var index: map<string, nat> := map[];
    for i := 0 to |log|
      invariant DistinctIds(log[..i])
      invariant forall j :: 0 <= j < i ==> log[j].id in index && index[log[j].id] == j
      invariant forall id :: id in index ==> index[id] < i && log[index[id]].id == id
    {
      if log[i].id in index {
        assert log[index[log[i].id]].id == log[i].id;
        return None;
      }
      index := index[log[i].id := i];
    }
    assert log[..|log|] == log;
    forall id ensures id in index <==> HasId(log, id) {
      if id in index { assert log[index[id]] in log; }
    }
    forall id | id in index ensures index[id] == IndexOf(log, id) {
      IndexOfDistinct(log, index[id]);
    }
    return Some(index);
  }

  /** One-based parent positions, zero for a root. */
  ghost predicate ParentArray(log: seq<Entry>, parents: seq<nat>) {
    && ParentsKnown(log) && |parents| == |log|
    && forall i :: 0 <= i < |log| ==>
         match ParentAt(log, i) case None => parents[i] == 0 case Some(p) => parents[i] == p + 1
  }

  method CollectParents(log: seq<Entry>, index: map<string, nat>) returns (r: Option<array<nat>>)
    requires forall id :: id in index <==> HasId(log, id)
    requires forall id :: id in index ==> index[id] == IndexOf(log, id)
    ensures r.None? <==> !ParentsKnown(log)
    ensures r.Some? ==> fresh(r.value) && ParentArray(log, r.value[..])
  {
    var parents := new nat[|log|](_ => 0);
    for i := 0 to |log|
      invariant forall j :: 0 <= j < i && log[j].parent.Some? ==> HasId(log, log[j].parent.value)
      invariant forall j :: 0 <= j < i ==>
                  match ParentAt(log, j) case None => parents[j] == 0 case Some(p) => parents[j] == p + 1
      invariant forall j :: i <= j < |log| ==> parents[j] == 0
    {
      if log[i].parent.Some? {
        if log[i].parent.value !in index { return None; }
        parents[i] := index[log[i].parent.value] + 1;
      }
    }
    return Some(parents);
  }

  /** Completed entries have completed parents of lower rank. */
  ghost predicate Settled(log: seq<Entry>, colours: seq<Colour>, rank: seq<nat>)
    requires |colours| == |rank| == |log|
  {
    forall k :: 0 <= k < |log| && colours[k] == 2 && ParentAt(log, k).Some? ==>
      var p := ParentAt(log, k).value;
      p < |log| && colours[p] == 2 && rank[p] < rank[k]
  }

  ghost predicate InRange(log: seq<Entry>, path: seq<nat>) {
    forall j :: 0 <= j < |path| ==> path[j] < |log|
  }

  /** The walked path follows parent links and holds exactly the entries being visited. */
  ghost predicate Walking(log: seq<Entry>, colours: seq<Colour>, path: seq<nat>)
    requires |colours| == |log|
  {
    && InRange(log, path)
    && (forall k :: 0 <= k < |log| ==> (colours[k] == 1 <==> k in path))
    && (forall j :: 0 <= j < |path| - 1 ==> ParentAt(log, path[j]) == Some(path[j + 1]))
  }

  lemma {:induction false} ClimbAlongPath(log: seq<Entry>, path: seq<nat>, j: nat, m: nat)
    requires ParentsKnown(log) && j + m < |path| && InRange(log, path)
    requires forall k :: 0 <= k < |path| - 1 ==> ParentAt(log, path[k]) == Some(path[k + 1])
    ensures Climb(log, path[j], m) == Some(path[j + m])
    decreases m
  {
    if m > 0 { ClimbAlongPath(log, path, j + 1, m - 1); }
  }

  lemma {:induction false} ClimbOneMore(log: seq<Entry>, i: nat, n: nat, k: nat)
    requires ParentsKnown(log) && i < |log| && Climb(log, i, n) == Some(k) && k < |log|
    ensures Climb(log, i, n + 1) == ParentAt(log, k)
    decreases n
  {
    if n > 0 { ClimbOneMore(log, ParentAt(log, i).value, n - 1, k); }
  }

  /** Meeting an entry that is being visited closes a cycle. */
  lemma VisitedAgainIsCycle(log: seq<Entry>, path: seq<nat>, next: nat)
    requires ParentsKnown(log) && path != [] && InRange(log, path)
    requires forall j :: 0 <= j < |path| - 1 ==> ParentAt(log, path[j]) == Some(path[j + 1])
    requires ParentAt(log, path[|path| - 1]) == Some(next) && next in path
    ensures HasCycle(log)
  {
    var j :| 0 <= j < |path| && path[j] == next;
    ClimbAlongPath(log, path, j, |path| - 1 - j);
    ClimbOneMore(log, next, |path| - 1 - j, path[|path| - 1]);
    assert Climb(log, next, |path| - j) == Some(next);
  }

  method ValidateEntryGraph(log: seq<Entry>) returns (r: Option<GraphError>)
    ensures r == Some(DuplicateId) <==> !DistinctIds(log)
    ensures r == Some(OrphanedParent) <==> DistinctIds(log) && !ParentsKnown(log)
    ensures r == Some(ParentCycle) <==> DistinctIds(log) && ParentsKnown(log) && HasCycle(log)
    ensures r.None? <==> WellFormed(log)
  {
    WellFormedMeans(log);
    var index := IndexEntries(log);
    if index.None? { return Some(DuplicateId); }
    var parents := CollectParents(log, index.value);
    if parents.None? { return Some(OrphanedParent); }
    OrderedHasNoCycle(log);
    var cyclic := FindCycle(log, parents.value);
    if cyclic { return Some(ParentCycle); }
    var forward := FindForwardParent(log, parents.value);
    return if forward then Some(ParentFollowsChild) else None;
  }

  method FindForwardParent(log: seq<Entry>, parents: array<nat>) returns (forward: bool)
    requires ParentArray(log, parents[..])
    ensures forward <==> HasForwardParent(log)
  {
    for i := 0 to |log|
      invariant forall j :: 0 <= j < i && ParentAt(log, j).Some? ==> ParentAt(log, j).value < j
    {
      assert parents[..][i] == parents[i];
      if parents[i] != 0 && parents[i] - 1 >= i { return true; }
    }
    return false;
  }

  method FindCycle(log: seq<Entry>, parents: array<nat>) returns (cyclic: bool)
    requires ParentArray(log, parents[..])
    ensures cyclic <==> HasCycle(log)
  {
    var colours := new Colour[|log|](_ => 0);
    ghost var rank: seq<nat> := seq(|log|, _ => 0);
    for start := 0 to |log|
      invariant |rank| == |log| && Settled(log, colours[..], rank)
      invariant forall k :: 0 <= k < |log| ==> colours[k] != 1
      invariant forall k :: 0 <= k < start ==> colours[k] == 2
    {
      if colours[start] == 0 {
        var path, next := Walk(log, parents, colours, start, rank);
        if next.Some? && colours[next.value] == 1 {
          VisitedAgainIsCycle(log, path, next.value);
          return true;
        }
        rank := Complete(log, colours, path, next, rank);
      }
    }
    RankedHasNoCycle(log, rank);
    return false;
  }

  /** Marking the next unseen entry extends the walked path. */
  lemma VisitKeeps(log: seq<Entry>, colours: seq<Colour>, path: seq<nat>, i: nat, rank: seq<nat>)
    requires ParentsKnown(log) && |colours| == |log| == |rank| && i < |log| && colours[i] == 0
    requires Walking(log, colours, path) && Settled(log, colours, rank) && NoDuplicates(path)
    requires path != [] ==> ParentAt(log, path[|path| - 1]) == Some(i)
    ensures Walking(log, colours[i := 1], path + [i]) && Settled(log, colours[i := 1], rank) && NoDuplicates(path + [i])
  {
    var longer := path + [i];
    assert i !in path;
    forall k | 0 <= k < |log| ensures colours[i := 1][k] == 1 <==> k in longer {
      assert k in longer <==> k in path || k == i;
    }
  }

  /** Follow unseen parents from `start`; stop at a root or at an entry already seen. */
  method Walk(log: seq<Entry>, parents: array<nat>, colours: array<Colour>, start: nat, ghost rank: seq<nat>)
    returns (path: seq<nat>, next: Option<nat>)
    requires ParentArray(log, parents[..]) && colours.Length == |log| == |rank|
    requires start < |log| && colours[start] == 0
    requires Settled(log, colours[..], rank) && forall k :: 0 <= k < |log| ==> colours[k] != 1
    modifies colours
    ensures path != [] && path[0] == start && Walking(log, colours[..], path)
    ensures NoDuplicates(path)
    ensures ParentAt(log, path[|path| - 1]) == next
    ensures next.Some? ==> next.value < |log| && colours[next.value] != 0
    ensures Settled(log, colours[..], rank)
    ensures forall k :: 0 <= k < |log| && old(colours[k]) == 2 ==> colours[k] == 2
    ensures forall k :: 0 <= k < |log| && colours[k] == 2 ==> old(colours[k]) == 2
  {
    path := [];
    next := Some(start);
    ghost var unseen := set k | 0 <= k < |log| && colours[k] == 0;
    while next.Some? && colours[next.value] == 0
      invariant next.Some? ==> next.value < |log|
      invariant unseen == set k | 0 <= k < |log| && colours[k] == 0
      invariant Walking(log, colours[..], path) && Settled(log, colours[..], rank)
      invariant NoDuplicates(path)
      invariant path == [] ==> next == Some(start) && colours[start] == 0
      invariant path != [] ==> path[0] == start && ParentAt(log, path[|path| - 1]) == next
      invariant forall k :: 0 <= k < |log| ==> (old(colours[k]) == 2 <==> colours[k] == 2)
      decreases unseen
    {
      var i := next.value;
      VisitKeeps(log, colours[..], path, i, rank);
      ghost var before := colours[..];
      colours[i] := 1;
      assert colours[..] == before[i := 1];
      path := path + [i];
      assert parents[..][i] == parents[i];
      next := if parents[i] == 0 then None else Some(parents[i] - 1);
      unseen := unseen - {i};
    }
  }

  /** The path ends at a root or a completed entry, so all of it completes. */
  method Complete(log: seq<Entry>, colours: array<Colour>, path: seq<nat>, next: Option<nat>, ghost rank: seq<nat>)
    returns (ghost ranked: seq<nat>)
    requires colours.Length == |log| == |rank| && path != []
    requires Walking(log, colours[..], path) && Settled(log, colours[..], rank)
    requires NoDuplicates(path)
    requires path[|path| - 1] < |log| && ParentAt(log, path[|path| - 1]) == next
    requires next.Some? ==> next.value < |log| && colours[next.value] == 2
    modifies colours
    ensures |ranked| == |log| && Settled(log, colours[..], ranked)
    ensures forall k :: 0 <= k < |log| ==> colours[k] == if k in path then 2 else old(colours[k])
  {
    ghost var base := if next.Some? then rank[next.value] + 1 else 0;
    for j := 0 to |path|
      invariant forall k :: 0 <= k < |log| ==> colours[k] == if k in path[..j] then 2 else old(colours[k])
    {
      colours[path[j]] := 2;
      assert path[..j + 1] == path[..j] + [path[j]];
    }
    assert path[..|path|] == path;
    ranked := RankPath(log, path, rank, base);
    forall k | 0 <= k < |log| && colours[..][k] == 2 && ParentAt(log, k).Some?
      ensures var p := ParentAt(log, k).value; p < |log| && colours[..][p] == 2 && ranked[p] < ranked[k]
    {
      if k in path {
        var j :| 0 <= j < |path| && path[j] == k;
        assert j + 1 < |path| ==> ParentAt(log, k).value == path[j + 1] && path[j + 1] in path;
      } else {
        assert old(colours[..])[k] == 2;
        assert old(colours[..])[ParentAt(log, k).value] == 2;
      }
    }
  }

  /** Ranks rise from the end of the path to its start, above the entry it meets. */
  ghost function RankPath(log: seq<Entry>, path: seq<nat>, rank: seq<nat>, base: nat): (r: seq<nat>)
    requires |rank| == |log| && InRange(log, path)
    requires NoDuplicates(path)
    ensures |r| == |rank|
    ensures forall j :: 0 <= j < |path| ==> r[path[j]] == base + |path| - 1 - j
    ensures forall k :: 0 <= k < |rank| && k !in path ==> r[k] == rank[k]
  {
    if path == [] then rank
    else
      assert forall j :: 0 <= j < |path[1..]| ==> path[1..][j] == path[j + 1];
      RankPath(log, path[1..], rank, base)[path[0] := base + |path| - 1]
  }
}
