/** Flattening failures whose aggregates may nest in cycles. */
module FailureSettlement {
  /** An aggregate is known by its identity; its members are looked up in the graph. */
  datatype Failure = Plain(id: nat) | Aggregate(node: nat)

  type Graph = map<nat, seq<Failure>>

  predicate Known(g: Graph, f: Failure) {
    f.Aggregate? ==> f.node in g
  }

  ghost predicate Closed(g: Graph) {
    forall n, f :: n in g && f in g[n] ==> Known(g, f)
  }

  /** Whether the descent to the first member goes on from `f`. */
  predicate Descends(g: Graph, f: Failure, visited: set<nat>)
    requires Known(g, f)
  {
    f.Aggregate? && g[f.node] != [] && g[f.node][0] != f && f.node !in visited
  }

  function Primary(g: Graph, f: Failure, visited: set<nat>): Failure
    requires Closed(g) && Known(g, f)
    decreases g.Keys - visited
  {
    if Descends(g, f, visited) then Primary(g, g[f.node][0], visited + {f.node}) else f
  }

  method PrimaryFailure(g: Graph, f: Failure) returns (primary: Failure)
    requires Closed(g) && Known(g, f)
    ensures primary == Primary(g, f, {})
  {
    primary := f;
    var visited: set<nat> := {};
    while Descends(g, primary, visited)
      invariant Known(g, primary)
      invariant Primary(g, f, {}) == Primary(g, primary, visited)
      decreases g.Keys - visited
    {
      visited := visited + {primary.node};
      primary := g[primary.node][0];
    }
  }

  datatype Flattened = Flattened(failures: seq<Failure>, visited: set<nat>)

  /** What one failure contributes, and the aggregates expanded so far. */
  function Append(g: Graph, f: Failure, visited: set<nat>): (r: Flattened)
    requires Closed(g) && Known(g, f)
    ensures visited <= r.visited
    decreases g.Keys - visited, 0
  {
    if f.Plain? || f.node in visited then Flattened([f], visited)
    else if g[f.node] == [] then Flattened([f], visited + {f.node})
    else AppendEach(g, f, g[f.node], visited + {f.node})
  }

  function AppendEach(g: Graph, owner: Failure, members: seq<Failure>, visited: set<nat>): (r: Flattened)
    requires Closed(g) && forall m :: m in members ==> Known(g, m)
    ensures visited <= r.visited
    decreases g.Keys - visited, 1 + |members|
  {
    if members == [] then Flattened([], visited)
    else
      var first := if members[0] == owner then Flattened([owner], visited) else Append(g, members[0], visited);
      var rest := AppendEach(g, owner, members[1..], first.visited);
      Flattened(first.failures + rest.failures, rest.visited)
  }

  function AppendAll(g: Graph, failures: seq<Failure>, visited: set<nat>): Flattened
    requires Closed(g) && forall f :: f in failures ==> Known(g, f)
  {
    if failures == [] then Flattened([], visited)
    else
      var last := failures[|failures| - 1];
      var front := AppendAll(g, failures[..|failures| - 1], visited);
      var next := Append(g, last, front.visited);
      Flattened(front.failures + next.failures, next.visited)
  }

  /** The recursive walk with its shared visited set and output list. */
  method AppendFailure(g: Graph, f: Failure, failures: seq<Failure>, visited: set<nat>)
    returns (out: seq<Failure>, seen: set<nat>)
    requires Closed(g) && Known(g, f)
    ensures out == failures + Append(g, f, visited).failures && seen == Append(g, f, visited).visited
    decreases g.Keys - visited
  {
    if f.Plain? || f.node in visited { return failures + [f], visited; }
    out, seen := failures, visited + {f.node};
    if g[f.node] == [] { return failures + [f], seen; }
    var members := g[f.node];
    ghost var goal := Append(g, f, visited);
    assert members[0..] == members;
    for i := 0 to |members|
      invariant visited + {f.node} <= seen
      invariant out + AppendEach(g, f, members[i..], seen).failures == failures + goal.failures
      invariant AppendEach(g, f, members[i..], seen).visited == goal.visited
    {
      assert members[i..][1..] == members[i + 1..];
      if members[i] == f {
        out := out + [f];
      } else {
        out, seen := AppendFailure(g, members[i], out, seen);
      }
    }
  }

  /** The members of the aggregate the source throws, and its cause. */
  method AggregateFailures(g: Graph, failures: seq<Failure>) returns (flattened: seq<Failure>)
    requires Closed(g) && forall f :: f in failures ==> Known(g, f)
    ensures flattened == AppendAll(g, failures, {}).failures
  {
    flattened := [];
    var visited: set<nat> := {};
    for i := 0 to |failures|
      invariant Flattened(flattened, visited) == AppendAll(g, failures[..i], {})
    {
      assert failures[..i + 1][..i] == failures[..i];
      flattened, visited := AppendFailure(g, failures[i], flattened, visited);
    }
    assert failures[..|failures|] == failures;
  }

  /** The first thing a failure flattens to is its primary failure. */
  lemma {:induction false} AppendStartsWithPrimary(g: Graph, f: Failure, visited: set<nat>)
    requires Closed(g) && Known(g, f)
    ensures Append(g, f, visited).failures != []
    ensures Append(g, f, visited).failures[0] == Primary(g, f, visited)
    decreases g.Keys - visited
  {
    if Descends(g, f, visited) {
      AppendStartsWithPrimary(g, g[f.node][0], visited + {f.node});
    }
  }

  lemma {:induction false} AppendAllStartsWithFirst(g: Graph, failures: seq<Failure>)
    requires Closed(g) && failures != [] && forall f :: f in failures ==> Known(g, f)
    ensures AppendAll(g, failures, {}).failures != []
    ensures AppendAll(g, failures, {}).failures[0] == Primary(g, failures[0], {})
  {
    var front := failures[..|failures| - 1];
    if front == [] {
      AppendStartsWithPrimary(g, failures[0], {});
    } else {
      assert front[0] == failures[0];
      AppendAllStartsWithFirst(g, front);
    }
  }

  // ---- Nothing reachable is lost ----

  /** Members of newly expanded aggregates are either listed or expanded themselves. */
  ghost predicate Kept(g: Graph, m: Failure, r: Flattened) {
    if m.Plain? then m in r.failures else m.node in r.visited
  }

  ghost predicate Expanded(g: Graph, before: set<nat>, r: Flattened) {
    forall n, m :: n in r.visited - before && n in g && m in g[n] ==> Kept(g, m, r)
  }

  lemma {:induction false} AppendKeeps(g: Graph, f: Failure, visited: set<nat>)
    requires Closed(g) && Known(g, f)
    ensures Kept(g, f, Append(g, f, visited)) && Expanded(g, visited, Append(g, f, visited))
    decreases g.Keys - visited, 0
  {
    if f.Aggregate? && f.node !in visited && g[f.node] != [] {
      AppendEachKeeps(g, f, g[f.node], visited + {f.node});
    }
  }

  lemma {:induction false} AppendEachKeeps(g: Graph, owner: Failure, members: seq<Failure>, visited: set<nat>)
    requires Closed(g) && forall m :: m in members ==> Known(g, m)
    requires owner.Aggregate? && owner.node in visited
    ensures forall m :: m in members ==> Kept(g, m, AppendEach(g, owner, members, visited))
    ensures Expanded(g, visited, AppendEach(g, owner, members, visited))
    decreases g.Keys - visited, 1 + |members|
  {
    if members != [] {
      var first := if members[0] == owner then Flattened([owner], visited) else Append(g, members[0], visited);
      if members[0] != owner { AppendKeeps(g, members[0], visited); }
      AppendEachKeeps(g, owner, members[1..], first.visited);
      var r := AppendEach(g, owner, members, visited);
      assert Kept(g, members[0], r);
      assert members == [members[0]] + members[1..];
      forall n, m | n in r.visited - visited && n in g && m in g[n] ensures Kept(g, m, r) {
        if n in first.visited {
          assert Kept(g, m, first);
        } else {
          assert Kept(g, m, AppendEach(g, owner, members[1..], first.visited));
        }
      }
    }
  }

  lemma {:induction false} AppendAllKeeps(g: Graph, failures: seq<Failure>)
    requires Closed(g) && forall f :: f in failures ==> Known(g, f)
    ensures forall f :: f in failures ==> Kept(g, f, AppendAll(g, failures, {}))
    ensures Expanded(g, {}, AppendAll(g, failures, {}))
  {
    if failures != [] {
      var front, last := failures[..|failures| - 1], failures[|failures| - 1];
      AppendAllKeeps(g, front);
      var before := AppendAll(g, front, {});
      AppendKeeps(g, last, before.visited);
      var next := Append(g, last, before.visited);
      var r := AppendAll(g, failures, {});
      assert failures == front + [last];
      forall f | f in failures ensures Kept(g, f, r) {
        if f in front { assert Kept(g, f, before); }
      }
      forall n, m | n in r.visited && n in g && m in g[n] ensures Kept(g, m, r) {
        if n in before.visited { assert Kept(g, m, before); } else { assert Kept(g, m, next); }
      }
    }
  }

  /** `f` is reached from `start` by following members. */
  ghost predicate Reaches(g: Graph, start: Failure, f: Failure, steps: nat)
    decreases steps
  {
    if steps == 0 then f == start
    else start.Aggregate? && start.node in g && exists m :: m in g[start.node] && Reaches(g, m, f, steps - 1)
  }

  lemma {:induction false} ReachableKept(g: Graph, r: Flattened, start: Failure, f: Failure, steps: nat)
    requires Expanded(g, {}, r) && Kept(g, start, r) && Reaches(g, start, f, steps)
    ensures Kept(g, f, r)
    decreases steps
  {
    if steps > 0 {
      var m :| m in g[start.node] && Reaches(g, m, f, steps - 1);
      ReachableKept(g, r, m, f, steps - 1);
    }
  }

  /** Every plain failure reachable from the list, through any nesting or cycle, is reported. */
  lemma FlatteningLosesNothing(g: Graph, failures: seq<Failure>, start: Failure, f: Failure, steps: nat)
    requires Closed(g) && forall x :: x in failures ==> Known(g, x)
    requires start in failures && f.Plain? && Reaches(g, start, f, steps)
    ensures f in AppendAll(g, failures, {}).failures
  {
    AppendAllKeeps(g, failures);
    ReachableKept(g, AppendAll(g, failures, {}), start, f, steps);
  }

  // ---- Nothing is invented ----

  ghost predicate Reachable(g: Graph, start: Failure, f: Failure) {
    exists steps: nat :: Reaches(g, start, f, steps)
  }

  lemma ReachesThrough(g: Graph, owner: Failure, m: Failure, f: Failure)
    requires owner.Aggregate? && owner.node in g && m in g[owner.node] && Reachable(g, m, f)
    ensures Reachable(g, owner, f)
  {
    var steps: nat :| Reaches(g, m, f, steps);
    assert Reaches(g, owner, f, steps + 1);
  }

  lemma ReachesItself(g: Graph, f: Failure)
    ensures Reachable(g, f, f)
  {
    assert Reaches(g, f, f, 0);
  }

  lemma {:induction false} AppendReaches(g: Graph, start: Failure, visited: set<nat>, f: Failure)
    requires Closed(g) && Known(g, start) && f in Append(g, start, visited).failures
    ensures Reachable(g, start, f)
    decreases g.Keys - visited, 0
  {
    if start.Plain? || start.node in visited || g[start.node] == [] {
      ReachesItself(g, start);
    } else {
      AppendEachReaches(g, start, g[start.node], visited + {start.node}, f);
    }
  }

  lemma {:induction false} AppendEachReaches(g: Graph, owner: Failure, members: seq<Failure>, visited: set<nat>, f: Failure)
    requires Closed(g) && owner.Aggregate? && owner.node in g && forall m :: m in members ==> m in g[owner.node]
    requires forall m :: m in members ==> Known(g, m)
    requires f in AppendEach(g, owner, members, visited).failures
    ensures Reachable(g, owner, f)
    decreases g.Keys - visited, 1 + |members|
  {
    if members != [] {
      var first := if members[0] == owner then Flattened([owner], visited) else Append(g, members[0], visited);
      if f !in first.failures {
        AppendEachReaches(g, owner, members[1..], first.visited, f);
      } else if members[0] == owner {
        ReachesItself(g, owner);
      } else {
        AppendReaches(g, members[0], visited, f);
        ReachesThrough(g, owner, members[0], f);
      }
    }
  }

  /** Every reported failure is reachable from the list. */
  lemma {:induction false} FlatteningInventsNothing(g: Graph, failures: seq<Failure>, f: Failure) returns (start: Failure)
    requires Closed(g) && forall x :: x in failures ==> Known(g, x)
    requires f in AppendAll(g, failures, {}).failures
    ensures start in failures && Reachable(g, start, f)
  {
    var front, last := failures[..|failures| - 1], failures[|failures| - 1];
    if f in AppendAll(g, front, {}).failures {
      start := FlatteningInventsNothing(g, front, f);
    } else {
      start := last;
      AppendReaches(g, last, AppendAll(g, front, {}).visited, f);
    }
  }

  /** The plain failures reported are exactly the reachable ones. */
  lemma FlatteningExact(g: Graph, failures: seq<Failure>, f: Failure)
    requires Closed(g) && f.Plain? && forall x :: x in failures ==> Known(g, x)
    ensures f in AppendAll(g, failures, {}).failures <==> exists start :: start in failures && Reachable(g, start, f)
  {
    if f in AppendAll(g, failures, {}).failures {
      var start := FlatteningInventsNothing(g, failures, f);
    }
    if start :| start in failures && Reachable(g, start, f) {
      var steps: nat :| Reaches(g, start, f, steps);
      FlatteningLosesNothing(g, failures, start, f, steps);
    }
  }
}
