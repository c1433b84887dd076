/** Collapsing transparent entries: one forward pass that also validates append order. */
module StableProjection {
  import opened Wrappers
  import opened SessionGraph

  /** A stable entry whose `parent` is its nearest stable ancestor. */
  type Coordinate = Entry

  datatype Projection = Projection(
    nearest: map<string, Option<string>>,
    stableParent: map<string, Option<string>>,
    coordinates: seq<Coordinate>)

  datatype ProjectionError = RepeatedId | UnknownOrForwardParent

  function ParentIn(log: seq<Entry>, i: nat): (p: Option<nat>)
    requires WellFormed(log) && i < |log|
    ensures p.Some? <==> log[i].parent.Some?
    ensures p.Some? ==> p.value < i && log[p.value].id == log[i].parent.value
  {
    WellFormedMeans(log);
    ParentAt(log, i)
  }

  /** Root-to-entry path in the raw log. */
  function RawPath(log: seq<Entry>, i: nat): seq<Entry>
    requires WellFormed(log) && i < |log|
    decreases i
  {
    (match ParentIn(log, i)
     case None => []
     case Some(p) => RawPath(log, p)) + [log[i]]
  }

  /** Ids of a path with the transparent entries filtered out. */
  function StableIds(path: seq<Entry>): seq<string> {
    if path == [] then []
    else
      var last := path[|path| - 1];
      StableIds(path[..|path| - 1]) + if IsTransparent(last) then [] else [last.id]
  }

  /** Exactly the labels are filtered out. */
  lemma {:induction false} StableIdsSkipLabels(path: seq<Entry>)
    ensures forall id :: id in StableIds(path) <==> exists e :: e in path && e.id == id && e.kind != "label"
  {
    if path != [] {
      StableIdsSkipLabels(path[..|path| - 1]);
      assert path == path[..|path| - 1] + [path[|path| - 1]];
    }
  }

  function StablePath(log: seq<Entry>, i: nat): seq<string>
    requires WellFormed(log) && i < |log|
  {
    StableIds(RawPath(log, i))
  }

  /** The stable path above an entry. */
  function PathAbove(log: seq<Entry>, i: nat): seq<string>
    requires WellFormed(log) && i < |log|
  {
    match ParentIn(log, i) case None => [] case Some(p) => StablePath(log, p)
  }

  lemma StablePathStep(log: seq<Entry>, i: nat)
    requires WellFormed(log) && i < |log|
    ensures StablePath(log, i) == PathAbove(log, i) + if IsTransparent(log[i]) then [] else [log[i].id]
  {
    var path := RawPath(log, i);
    var above := match ParentIn(log, i) case None => [] case Some(p) => RawPath(log, p);
    assert path == above + [log[i]];
    assert path[..|path| - 1] == above && StableIds(above) == PathAbove(log, i);
  }

  function LastOf(path: seq<string>): Option<string> {
    if path == [] then None else Some(path[|path| - 1])
  }

  /** The nearest stable id above an entry, once its parent has been projected. */
  function Above(nearest: map<string, Option<string>>, e: Entry): Option<string>
    requires e.parent.Some? ==> e.parent.value in nearest
  {
    if e.parent.None? then None else nearest[e.parent.value]
  }

  /** What one pass establishes for each entry it has read. */
  ghost predicate Projected(p: Projection, e: Entry) {
    && (e.parent.Some? ==> e.parent.value in p.nearest)
    && e.id in p.nearest
    && p.nearest[e.id] == (if IsTransparent(e) then Above(p.nearest, e) else Some(e.id))
    && (!IsTransparent(e) ==> e.id in p.stableParent && p.stableParent[e.id] == Above(p.nearest, e))
  }

  ghost predicate Projects(p: Projection, log: seq<Entry>) {
    && (forall id {:trigger HasId(log, id)} :: id in p.nearest <==> HasId(log, id))
    && (forall j :: 0 <= j < |log| ==> Projected(p, log[j]))
    && p.coordinates == Coordinates(log, p.nearest)
  }

  function Coordinates(log: seq<Entry>, nearest: map<string, Option<string>>): seq<Coordinate>
    requires forall j :: 0 <= j < |log| && log[j].parent.Some? ==> log[j].parent.value in nearest
  {
    if log == [] then []
    else
      var last := log[|log| - 1];
      Coordinates(log[..|log| - 1], nearest)
      + if IsTransparent(last) then [] else [last.(parent := Above(nearest, last))]
  }

  lemma {:induction false} CoordinatesExtend(log: seq<Entry>, small: map<string, Option<string>>, large: map<string, Option<string>>)
    requires forall j :: 0 <= j < |log| && log[j].parent.Some? ==> log[j].parent.value in small
    requires forall id :: id in small ==> id in large && large[id] == small[id]
    ensures Coordinates(log, small) == Coordinates(log, large)
  {
    if log != [] { CoordinatesExtend(log[..|log| - 1], small, large); }
  }

  /** The state after reading one more entry. */
  function Read(p: Projection, e: Entry): Projection
    requires e.parent.Some? ==> e.parent.value in p.nearest
  {
    var above := Above(p.nearest, e);
    if IsTransparent(e) then p.(nearest := p.nearest[e.id := above])
    else Projection(p.nearest[e.id := Some(e.id)], p.stableParent[e.id := above],
                    p.coordinates + [e.(parent := above)])
  }

  lemma ReadKeepsProjected(p: Projection, e: Entry, seen: Entry)
    requires e.id !in p.nearest && (e.parent.Some? ==> e.parent.value in p.nearest)
    requires Projected(p, seen)
    ensures Projected(Read(p, e), seen)
  {
  }

  lemma ReadProjects(p: Projection, log: seq<Entry>, e: Entry)
    requires Projects(p, log) && e.id !in p.nearest
    requires e.parent.Some? ==> e.parent.value in p.nearest
    ensures Projects(Read(p, e), log + [e])
  {
    var next, longer := Read(p, e), log + [e];
    forall j | 0 <= j < |longer| ensures Projected(next, longer[j]) {
      if j < |log| {
        assert longer[j] == log[j];
        ReadKeepsProjected(p, e, log[j]);
      }
    }
    CoordinatesExtend(log, p.nearest, next.nearest);
    assert longer[..|log|] == log && longer[|log|] == e;
    assert next.coordinates == Coordinates(longer, next.nearest);
    forall id ensures id in next.nearest <==> HasId(longer, id) {
      if HasId(log, id) { var x :| x in log && x.id == id; assert x in longer; }
      assert e in longer;
    }
  }

  lemma DistinctStep(log: seq<Entry>, e: Entry)
    requires DistinctIds(log)
    ensures DistinctIds(log + [e]) <==> !HasId(log, e.id)
  {
    var longer := log + [e];
    if !HasId(log, e.id) {
      forall j | 0 <= j < |log| ensures longer[j].id != e.id { assert log[j] in log; }
    } else {
      var x :| x in log && x.id == e.id;
      var j :| 0 <= j < |log| && log[j] == x;
      assert longer[j].id == longer[|log|].id;
    }
  }

  /** Whether an entry's parent comes before it does not depend on what follows. */
  lemma ParentBeforePrefix(log: seq<Entry>, n: nat, j: nat)
    requires j < n <= |log|
    ensures ParentBefore(log[..n], j) <==> ParentBefore(log, j)
  {
    assert log[..n][..j] == log[..j];
  }

  lemma WellFormedStep(log: seq<Entry>, i: nat)
    requires i < |log| && WellFormed(log[..i])
    ensures WellFormed(log[..i + 1]) <==> !HasId(log[..i], log[i].id) && ParentBefore(log, i)
  {
    var next := log[..i + 1];
    assert next == log[..i] + [log[i]];
    DistinctStep(log[..i], log[i]);
    ParentBeforePrefix(log, i + 1, i);
    forall j | 0 <= j < i ensures ParentBefore(next, j) {
      ParentBeforePrefix(log, i, j);
      ParentBeforePrefix(log, i + 1, j);
    }
  }

  lemma WellFormedNeedsPrefix(log: seq<Entry>, i: nat)
    requires i <= |log|
    ensures WellFormed(log) ==> WellFormed(log[..i])
  {
    if WellFormed(log) {
      forall j | 0 <= j < i ensures ParentBefore(log[..i], j) { ParentBeforePrefix(log, i, j); }
    }
  }

  /** One entry of the pass: refuse a repeated id and a parent not read before. */
  method ReadNext(p: Projection, log: seq<Entry>, i: nat) returns (r: Result<Projection, ProjectionError>)
    requires i < |log| && WellFormed(log[..i]) && Projects(p, log[..i])
    ensures r.Ok? <==> WellFormed(log[..i + 1])
    ensures r.Ok? ==> Projects(r.value, log[..i + 1])
  {
    var e := log[i];
    WellFormedStep(log, i);
    if e.id in p.nearest { return Err(RepeatedId); }
    if e.parent.Some? && e.parent.value !in p.nearest { return Err(UnknownOrForwardParent); }
    ReadProjects(p, log[..i], e);
    assert log[..i + 1] == log[..i] + [e];
    return Ok(Read(p, e));
  }

  /** The projection accepts exactly the logs the validator accepts. */
  method ProjectStableGraph(log: seq<Entry>) returns (r: Result<Projection, ProjectionError>)
    ensures r.Ok? <==> WellFormed(log)
    ensures r.Ok? ==> Projects(r.value, log)
  {
    var p := Projection(map[], map[], []);
    for i := 0 to |log|
      invariant WellFormed(log[..i]) && Projects(p, log[..i])
    {
      WellFormedNeedsPrefix(log, i + 1);
      var next := ReadNext(p, log, i);
      if next.Err? { return next; }
      p := next.value;
    }
    assert log[..|log|] == log;
    return Ok(p);
  }

  /** A projected entry's nearest stable id ends its stable path. */
  lemma {:induction false} NearestEndsPath(p: Projection, log: seq<Entry>, i: nat)
    requires WellFormed(log) && Projects(p, log) && i < |log|
    ensures log[i].id in p.nearest && p.nearest[log[i].id] == LastOf(StablePath(log, i))
    ensures Above(p.nearest, log[i]) == LastOf(PathAbove(log, i))
    decreases i
  {
    assert Projected(p, log[i]);
    StablePathStep(log, i);
    if ParentIn(log, i).Some? {
      NearestEndsPath(p, log, ParentIn(log, i).value);
    }
  }

  /** A non-empty stable path is the path of the stable entry it ends at. */
  lemma {:induction false} PathOfItsEnd(log: seq<Entry>, i: nat) returns (m: nat)
    requires WellFormed(log) && i < |log| && StablePath(log, i) != []
    ensures m <= i && !IsTransparent(log[m])
    ensures Some(log[m].id) == LastOf(StablePath(log, i)) && StablePath(log, m) == StablePath(log, i)
    decreases i
  {
    StablePathStep(log, i);
    if IsTransparent(log[i]) {
      m := PathOfItsEnd(log, ParentIn(log, i).value);
    } else {
      m := i;
    }
  }

  function Reverse(s: seq<string>): seq<string> {
    if s == [] then [] else Reverse(s[1..]) + [s[0]]
  }

  lemma {:induction false} ReverseAppend(s: seq<string>, x: string)
    ensures Reverse(s + [x]) == [x] + Reverse(s)
  {
    if s != [] {
      assert (s + [x])[1..] == s[1..] + [x];
      ReverseAppend(s[1..], x);
    }
  }

  /** One step of the ancestry walk peels the last id off a stable path. */
  lemma WalkStep(p: Projection, log: seq<Entry>, k: nat, current: string) returns (above: seq<string>, next: nat)
    requires WellFormed(log) && Projects(p, log) && k < |log|
    requires LastOf(StablePath(log, k)) == Some(current)
    ensures StablePath(log, k) == above + [current]
    ensures current in p.stableParent && p.stableParent[current] == LastOf(above)
    ensures above != [] ==> next < |log| && StablePath(log, next) == above
  {
    var m := PathOfItsEnd(log, k);
    assert Projected(p, log[m]);
    NearestEndsPath(p, log, m);
    StablePathStep(log, m);
    above := PathAbove(log, m);
    next := match ParentIn(log, m) case None => 0 case Some(q) => q;
  }

  lemma PeelLast(rest: seq<string>, above: seq<string>, id: string, reversed: seq<string>)
    requires rest == above + [id]
    ensures above + Reverse(reversed + [id]) == rest + Reverse(reversed)
  {
    ReverseAppend(reversed, id);
    assert above + ([id] + Reverse(reversed)) == (above + [id]) + Reverse(reversed);
  }

  method WalkUp(p: Projection, start: Option<string>, ghost log: seq<Entry>, ghost i: nat) returns (path: seq<string>)
    requires WellFormed(log) && Projects(p, log) && i < |log|
    requires start == LastOf(StablePath(log, i))
    ensures path == StablePath(log, i)
  {
    var current := start;
    var reversed: seq<string> := [];
    ghost var goal := StablePath(log, i);
    ghost var rest := goal;
    ghost var k: nat := i;
    while current.Some?
      invariant rest + Reverse(reversed) == goal
      invariant current == LastOf(rest)
      invariant rest != [] ==> k < |log| && StablePath(log, k) == rest
      decreases |rest|
    {
      var id := current.value;
      ghost var above;
      above, k := WalkStep(p, log, k, id);
      PeelLast(rest, above, id, reversed);
      rest := above;
      reversed := reversed + [id];
      current := p.stableParent[id];
    }
    return Reverse(reversed);
  }

  /** The walk up the stable parents: absent entries have no ancestry, the root has an empty one. */
  method StableAncestryIds(p: Projection, entryId: Option<string>, ghost log: seq<Entry>)
    returns (r: Option<seq<string>>)
    requires WellFormed(log) && Projects(p, log)
    ensures entryId.None? ==> r == Some([])
    ensures entryId.Some? && !HasId(log, entryId.value) ==> r == None
    ensures entryId.Some? && HasId(log, entryId.value) ==>
              r == Some(StablePath(log, IndexOf(log, entryId.value)))
    ensures entryId.Some? && HasId(log, entryId.value) ==>
              forall id :: id in r.value <==>
                exists e :: e in RawPath(log, IndexOf(log, entryId.value)) && e.id == id && e.kind != "label"
  {
    if entryId.None? { return Some([]); }
    if entryId.value !in p.nearest { return None; }
    ghost var i := IndexOf(log, entryId.value);
    NearestEndsPath(p, log, i);
    var path := WalkUp(p, p.nearest[entryId.value], log, i);
    StableIdsSkipLabels(RawPath(log, i));
    return Some(path);
  }
}
