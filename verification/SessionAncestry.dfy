/** Stable ancestries form the tree that checkpoint inheritance walks. */
module SessionAncestry {
  import opened Wrappers
  import opened Sequences
  import opened CheckpointLineage
  import opened SessionGraph
  import opened StableProjection

  ghost predicate AllStable(coords: seq<Coordinate>) {
    forall i :: 0 <= i < |coords| ==> !IsTransparent(coords[i])
  }

  function Ids(log: seq<Entry>): set<string> {
    set e | e in log :: e.id
  }

  /** Root-to-coordinate paths of a coordinate list. */
  function TreeOfCoordinates(coords: seq<Coordinate>): Ancestries
    requires WellFormed(coords)
  {
    map id | id in Ids(coords) :: assert HasId(coords, id); StablePath(coords, IndexOf(coords, id))
  }

  /** `path` is made of coordinates up to position `i`, each of whose own path is the prefix ending there. */
  ghost predicate PrefixClosed(coords: seq<Coordinate>, path: seq<string>, i: nat)
    requires WellFormed(coords)
  {
    forall j :: 0 <= j < |path| ==>
      && IndexOf(coords, path[j]) <= i < |coords|
      && StablePath(coords, IndexOf(coords, path[j])) == path[..j + 1]
  }

  lemma PrefixClosedExtends(coords: seq<Coordinate>, above: seq<string>, p: nat, i: nat, path: seq<string>)
    requires WellFormed(coords) && p < i < |coords|
    requires PrefixClosed(coords, above, p)
    requires path == above + [coords[i].id] && StablePath(coords, i) == path
    ensures PrefixClosed(coords, path, i)
  {
    IndexOfDistinct(coords, i);
    forall j | 0 <= j < |path|
      ensures IndexOf(coords, path[j]) <= i && StablePath(coords, IndexOf(coords, path[j])) == path[..j + 1]
    {
      if j < |above| {
        assert path[j] == above[j] && path[..j + 1] == above[..j + 1];
      } else {
        assert path[..j + 1] == path;
      }
    }
  }

  lemma {:induction false} PathPrefixes(coords: seq<Coordinate>, i: nat)
    requires WellFormed(coords) && AllStable(coords) && i < |coords|
    ensures StablePath(coords, i) == PathAbove(coords, i) + [coords[i].id]
    ensures PrefixClosed(coords, StablePath(coords, i), i)
    ensures ParentIn(coords, i).Some? ==> PrefixClosed(coords, PathAbove(coords, i), ParentIn(coords, i).value)
    decreases i
  {
    StablePathStep(coords, i);
    IndexOfDistinct(coords, i);
    match ParentIn(coords, i)
    case None =>
      assert StablePath(coords, i)[..1] == StablePath(coords, i);
    case Some(p) =>
      PathPrefixes(coords, p);
      PrefixClosedExtends(coords, StablePath(coords, p), p, i, StablePath(coords, i));
  }

  lemma {:induction false} PathDistinct(coords: seq<Coordinate>, i: nat)
    requires WellFormed(coords) && AllStable(coords) && i < |coords|
    ensures NoDuplicates(StablePath(coords, i))
    decreases i
  {
    PathPrefixes(coords, i);
    IndexOfDistinct(coords, i);
    if ParentIn(coords, i).Some? {
      PathDistinct(coords, ParentIn(coords, i).value);
    }
  }

  /** What inheritance assumes, for one coordinate's ancestry. */
  lemma CoordinateInTree(coords: seq<Coordinate>, tree: Ancestries, e: string)
    requires WellFormed(coords) && AllStable(coords) && tree == TreeOfCoordinates(coords) && e in tree
    ensures tree[e] != [] && tree[e][|tree[e]| - 1] == e && NoDuplicates(tree[e])
    ensures forall i :: 0 <= i < |tree[e]| ==> tree[e][i] in tree && tree[tree[e][i]] == tree[e][..i + 1]
  {
    assert HasId(coords, e);
    var k := IndexOf(coords, e);
    PathPrefixes(coords, k);
    PathDistinct(coords, k);
    var path := tree[e];
    assert path == StablePath(coords, k);
    forall i | 0 <= i < |path| ensures path[i] in tree && tree[path[i]] == path[..i + 1] {
      var c := coords[IndexOf(coords, path[i])];
      assert c in coords && c.id == path[i];
    }
  }

  /** So the ancestries of a coordinate list satisfy what inheritance assumes. */
  lemma CoordinatesAreTree(coords: seq<Coordinate>)
    requires WellFormed(coords) && AllStable(coords)
    ensures IsTree(TreeOfCoordinates(coords))
  {
    var tree := TreeOfCoordinates(coords);
    forall e | e in tree
      ensures tree[e] != [] && tree[e][|tree[e]| - 1] == e && NoDuplicates(tree[e])
      ensures forall i :: 0 <= i < |tree[e]| ==> tree[e][i] in tree && tree[tree[e][i]] == tree[e][..i + 1]
    {
      CoordinateInTree(coords, tree, e);
    }
  }

  // ---- The projection's coordinates carry exactly the filtered ancestries ----

  lemma {:induction false} CoordinatesStable(log: seq<Entry>, nearest: map<string, Option<string>>)
    requires forall j :: 0 <= j < |log| && log[j].parent.Some? ==> log[j].parent.value in nearest
    ensures AllStable(Coordinates(log, nearest))
    ensures forall id :: HasId(Coordinates(log, nearest), id) <==>
                         exists j :: 0 <= j < |log| && log[j].id == id && !IsTransparent(log[j])
  {
    if log != [] {
      var front, last := log[..|log| - 1], log[|log| - 1];
      CoordinatesStable(front, nearest);
      var coords := Coordinates(front, nearest);
      var all := Coordinates(log, nearest);
      forall id ensures HasId(all, id) <==> exists j :: 0 <= j < |log| && log[j].id == id && !IsTransparent(log[j]) {
        if HasId(coords, id) {
          var e :| e in coords && e.id == id;
          assert e in all;
          var j :| 0 <= j < |front| && front[j].id == id && !IsTransparent(front[j]);
          assert log[j] == front[j];
        }
        if id == last.id && !IsTransparent(last) {
          assert last.(parent := Above(nearest, last)) in all;
        }
        if j :| 0 <= j < |log| && log[j].id == id && !IsTransparent(log[j]) {
          if j < |front| { assert front[j] == log[j]; }
        }
      }
    }
  }

  lemma AppendWellFormed(coords: seq<Coordinate>, c: Coordinate)
    requires WellFormed(coords) && !HasId(coords, c.id)
    requires c.parent.Some? ==> HasId(coords, c.parent.value)
    ensures WellFormed(coords + [c])
  {
    assert (coords + [c])[..|coords|] == coords && (coords + [c])[..|coords| + 1] == coords + [c];
    WellFormedStep(coords + [c], |coords|);
  }

  ghost predicate ParentsProjected(p: Projection, log: seq<Entry>) {
    forall j :: 0 <= j < |log| && log[j].parent.Some? ==> log[j].parent.value in p.nearest
  }

  /** The coordinate of a stable entry is new, and its parent is an earlier coordinate. */
  lemma NewCoordinate(p: Projection, log: seq<Entry>, i: nat)
    requires WellFormed(log) && Projects(p, log) && i < |log| && ParentsProjected(p, log)
    ensures !HasId(Coordinates(log[..i], p.nearest), log[i].id)
    ensures var above := Above(p.nearest, log[i]);
            above.Some? ==> HasId(Coordinates(log[..i], p.nearest), above.value)
  {
    var front := log[..i];
    CoordinatesStable(front, p.nearest);
    NearestEndsPath(p, log, i);
    if PathAbove(log, i) != [] {
      var m := PathOfItsEnd(log, ParentIn(log, i).value);
      assert front[m] == log[m];
    }
    forall j | 0 <= j < i ensures front[j].id != log[i].id {}
  }

  /** Coordinates inherit the log's append order. */
  lemma {:induction false} CoordinatesWellFormed(p: Projection, log: seq<Entry>, n: nat)
    requires WellFormed(log) && Projects(p, log) && n <= |log| && ParentsProjected(p, log)
    ensures WellFormed(Coordinates(log[..n], p.nearest))
  {
    if n > 0 {
      CoordinatesWellFormed(p, log, n - 1);
      var coords, last := Coordinates(log[..n - 1], p.nearest), log[n - 1];
      assert log[..n][..n - 1] == log[..n - 1];
      NewCoordinate(p, log, n - 1);
      var c := last.(parent := Above(p.nearest, last));
      assert Coordinates(log[..n], p.nearest) == coords + if IsTransparent(last) then [] else [c];
      if IsTransparent(last) {
        assert Coordinates(log[..n], p.nearest) == coords;
      } else {
        AppendWellFormed(coords, c);
      }
    }
  }

  lemma {:induction false} CoordinateOf(log: seq<Entry>, nearest: map<string, Option<string>>, i: nat)
    requires forall j :: 0 <= j < |log| && log[j].parent.Some? ==> log[j].parent.value in nearest
    requires i < |log| && !IsTransparent(log[i])
    ensures log[i].(parent := Above(nearest, log[i])) in Coordinates(log, nearest)
  {
    if i < |log| - 1 { CoordinateOf(log[..|log| - 1], nearest, i); }
  }

  /** A coordinate's path in the projection is its raw ancestry without the transparent entries. */
  lemma {:induction false} ProjectionKeepsPaths(p: Projection, log: seq<Entry>, i: nat)
    requires WellFormed(log) && Projects(p, log) && i < |log| && !IsTransparent(log[i])
    requires ParentsProjected(p, log) && WellFormed(p.coordinates)
    ensures HasId(p.coordinates, log[i].id)
    ensures StablePath(p.coordinates, IndexOf(p.coordinates, log[i].id)) == StablePath(log, i)
    decreases i
  {
    var coords := p.coordinates;
    CoordinatesStable(log, p.nearest);
    CoordinateOf(log, p.nearest, i);
    var c := log[i].(parent := Above(p.nearest, log[i]));
    var k := IndexOf(coords, c.id);
    var k' :| 0 <= k' < |coords| && coords[k'] == c;
    IndexOfDistinct(coords, k');
    StablePathStep(log, i);
    StablePathStep(coords, k);
    NearestEndsPath(p, log, i);
    if c.parent.Some? {
      var m := PathOfItsEnd(log, ParentIn(log, i).value);
      ProjectionKeepsPaths(p, log, m);
      IndexOfDistinct(coords, ParentIn(coords, k).value);
    }
  }

  /** Exactly the labels are no coordinates. */
  lemma CoordinatesSkipLabels(p: Projection, log: seq<Entry>, i: nat)
    requires WellFormed(log) && Projects(p, log) && i < |log|
    ensures HasId(p.coordinates, log[i].id) <==> log[i].kind != "label"
  {
    forall j | 0 <= j < |log| ensures log[j].parent.Some? ==> log[j].parent.value in p.nearest {
      assert Projected(p, log[j]);
    }
    CoordinatesStable(log, p.nearest);
    if HasId(p.coordinates, log[i].id) {
      var j :| 0 <= j < |log| && log[j].id == log[i].id && !IsTransparent(log[j]);
      assert j == i;
    }
  }

  /** The projection of an accepted log gives inheritance a tree of filtered ancestries. */
  lemma ProjectionIsTree(p: Projection, log: seq<Entry>)
    requires WellFormed(log) && Projects(p, log)
    ensures WellFormed(p.coordinates) && IsTree(TreeOfCoordinates(p.coordinates))
    ensures forall i :: 0 <= i < |log| && !IsTransparent(log[i]) ==>
              && log[i].id in TreeOfCoordinates(p.coordinates)
              && TreeOfCoordinates(p.coordinates)[log[i].id] == StablePath(log, i)
  {
    forall j | 0 <= j < |log| ensures log[j].parent.Some? ==> log[j].parent.value in p.nearest {
      assert Projected(p, log[j]);
    }
    assert log[..|log|] == log;
    CoordinatesWellFormed(p, log, |log|);
    CoordinatesStable(log, p.nearest);
    CoordinatesAreTree(p.coordinates);
    forall i | 0 <= i < |log| && !IsTransparent(log[i])
      ensures log[i].id in TreeOfCoordinates(p.coordinates)
      ensures TreeOfCoordinates(p.coordinates)[log[i].id] == StablePath(log, i)
    {
      ProjectionKeepsPaths(p, log, i);
    }
  }
}
