/** Canonical order of a scope's ignore sources, and its adjacent duplicate check. */
module ScopeSources {
  import opened Wrappers
  import opened Sequences
  import opened Utf8Order

  datatype Source = Source(path: Text, contents: string)

  predicate AtMost(a: Source, b: Source) {
    Compare(Utf8(a.path), Utf8(b.path)) <= 0
  }

  ghost predicate SortedByPath(s: seq<Source>) {
    OrderedBy(s, AtMost)
  }

  ghost predicate DistinctPaths(s: seq<Source>) {
    forall i, j :: 0 <= i < j < |s| ==> s[i].path != s[j].path
  }

  /** Paths pass the well-formedness check before they are sorted. */
  ghost predicate PathsWellFormed(s: seq<Source>) {
    forall i :: 0 <= i < |s| ==> IsWellFormed(s[i].path)
  }

  ghost predicate NeighboursDistinct(s: seq<Source>) {
    forall i :: 0 < i < |s| ==> s[i].path != s[i - 1].path
  }

  /** No two different paths compare equal. */
  ghost predicate ToldApart(paths: iset<Text>) {
    forall p, q :: p in paths && q in paths && Scalars(p) == Scalars(q) ==> p == q
  }

  ghost predicate DrawnFrom(s: seq<Source>, paths: iset<Text>) {
    forall i :: 0 <= i < |s| ==> s[i].path in paths
  }

  /** Well-formed paths are told apart. */
  lemma WellFormedToldApart()
    ensures ToldApart(iset p: Text | IsWellFormed(p))
  {
    forall p: Text, q: Text | IsWellFormed(p) && IsWellFormed(q) && Scalars(p) == Scalars(q) ensures p == q {
      Utf16RoundTrip(p);
      Utf16RoundTrip(q);
    }
  }

  /** In sorted order, equal paths are adjacent as long as the order tells the paths apart. */
  lemma AdjacentSuffices(s: seq<Source>, paths: iset<Text>)
    requires SortedByPath(s) && DrawnFrom(s, paths) && ToldApart(paths)
    ensures DistinctPaths(s) <==> NeighboursDistinct(s)
  {
    if NeighboursDistinct(s) {
      forall i, j | 0 <= i < j < |s| ensures s[i].path != s[j].path {
        var a, b, c := Utf8(s[i].path), Utf8(s[i + 1].path), Utf8(s[j].path);
        assert s[i + 1].path != s[i].path;
        EqualExactly(s[i].path, s[i + 1].path);
        assert AtMost(s[i], s[i + 1]);
        if i + 1 < j { assert AtMost(s[i + 1], s[j]); } else { CompareSelf(b); }
        CompareTransitive(a, b, c);
        CompareSelf(a);
      }
    }
    if DistinctPaths(s) {
      forall i | 0 < i < |s| ensures s[i].path != s[i - 1].path {
        assert s[i - 1].path != s[i].path;
      }
    }
  }

  /** Three sources that the neighbour check accepts although the first and last name one path. */
  function Sandwich(p: Text, q: Text): seq<Source> {
    [Source(p, ""), Source(q, ""), Source(p, "")]
  }

  lemma SandwichPasses(p: Text, q: Text)
    requires p != q && Scalars(p) == Scalars(q)
    ensures SortedByPath(Sandwich(p, q)) && NeighboursDistinct(Sandwich(p, q)) && !DistinctPaths(Sandwich(p, q))
  {
    EqualExactly(p, q);
    EqualExactly(q, p);
    CompareSelf(Utf8(p));
    var s := Sandwich(p, q);
    assert s[0].path == s[2].path;
  }

  /** Without the well-formedness check, a lone surrogate would let a duplicate pass. */
  lemma IllFormedDuplicatePasses()
    ensures var s := Sandwich([0xD800], [0xFFFD]); SortedByPath(s) && NeighboursDistinct(s) && !DistinctPaths(s)
  {
    assert Scalars([0xD800]) == [0xFFFD] && Scalars([0xFFFD]) == [0xFFFD];
    SandwichPasses([0xD800], [0xFFFD]);
  }

  /** The neighbour check is right on every sorted list over some paths exactly when the order tells them apart. */
  lemma NeighbourCheckExact(paths: iset<Text>)
    ensures (forall s: seq<Source> :: SortedByPath(s) && DrawnFrom(s, paths) ==> (DistinctPaths(s) <==> NeighboursDistinct(s)))
            <==> ToldApart(paths)
  {
    if ToldApart(paths) {
      forall s: seq<Source> | SortedByPath(s) && DrawnFrom(s, paths) ensures DistinctPaths(s) <==> NeighboursDistinct(s) {
        AdjacentSuffices(s, paths);
      }
    } else {
      var p, q :| p in paths && q in paths && Scalars(p) == Scalars(q) && p != q;
      SandwichPasses(p, q);
      assert DrawnFrom(Sandwich(p, q), paths);
    }
  }

  lemma WithoutHead(s: seq<Source>)
    requires s != [] && SortedByPath(s) && DistinctPaths(s) && PathsWellFormed(s)
    ensures SortedByPath(s[1..]) && DistinctPaths(s[1..]) && PathsWellFormed(s[1..])
    ensures multiset(s[1..]) == multiset(s) - multiset{s[0]}
  {
    assert s == [s[0]] + s[1..];
  }

  lemma {:induction false} SortedUnique(s: seq<Source>, t: seq<Source>)
    requires SortedByPath(s) && SortedByPath(t) && multiset(s) == multiset(t)
    requires DistinctPaths(s) && DistinctPaths(t) && PathsWellFormed(s) && PathsWellFormed(t)
    ensures s == t
  {
    if s == [] {
      assert |multiset(t)| == 0;
    } else {
      assert s[0] in multiset(t);
      assert t[0] in multiset(s);
      HeadsEqual(s, t);
      WithoutHead(s);
      WithoutHead(t);
      assert multiset(s[1..]) == multiset(t[1..]);
      SortedUnique(s[1..], t[1..]);
      assert s == [s[0]] + s[1..] && t == [t[0]] + t[1..];
    }
  }

  lemma HeadsEqual(s: seq<Source>, t: seq<Source>)
    requires s != [] && t != [] && s[0] in t && t[0] in s
    requires SortedByPath(s) && SortedByPath(t) && DistinctPaths(s)
    requires PathsWellFormed(s) && PathsWellFormed(t)
    ensures s[0] == t[0]
  {
    var i :| 0 <= i < |t| && t[i] == s[0];
    var j :| 0 <= j < |s| && s[j] == t[0];
    if i > 0 && j > 0 {
      assert AtMost(t[0], t[i]) && AtMost(s[0], s[j]);
      CompareAntisymmetric(Utf8(s[0].path), Utf8(t[0].path));
      EqualOnlyWhenSame(s[0].path, t[0].path);
    }
  }

  /** Stands for the library sort; only its contract is used. */
  method SortByPath(sources: seq<Source>) returns (r: seq<Source>)
    ensures SortedByPath(r) && multiset(r) == multiset(sources)
  {
    r := [];
    for i := 0 to |sources|
      invariant SortedByPath(r) && multiset(r) == multiset(sources[..i])
    {
      assert sources[..i + 1] == sources[..i] + [sources[i]];
      r := Insert(r, sources[i]);
    }
    assert sources[..|sources|] == sources;
  }

  method Insert(s: seq<Source>, x: Source) returns (r: seq<Source>)
    requires SortedByPath(s)
    ensures SortedByPath(r) && multiset(r) == multiset(s) + multiset{x}
  {
    var k := 0;
    while k < |s| && AtMost(s[k], x)
      invariant 0 <= k <= |s|
      invariant forall i :: 0 <= i < k ==> AtMost(s[i], x)
    {
      k := k + 1;
    }
    if k < |s| { AboveStays(s, k, x); }
    SplicedSorted(s, k, x);
    r := s[..k] + [x] + s[k..];
  }

  lemma SplicedSorted(s: seq<Source>, k: nat, x: Source)
    requires SortedByPath(s) && k <= |s|
    requires forall i :: 0 <= i < k ==> AtMost(s[i], x)
    requires forall i :: k <= i < |s| ==> AtMost(x, s[i])
    ensures SortedByPath(s[..k] + [x] + s[k..])
    ensures multiset(s[..k] + [x] + s[k..]) == multiset(s) + multiset{x}
  {
    SplicedOrderedBy(s, k, x, AtMost);
    assert s == s[..k] + s[k..];
  }

  lemma AboveStays(s: seq<Source>, k: nat, x: Source)
    requires SortedByPath(s) && k < |s| && !AtMost(s[k], x)
    ensures forall i :: k <= i < |s| ==> AtMost(x, s[i])
  {
    CompareAntisymmetric(Utf8(s[k].path), Utf8(x.path));
    forall i | k <= i < |s| ensures AtMost(x, s[i]) {
      if k < i {
        assert AtMost(s[k], s[i]);
        CompareTransitive(Utf8(x.path), Utf8(s[k].path), Utf8(s[i].path));
      }
    }
  }

  /** Sort, then compare neighbours: accepted sources have pairwise distinct paths. */
  method CanonicalizeSources(sources: seq<Source>) returns (r: Option<seq<Source>>)
    requires PathsWellFormed(sources)
    ensures r.Some? <==> DistinctPaths(sources)
    ensures r.Some? ==> SortedByPath(r.value) && multiset(r.value) == multiset(sources)
  {
    var sorted := SortByPath(sources);
    PermutationFacts(sources, sorted);
    WellFormedToldApart();
    AdjacentSuffices(sorted, iset p: Text | IsWellFormed(p));
    var clean := NeighboursDiffer(sorted);
    return if clean then Some(sorted) else None;
  }

  method NeighboursDiffer(sorted: seq<Source>) returns (r: bool)
    ensures r <==> NeighboursDistinct(sorted)
  {
    for i := 0 to |sorted|
      invariant forall j :: 0 < j < i && j < |sorted| ==> sorted[j].path != sorted[j - 1].path
    {
      if i > 0 && sorted[i].path == sorted[i - 1].path { return false; }
    }
    return true;
  }

  lemma PermutationFacts(s: seq<Source>, t: seq<Source>)
    requires multiset(s) == multiset(t)
    ensures PathsWellFormed(s) <==> PathsWellFormed(t)
    ensures DistinctPaths(s) <==> DistinctPaths(t)
  {
    WellFormedCarries(s, t);
    WellFormedCarries(t, s);
    DistinctCarries(s, t);
    DistinctCarries(t, s);
  }

  lemma WellFormedCarries(s: seq<Source>, t: seq<Source>)
    requires multiset(s) == multiset(t)
    ensures PathsWellFormed(s) ==> PathsWellFormed(t)
  {
    forall i | 0 <= i < |t| ensures PathsWellFormed(s) ==> IsWellFormed(t[i].path) {
      assert t[i] in multiset(s);
    }
  }

  lemma RemoveAt(s: seq<Source>, k: nat) returns (rest: seq<Source>)
    requires k < |s|
    ensures multiset(rest) == multiset(s) - multiset{s[k]}
    ensures DistinctPaths(s) ==> DistinctPaths(rest) && forall x :: x in rest ==> x.path != s[k].path
  {
    rest := s[..k] + s[k + 1..];
    assert s == s[..k] + [s[k]] + s[k + 1..];
    if DistinctPaths(s) { OthersDiffer(s, k, rest); }
  }

  lemma OthersDiffer(s: seq<Source>, k: nat, rest: seq<Source>)
    requires DistinctPaths(s) && k < |s| && rest == s[..k] + s[k + 1..]
    ensures DistinctPaths(rest) && forall x :: x in rest ==> x.path != s[k].path
  {
    assert forall i :: 0 <= i < |rest| ==> rest[i] == s[if i < k then i else i + 1];
    forall x | x in rest ensures x.path != s[k].path {
      var i :| 0 <= i < |rest| && rest[i] == x;
    }
    forall i, j | 0 <= i < j < |rest| ensures rest[i].path != rest[j].path {
      var a, b := if i < k then i else i + 1, if j < k then j else j + 1;
      assert s[a].path != s[b].path;
    }
  }

  /** What stays besides one element of a list of distinct paths has other paths. */
  lemma PathIsGone(s: seq<Source>, first: Source, rest: multiset<Source>, other: Source)
    requires DistinctPaths(s) && multiset(s) == multiset{first} + rest && other in rest
    ensures first.path != other.path
  {
    if first.path == other.path {
      assert first in multiset(s) && other in multiset(s);
      var i :| 0 <= i < |s| && s[i] == first;
      var j :| 0 <= j < |s| && s[j] == other;
      OnceOnly(s, i);
    }
  }

  lemma OnceOnly(s: seq<Source>, i: nat)
    requires DistinctPaths(s) && i < |s|
    ensures multiset(s)[s[i]] == 1
  {
    assert s == s[..i] + [s[i]] + s[i + 1..];
    assert s[i] !in s[..i] && s[i] !in s[i + 1..];
  }

  lemma {:induction false} DistinctCarries(s: seq<Source>, t: seq<Source>)
    requires multiset(s) == multiset(t)
    ensures DistinctPaths(s) ==> DistinctPaths(t)
    decreases |t|
  {
    if DistinctPaths(s) && t != [] {
      assert t[0] in multiset(s);
      var k :| 0 <= k < |s| && s[k] == t[0];
      var rest := RemoveAt(s, k);
      assert t == [t[0]] + t[1..];
      DistinctCarries(rest, t[1..]);
      forall j | 0 < j < |t| ensures t[0].path != t[j].path {
        assert t[1..][j - 1] == t[j];
        PathIsGone(s, t[0], multiset(t[1..]), t[j]);
      }
    }
  }

  /** The accepted order does not depend on the order in which sources were listed. */
  lemma CanonicalOrderUnique(a: seq<Source>, b: seq<Source>, x: seq<Source>, y: seq<Source>)
    requires multiset(a) == multiset(b) && PathsWellFormed(a) && DistinctPaths(a)
    requires SortedByPath(x) && multiset(x) == multiset(a)
    requires SortedByPath(y) && multiset(y) == multiset(b)
    ensures x == y
  {
    PermutationFacts(a, x);
    PermutationFacts(a, y);
    SortedUnique(x, y);
  }
}
