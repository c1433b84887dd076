/** The physical order of workspace stores and the deduplicated target list built on it. */
module LockOrder {
  import opened Wrappers
  import opened Sequences
  import Utf8Order

  datatype Binding = Binding(path: Utf8Order.Text, device: nat, inode: nat)

  predicate SameBinding(left: Binding, right: Binding) {
    left.device == right.device && left.inode == right.inode
  }

  /** Device, then inode, then the bytes of the path. */
  function CompareBindings(left: Binding, right: Binding): int {
    if left.device != right.device then (if left.device < right.device then -1 else 1)
    else if left.inode != right.inode then (if left.inode < right.inode then -1 else 1)
    else Utf8Order.Compare(Utf8Order.Utf8(left.path), Utf8Order.Utf8(right.path))
  }

  /** The physical identity alone. */
  predicate Before(left: Binding, right: Binding) {
    left.device < right.device || (left.device == right.device && left.inode < right.inode)
  }

  lemma CompareMeansBefore(a: Binding, b: Binding)
    requires !SameBinding(a, b)
    ensures CompareBindings(a, b) < 0 <==> Before(a, b)
    ensures CompareBindings(a, b) > 0 <==> Before(b, a)
  { }

  datatype Target<T> = Target(options: T, binding: Binding)

  predicate Ahead<T>(a: Target<T>, b: Target<T>) { Before(a.binding, b.binding) }

  ghost predicate Increasing<T>(s: seq<Target<T>>) {
    OrderedBy(s, Ahead)
  }

  ghost predicate Distinct<T>(s: seq<Target<T>>) {
    forall i, j :: 0 <= i < j < |s| ==> !SameBinding(s[i].binding, s[j].binding)
  }

  function IdOf(b: Binding): (nat, nat) { (b.device, b.inode) }

  ghost function Ids<T>(s: seq<Target<T>>): set<(nat, nat)> {
    set i | 0 <= i < |s| :: IdOf(s[i].binding)
  }

  lemma IdsPush<T>(s: seq<Target<T>>, t: Target<T>)
    ensures Ids(s + [t]) == Ids(s) + {IdOf(t.binding)}
  {
    var after := s + [t];
    assert after[|s|] == t;
    forall id | id in Ids(s) ensures id in Ids(after) {
      var i :| 0 <= i < |s| && IdOf(s[i].binding) == id;
      assert after[i] == s[i];
    }
  }

  /** The first target for each physical identity, in the order given. */
  method Deduplicate<T>(targets: seq<Target<T>>) returns (r: seq<Target<T>>)
    ensures Distinct(r) && Ids(r) == Ids(targets)
    ensures forall t :: t in r ==> t in targets
    ensures forall i :: 0 <= i < |r| ==> IsFirst(targets, r[i])
  {
    r := [];
    var seen: set<(nat, nat)> := {};
    for n := 0 to |targets|
      invariant Distinct(r) && forall i :: 0 <= i < |r| ==> IsFirst(targets, r[i])
      invariant forall t :: t in r ==> t in targets
      invariant seen == Ids(r) == Ids(targets[..n])
    {
      var t := targets[n];
      assert targets[..n + 1] == targets[..n] + [t];
      IdsPush(r, t);
      IdsPush(targets[..n], t);
      if IdOf(t.binding) !in seen {
        forall j | 0 <= j < n ensures !SameBinding(targets[j].binding, t.binding) {
          assert targets[..n][j] == targets[j];
        }
        assert FirstAt(targets, n);
        r, seen := r + [t], seen + {IdOf(t.binding)};
      }
    }
    assert targets[..|targets|] == targets;
  }

  ghost predicate IsFirst<T>(targets: seq<Target<T>>, t: Target<T>) {
    exists k :: 0 <= k < |targets| && targets[k] == t && FirstAt(targets, k)
  }

  ghost predicate FirstAt<T>(targets: seq<Target<T>>, k: nat)
    requires k < |targets|
  {
    forall j :: 0 <= j < k ==> !SameBinding(targets[j].binding, targets[k].binding)
  }

  /** Stands for the library sort with the source's comparison. */
  method SortTargets<T>(targets: seq<Target<T>>) returns (r: seq<Target<T>>)
    requires Distinct(targets)
    ensures Increasing(r) && forall t :: t in r <==> t in targets
  {
    r := [];
    for n := 0 to |targets|
      invariant Increasing(r) && forall t :: t in r <==> t in targets[..n]
    {
      var t := targets[n];
      forall i | 0 <= i < |r| ensures !SameBinding(r[i].binding, t.binding) {
        assert r[i] in targets[..n];
      }
      r := InsertTarget(r, t);
      assert targets[..n + 1] == targets[..n] + [t];
    }
    assert targets[..|targets|] == targets;
  }

  method InsertTarget<T>(s: seq<Target<T>>, t: Target<T>) returns (r: seq<Target<T>>)
    requires Increasing(s) && forall i :: 0 <= i < |s| ==> !SameBinding(s[i].binding, t.binding)
    ensures Increasing(r) && forall x :: x in r <==> x in s || x == t
  {
    var k := 0;
    while k < |s| && CompareBindings(s[k].binding, t.binding) <= 0
      invariant 0 <= k <= |s| && forall i :: 0 <= i < k ==> Ahead(s[i], t)
    {
      CompareMeansBefore(s[k].binding, t.binding);
      k := k + 1;
    }
    if k < |s| {
      CompareMeansBefore(s[k].binding, t.binding);
      assert forall i :: k < i < |s| ==> Ahead(s[k], s[i]);
    }
    SplicedOrderedBy(s, k, t, Ahead);
    assert s == s[..k] + s[k..];
    r := s[..k] + [t] + s[k..];
  }

  /** Bind every root, keep one target per physical store, and order them. */
  method OrderedTargets<T>(roots: seq<(Utf8Order.Text, T)>, bind: Utf8Order.Text -> Option<Binding>)
    returns (r: Result<seq<Target<T>>, Utf8Order.Text>)
    ensures r.Err? ==> exists i :: 0 <= i < |roots| && roots[i].0 == r.error && bind(r.error).None?
    ensures r.Ok? ==> Increasing(r.value)
    ensures r.Ok? ==> forall i :: 0 <= i < |roots| ==> bind(roots[i].0).Some? && IdOf(bind(roots[i].0).value) in Ids(r.value)
    ensures r.Ok? ==> forall t :: t in r.value ==> Comes(roots, bind, t)
  {
    var bound: seq<Target<T>> := [];
    for n := 0 to |roots|
      invariant |bound| == n
      invariant forall i :: 0 <= i < n ==> bind(roots[i].0).Some? && bound[i] == Target(roots[i].1, BoundTo(bind, roots[i].0))
    {
      var binding := bind(roots[n].0);
      if binding.None? { return Err(roots[n].0); }
      bound := bound + [Target(roots[n].1, binding.value)];
    }
    var unique := Deduplicate(bound);
    var sorted := SortTargets(unique);
    forall i | 0 <= i < |roots| ensures IdOf(bind(roots[i].0).value) in Ids(sorted) {
      assert IdOf(bound[i].binding) in Ids(bound);
      var u :| 0 <= u < |unique| && IdOf(unique[u].binding) == IdOf(bound[i].binding);
      assert unique[u] in sorted;
    }
    forall t | t in sorted ensures Comes(roots, bind, t) {
      var i :| 0 <= i < |bound| && bound[i] == t;
    }
    return Ok(sorted);
  }

  /** A target made from one of the roots. */
  ghost predicate Comes<T>(roots: seq<(Utf8Order.Text, T)>, bind: Utf8Order.Text -> Option<Binding>, t: Target<T>) {
    exists i :: 0 <= i < |roots| && t == Target(roots[i].1, BoundTo(bind, roots[i].0))
  }

  function BoundTo(bind: Utf8Order.Text -> Option<Binding>, root: Utf8Order.Text): Binding {
    match bind(root) case Some(binding) => binding case None => Binding([], 0, 0)
  }
}
