/** Ancestry of slash-separated workspace paths. */
module WorkspacePaths {
  type Path = string

  /** Strict ancestors other than the workspace root: the text before each slash. */
  function Ancestors(path: Path): set<Path> {
    set i | 0 <= i < |path| && path[i] == '/' :: path[..i]
  }

  /** Position of the last slash, or -1. */
  function LastSlash(path: Path): (r: int)
    ensures -1 <= r < |path|
    ensures r >= 0 ==> path[r] == '/'
    ensures forall i :: r < i < |path| ==> path[i] != '/'
  {
    if path == "" then -1
    else if path[|path| - 1] == '/' then |path| - 1
    else LastSlash(path[..|path| - 1])
  }

  method AddAncestors(path: Path, into: set<Path>) returns (r: set<Path>)
    ensures r == into + Ancestors(path)
  {
    r := into;
    var separator := LastSlash(path);
    var end := |path|;
    while separator != -1
      invariant -1 <= separator < end <= |path| || (separator == -1 && end == 0)
      invariant separator >= 0 ==> path[separator] == '/'
      invariant forall i :: separator < i < end ==> path[i] != '/'
      invariant r == into + set i | end <= i < |path| && path[i] == '/' :: path[..i]
      decreases separator
    {
      var ancestor := path[..separator];
      ghost var before := r;
      r := r + {ancestor};
      end := separator;
      separator := LastSlash(ancestor);
      assert forall i :: 0 <= i < end ==> ancestor[i] == path[i];
    }
  }

  predicate AtOrBelow(path: Path, root: Path) {
    path == root || root + "/" <= path
  }

  lemma BelowMeansAncestor(path: Path, root: Path)
    ensures AtOrBelow(path, root) <==> path == root || root in Ancestors(path)
  {
    if root + "/" <= path {
      assert path[..|root| + 1] == root + "/";
      assert path[|root|] == (root + "/")[|root|];
      assert path[..|root|] == root;
    }
    if root in Ancestors(path) {
      var i :| 0 <= i < |path| && path[i] == '/' && path[..i] == root;
      assert path[..i + 1] == root + "/";
    }
  }

  method SetHasAtOrAbove(path: Path, paths: set<Path>) returns (r: bool)
    ensures r <==> exists p :: p in paths && AtOrBelow(path, p)
  {
    var candidate := path;
    while true
      invariant candidate <= path && (candidate == path || candidate in Ancestors(path))
      invariant forall a :: a in Ancestors(path) + {path} && a in paths ==> |a| <= |candidate|
      decreases |candidate|
    {
      BelowMeansAncestor(path, candidate);
      if candidate in paths { return true; }
      var separator := LastSlash(candidate);
      if separator == -1 {
        forall p | p in paths ensures !AtOrBelow(path, p) {
          BelowMeansAncestor(path, p);
          if p in Ancestors(path) { ShorterAncestor(path, candidate, p); }
        }
        return false;
      }
      forall a | a in Ancestors(path) + {path} && a in paths ensures |a| <= separator {
        if a != path { ShorterAncestor(path, candidate, a); }
      }
      assert candidate == path[..|candidate|];
      assert path[separator] == candidate[separator] && path[..separator] == candidate[..separator];
      candidate := candidate[..separator];
    }
  }

  /** An ancestor no longer than a prefix ends at one of the prefix's slashes, or is the prefix. */
  lemma ShorterAncestor(path: Path, prefix: Path, a: Path)
    requires prefix <= path && a in Ancestors(path) && |a| <= |prefix|
    ensures a == prefix || (|a| < |prefix| && prefix[|a|] == '/')
  {
    var i :| 0 <= i < |path| && path[i] == '/' && path[..i] == a;
    assert prefix == path[..|prefix|];
    if |a| < |prefix| { assert prefix[|a|] == path[|a|]; }
  }

  /** Ancestors of an ancestor are ancestors. */
  lemma AncestorsNest(path: Path, a: Path)
    requires a in Ancestors(path)
    ensures Ancestors(a) < Ancestors(path) && a !in Ancestors(a)
  {
    var i :| 0 <= i < |path| && path[i] == '/' && path[..i] == a;
    forall b | b in Ancestors(a) ensures b in Ancestors(path) && b != a {
      var j :| 0 <= j < |a| && a[j] == '/' && a[..j] == b;
      assert path[j] == '/' && path[..j] == b;
    }
  }

  /** Two ancestors of one path are comparable. */
  lemma AncestorsComparable(path: Path, a: Path, b: Path)
    requires a in Ancestors(path) && b in Ancestors(path)
    ensures a == b || a in Ancestors(b) || b in Ancestors(a)
  {
    var i :| 0 <= i < |path| && path[i] == '/' && path[..i] == a;
    var j :| 0 <= j < |path| && path[j] == '/' && path[..j] == b;
    if i < j { assert b[i] == '/' && b[..i] == a; }
    if j < i { assert a[j] == '/' && a[..j] == b; }
  }

  /** Number of components. */
  function Depth(path: Path): nat {
    if path == "" then 1
    else Depth(path[..|path| - 1]) + if path[|path| - 1] == '/' then 1 else 0
  }

  lemma {:induction false} DepthMonotone(path: Path, i: nat)
    requires i <= |path|
    ensures Depth(path[..i]) <= Depth(path)
    ensures i < |path| && path[i] == '/' ==> Depth(path[..i]) < Depth(path)
  {
    if i < |path| {
      var front := path[..|path| - 1];
      assert front[..i] == path[..i];
      DepthMonotone(front, i);
      if i < |front| { assert front[i] == path[i]; }
    } else {
      assert path[..i] == path;
    }
  }

  lemma AncestorsAreShallower(path: Path, a: Path)
    requires a in Ancestors(path)
    ensures Depth(a) < Depth(path)
  {
    var i :| 0 <= i < |path| && path[i] == '/' && path[..i] == a;
    DepthMonotone(path, i);
  }

  /** The parent directory; the root is the empty path. */
  function Parent(path: Path): Path {
    if LastSlash(path) == -1 then "" else path[..LastSlash(path)]
  }

  /** The strict ancestors are the parent and the parent's ancestors. */
  lemma ParentIsNearest(path: Path)
    requires path != "" && path[0] != '/'
    ensures Parent(path) == "" ==> Ancestors(path) == {}
    ensures Parent(path) != "" ==> Ancestors(path) == Ancestors(Parent(path)) + {Parent(path)} && Parent(path)[0] == path[0]
  {
    var last := LastSlash(path);
    if last > 0 {
      var parent := path[..last];
      forall a | a in Ancestors(path) ensures a in Ancestors(parent) + {parent} {
        var i :| 0 <= i < |path| && path[i] == '/' && path[..i] == a;
        if i < last { assert parent[i] == '/' && parent[..i] == a; }
      }
      AncestorsNest(path, parent);
    }
  }

  lemma JoinedPath(parent: Path, name: string)
    requires name != "" && '/' !in name && (parent == "" || parent[0] != '/')
    ensures var path := if parent == "" then name else parent + "/" + name;
            Parent(path) == parent && path != "" && path[0] != '/'
  {
    var path := if parent == "" then name else parent + "/" + name;
    var last := LastSlash(path);
    assert forall i :: 0 <= i < |name| ==> name[i] in name;
    if parent != "" {
      assert path[|parent|] == '/';
      assert forall i :: |parent| < i < |path| ==> path[i] == name[i - |parent| - 1];
      assert path[..|parent|] == parent;
    }
  }

  /** Below is transitive. */
  lemma BelowBelow(path: Path, middle: Path, root: Path)
    requires middle in Ancestors(path) && AtOrBelow(middle, root)
    ensures AtOrBelow(path, root)
  {
    BelowMeansAncestor(middle, root);
    BelowMeansAncestor(path, root);
    AncestorsNest(path, middle);
  }

  method Deepest(paths: set<Path>) returns (r: Path)
    requires paths != {}
    ensures r in paths && forall p :: p in paths ==> Depth(p) <= Depth(r)
  {
    r :| r in paths;
    var rest := paths - {r};
    while rest != {}
      invariant rest <= paths && r in paths && forall p :: p in paths && p !in rest ==> Depth(p) <= Depth(r)
      decreases rest
    {
      var p :| p in rest;
      rest := rest - {p};
      if Depth(p) > Depth(r) { r := p; }
    }
  }

  method Shallowest(paths: set<Path>) returns (r: Path)
    requires paths != {}
    ensures r in paths && forall p :: p in paths ==> Depth(r) <= Depth(p)
  {
    r :| r in paths;
    var rest := paths - {r};
    while rest != {}
      invariant rest <= paths && r in paths && forall p :: p in paths && p !in rest ==> Depth(r) <= Depth(p)
      decreases rest
    {
      var p :| p in rest;
      rest := rest - {p};
      if Depth(p) < Depth(r) { r := p; }
    }
  }
}
