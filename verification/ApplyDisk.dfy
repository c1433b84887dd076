/** The workspace's filesystem during one apply run: any call may fail, nobody else writes. */
module ApplyDisk {
  import opened Wrappers
  import opened WorkspacePaths
  import opened RestorePlan
  import opened MutationGate
  import opened StreamWindow
  import opened ApplyModel

  const WRITE_WINDOW_BYTES: nat := 1024 * 1024

  datatype Seen = Found(node: Node) | Missing | Unreadable

  datatype Removal = Removed | NotEmpty | NotADirectory | Refusal

  class Disk {
    const gate: Gate
    /** The content id of a file's bytes. */
    const digest: seq<StreamWindow.Byte> -> Oid
    var files: Files
    /** Whether some call failed that the state of the files does not explain. */
    ghost var faulted: bool

    ghost predicate Valid() reads this, gate, gate.lease {
      gate.Valid() && Tree(files) && (gate.state.Rejected? ==> faulted)
    }

    constructor (gate: Gate, files: Files, digest: seq<StreamWindow.Byte> -> Oid)
      requires gate.Valid() && Tree(files) && !gate.state.Rejected?
      ensures Valid() && this.gate == gate && this.files == files && this.digest == digest && !faulted
    {
      this.gate, this.files, this.digest, faulted := gate, files, digest, false;
    }

    method Lstat(p: Path) returns (r: Seen)
      requires Valid()
      modifies this`faulted
      ensures old(faulted) ==> faulted
      ensures r.Found? ==> p in files && r.node == files[p]
      ensures r.Missing? ==> p !in files
      ensures r.Unreadable? ==> faulted || LeafAbove(files, p)
    {
      var fails: bool := *;
      if fails {
        faulted := true;
        return Unreadable;
      }
      if p in files { return Found(files[p]); }
      if exists a :: a in Ancestors(p) && a in files && files[a] != Directory { return Unreadable; }
      return Missing;
    }

    method Authorize() returns (ok: bool)
      requires Valid()
      modifies this`faulted, gate, gate.lease
      ensures Valid() && ok == gate.state.Authorized?
      ensures old(faulted) || !ok ==> faulted
    {
      var callback: Callback, held: Option<Cause> := *, *;
      var failure := gate.AuthorizeMutation(callback, held);
      ok := failure.None?;
      faulted := faulted || !ok;
    }

    method Unlink(p: Path) returns (ok: bool)
      requires Valid() && gate.state.Authorized?
      modifies this, gate`trace
      ensures Valid() && (old(faulted) ==> faulted)
      ensures ok ==> p in old(files) && old(files)[p] != Directory && files == old(files) - {p}
      ensures !ok ==> files == old(files) && (faulted || p !in files || files[p] == Directory)
    {
      var fails: bool := *;
      if fails || p !in files || files[p] == Directory {
        faulted := faulted || fails;
        return false;
      }
      RemovalKeepsTree(files, p);
      gate.Mutate();
      files := files - {p};
      return true;
    }

    method Rmdir(p: Path) returns (r: Removal)
      requires Valid() && gate.state.Authorized?
      modifies this, gate`trace
      ensures Valid() && (old(faulted) ==> faulted)
      ensures r == Removed ==> p in old(files) && old(files)[p] == Directory && files == old(files) - {p}
      ensures r == Removed ==> !HasChild(old(files), p)
      ensures r != Removed ==> files == old(files)
      ensures r == Refusal ==> faulted || p !in files
      ensures r != Removed ==> faulted || p !in files || files[p] != Directory || HasChild(files, p)
    {
      var fails: bool := *;
      if fails {
        faulted := true;
        var answer: Removal := *;
        return if answer == Removed then Refusal else answer;
      }
      if p !in files { return Refusal; }
      if files[p] != Directory { return NotADirectory; }
      if exists q :: q in files && p in Ancestors(q) { return NotEmpty; }
      RemovalKeepsTree(files, p);
      gate.Mutate();
      files := files - {p};
      return Removed;
    }

    method Mkdir(p: Path) returns (ok: bool)
      requires Valid() && gate.state.Authorized? && Canonical(p)
      modifies this, gate`trace
      ensures Valid() && (old(faulted) ==> faulted)
      ensures ok ==> p !in old(files) && files == old(files)[p := Directory]
      ensures !ok ==> files == old(files) && (faulted || p in files || !IsDirectory(files, Parent(p)))
    {
      var fails: bool := *;
      if fails || p in files || !IsDirectory(files, Parent(p)) {
        faulted := faulted || fails;
        return false;
      }
      AdditionKeepsTree(files, p, Directory);
      gate.Mutate();
      files := files[p := Directory];
      return true;
    }

    /** Exclusive creation: never opens a path that exists. A taken random name counts as a fault. */
    method CreateExclusive(p: Path, node: Node) returns (ok: bool)
      requires Valid() && gate.state.Authorized? && Canonical(p) && node != Directory
      modifies this, gate`trace
      ensures Valid() && (old(faulted) ==> faulted)
      ensures ok ==> p !in old(files) && files == old(files)[p := node]
      ensures !ok ==> files == old(files) && (faulted || !IsDirectory(files, Parent(p)))
    {
      var fails: bool := *;
      if fails || p in files || !IsDirectory(files, Parent(p)) {
        faulted := faulted || fails || p in files;
        return false;
      }
      AdditionKeepsTree(files, p, node);
      gate.Mutate();
      files := files[p := node];
      return true;
    }

    /** Replace the content of an existing leaf. */
    method Overwrite(p: Path, oid: Oid)
      requires Valid() && gate.state.Authorized? && p in files && files[p] != Directory
      modifies this`files, gate`trace
      ensures Valid() && files == old(files)[p := Holds(Regular(oid))]
    {
      if Parent(p) != "" { ParentIsNearest(p); }
      AdditionKeepsTree(files, p, Holds(Regular(oid)));
      gate.Mutate();
      files := files[p := Holds(Regular(oid))];
    }

    /** Stream a blob into an emptied file; the file's id afterwards is that of whatever bytes arrived. */
    method StreamInto(p: Path, oid: Oid) returns (ok: bool)
      requires Valid() && p in files && files[p] == Holds(Regular(digest([])))
      modifies this, gate, gate.lease
      ensures Valid() && (old(faulted) || !ok ==> faulted)
      ensures ok ==> files == old(files)[p := Holds(Regular(oid))] && (old(gate.state.Authorized?) ==> gate.state.Authorized?)
      ensures p in files && files[p] != Directory && DiffersOnlyAt(old(files), files, {p})
    {
      var reader: Reader := *;
      var window := new StreamWindow.Byte[WRITE_WINDOW_BYTES];
      var handle := new FileHandle();
      var streamed := StreamBlobIntoHandle(handle, oid, reader, window, gate, digest);
      ok := streamed.Ok?;
      faulted := faulted || !ok;
      if Parent(p) != "" { ParentIsNearest(p); }
      AdditionKeepsTree(files, p, Holds(Regular(digest(handle.content))));
      files := files[p := Holds(Regular(digest(handle.content)))];
    }

    /** Atomic replacement of a sibling; a directory is never replaced. */
    method Rename(from: Path, to: Path) returns (ok: bool)
      requires Valid() && gate.state.Authorized? && Canonical(to)
      requires from in files && files[from] != Directory && from != to && Parent(from) == Parent(to)
      modifies this, gate`trace
      ensures Valid() && (old(faulted) ==> faulted)
      ensures ok ==> files == (old(files) - {from})[to := old(files)[from]]
      ensures ok ==> to !in old(files) || old(files)[to] != Directory
      ensures !ok ==> files == old(files) && (faulted || (to in files && files[to] == Directory))
    {
      var fails: bool := *;
      if fails || (to in files && files[to] == Directory) {
        faulted := faulted || fails;
        return false;
      }
      var moved := files[from];
      RemovalKeepsTree(files, from);
      ParentIsNearest(to);
      ParentIsNearest(from);
      if Parent(from) != "" { assert Parent(from) in Ancestors(from); }
      AdditionKeepsTree(files - {from}, to, moved);
      gate.Mutate();
      files := (files - {from})[to := moved];
      return true;
    }
  }
}
