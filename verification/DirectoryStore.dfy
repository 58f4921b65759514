/** storage/filesystem.go: one directory per volume under the tempfs directory. */
module DirectoryStore {
  import opened Wrappers
  import opened Documents
  import opened PathTree
  import opened VolumeLayout
  import Memory = MemoryStore
  import Kernel

  type StoreError = Memory.StoreError

  /** `os.MkdirAll`: nothing to do, or an obstacle, if the path leads somewhere; else the parent first, then `p`. */
  function MkdirAll(t: Tree, p: Path): (Tree, bool) {
    if p == [] then (t, true)
    else
      match Resolve(t, p, KERNEL_LINKS)
      case Some(q) => (t, Lookup(t, q) == Some(Dir))
      case None =>
        var (u, ok) := MkdirAll(t, Parent(p));
        if !ok || p in u then (u, false) else (u[p := Dir], true)
  }

  /** Some prefix of `p` leads to a directory, and of all longer ones there is nothing yet. */
  ghost predicate CanMake(t: Tree, p: Path) {
    exists k | 0 <= k <= |p| :: LeadsToDir(t, p[..k]) && forall j | k < j <= |p| :: p[..j] !in t
  }

  /**
   * What that amounts to: it succeeds if and only if the path is missing from some directory on, nothing that was there
   * changes, all that is new are directories on the way, and after a success the path leads to a directory.
   */
  lemma {:induction false} MkdirAllIs(t: Tree, p: Path)
    ensures var (u, ok) := MkdirAll(t, p);
            && (ok <==> CanMake(t, p))
            && (forall q | q in t :: Lookup(u, q) == Lookup(t, q))
            && (forall q | q in u && q !in t :: q != [] && q <= p && u[q] == Dir)
            && (ok ==> LeadsToDir(u, p))
    decreases |p|
  {
    if p == [] {
      assert LeadsToDir(t, p[..0]);
    } else if Resolve(t, p, KERNEL_LINKS).Some? {
      assert p[..|p|] == p;
    } else {
      MkdirAllIs(t, Parent(p));
      CanMakeBelow(t, p);
    }
  }

  lemma CanMakeBelow(t: Tree, p: Path)
    requires p != [] && !LeadsToDir(t, p)
    ensures CanMake(t, p) <==> p !in t && CanMake(t, Parent(p))
  {
    assert p[..|p|] == p;
    assert forall k | 0 <= k < |p| :: Parent(p)[..k] == p[..k];
    if CanMake(t, p) {
      var k :| 0 <= k <= |p| && LeadsToDir(t, p[..k]) && forall j | k < j <= |p| :: p[..j] !in t;
      assert LeadsToDir(t, Parent(p)[..k]);
    }
    if p !in t && CanMake(t, Parent(p)) {
      var k :| 0 <= k < |p| && LeadsToDir(t, Parent(p)[..k]) && forall j | k < j < |p| :: Parent(p)[..j] !in t;
      assert LeadsToDir(t, p[..k]) && forall j | k < j < |p| :: p[..j] == Parent(p)[..j];
    }
  }

  /** `os.WriteFile`. */
  function WriteFile(t: Tree, p: Path, text: Text): Option<Tree> {
    match Follow(t, p, KERNEL_LINKS)
    case Some(q) =>
      if q == [] || !LeadsToDir(t, Parent(q)) || (q in t && !t[q].File?) then None
      else Some(t[q := File(text)])
    case None => None
  }

  /** `os.RemoveAll` where nothing is mounted at the path or below. */
  function RemoveTree(t: Tree, p: Path): Tree {
    Kernel.RemoveAll(Kernel.World(t, []), p).0.tree
  }

  predicate HasRecord(baseDir: Path, t: Tree, id: string) {
    Resolve(t, MetadataPath(baseDir, id), KERNEL_LINKS).Some?
  }

  /** The names in a directory. */
  function ChildNames(t: Tree, p: Path): set<string> {
    set q | q in t && |q| == |p| + 1 && p < q :: q[|p|]
  }

  /**
   * A record that cannot be opened is not found; a directory in its place does not decode. Reads go through a view that
   * rejects every rooted name.
   */
  function ReadFrom(rooted: bool, baseDir: Path, t: Tree, id: string): Result<Metadata, StoreError> {
    if rooted then Failure(Memory.NotFound)
    else
      match Resolve(t, MetadataPath(baseDir, id), KERNEL_LINKS)
      case None => Failure(Memory.NotFound)
      case Some(q) =>
        if q in t && t[q].File? && Decode(t[q].text).Some? then Success(Decode(t[q].text).value)
        else Failure(Memory.InvalidJSON)
  }

  function WriteTo(baseDir: Path, t: Tree, id: string, meta: Metadata): (Tree, bool) {
    match WriteFile(t, MetadataPath(baseDir, id), Encode(meta))
    case Some(u) => (u, true)
    case None => (t, false)
  }

  function EnsureDirectory(baseDir: Path, t: Tree, id: string): (Tree, bool) {
    var (u, ok) := MkdirAll(t, VolumePath(baseDir, id));
    if ok then MkdirAll(u, DataPath(baseDir, id)) else (u, false)
  }

  /** Creates the volume's directories, then writes `meta` under `id`. */
  function Store(
      baseDir: Path, t: Tree, volumeID: string, id: string, meta: Metadata): (Tree, Result<bool, StoreError>)
  {
    var (u, made) := EnsureDirectory(baseDir, t, volumeID);
    if !made then (u, Failure(Memory.OtherError))
    else
      var (u', ok) := WriteTo(baseDir, u, id, meta);
      (u', if ok then Success(true) else Failure(Memory.OtherError))
  }

  /** Any read error other than not found falls through with an empty record. */
  function RegisterTo(rooted: bool, baseDir: Path, t: Tree, meta: Metadata): (Tree, Result<bool, StoreError>) {
    match ReadFrom(rooted, baseDir, t, meta.volumeID)
    case Failure(NotFound) => Store(baseDir, t, meta.volumeID, meta.volumeID, meta)
    case r =>
      var existing := if r.Success? then r.value else Metadata("", "", None);
      if SameContext(existing.context, meta.context) then (t, Success(false))
      else Store(baseDir, t, meta.volumeID, existing.volumeID, existing.(context := meta.context))
  }

  function RemoveFrom(baseDir: Path, t: Tree, id: string): Tree {
    RemoveTree(t, VolumePath(baseDir, id))
  }

  /** The volumes, or None if the store cannot be read or some entry has no record. */
  function ListFrom(rooted: bool, baseDir: Path, t: Tree): Option<set<string>> {
    if rooted || !LeadsToDir(t, TempfsPath(baseDir)) then None
    else
      var names := ChildNames(t, TempfsPath(baseDir));
      if forall n | n in names :: HasRecord(baseDir, t, n) then Some(names) else None
  }

  /** The name starts at the root, which `fs.ValidPath` does not allow. */
  predicate Rooted(name: string) {
    name != "" && name[0] == '/'
  }

  class Filesystem {
    const rooted: bool
    const baseDir: Path
    var tree: Tree

    /** The working directory is the root, so that both spellings of a base directory name the same path. */
    constructor (name: string, tree: Tree)
      ensures rooted == Rooted(name) && baseDir == Join([], name) && this.tree == tree
    {
      rooted, baseDir := Rooted(name), Join([], name);
      this.tree := tree;
    }

    method RemoveVolume(volumeID: string)
      modifies this
      ensures tree == RemoveFrom(baseDir, old(tree), volumeID)
    {
      var p := VolumePath(baseDir, volumeID);
      tree := map q | q in tree && !(p <= q) :: tree[q];
    }

    /** Stops with an error at the first entry that has no record. */
    method ListVolumes() returns (vols: Option<seq<string>>)
      ensures vols.Some? <==> ListFrom(rooted, baseDir, tree).Some?
      ensures vols.Some? ==>
                && (forall i, j | 0 <= i < j < |vols.value| :: vols.value[i] != vols.value[j])
                && forall id :: id in vols.value <==> id in ListFrom(rooted, baseDir, tree).value
    {
      if rooted || !LeadsToDir(tree, TempfsPath(baseDir)) {
        return None;
      }
      vols := CheckAll(ChildNames(tree, TempfsPath(baseDir)));
    }

    method CheckAll(dirs: set<string>) returns (vols: Option<seq<string>>)
      ensures vols.Some? <==> forall n | n in dirs :: HasRecord(baseDir, tree, n)
      ensures vols.Some? ==>
                && (forall i, j | 0 <= i < j < |vols.value| :: vols.value[i] != vols.value[j])
                && forall id :: id in vols.value <==> id in dirs
    {
      var rest, list := dirs, [];
      while rest != {}
        invariant rest <= dirs
        invariant forall id :: id in list <==> id in dirs - rest
        invariant forall id | id in list :: HasRecord(baseDir, tree, id)
        invariant forall i, j | 0 <= i < j < |list| :: list[i] != list[j]
        decreases |rest|
      {
        var dir :| dir in rest;
        if !HasRecord(baseDir, tree, dir) {
          return None;
        }
        assert dir !in list;
        list := list + [dir];
        rest := rest - {dir};
      }
      return Some(list);
    }

    method ReadMetadata(volumeID: string) returns (r: Result<Metadata, StoreError>)
      ensures r == ReadFrom(rooted, baseDir, tree, volumeID)
    {
      if rooted {
        return Failure(Memory.NotFound);
      }
      var file := Resolve(tree, MetadataPath(baseDir, volumeID), KERNEL_LINKS);
      if file.None? {
        return Failure(Memory.NotFound);
      }
      if file.value !in tree || !tree[file.value].File? {
        return Failure(Memory.InvalidJSON);
      }
      var meta := Decode(tree[file.value].text);
      if meta.None? {
        return Failure(Memory.InvalidJSON);
      }
      return Success(meta.value);
    }

    method WriteMetadata(volumeID: string, meta: Metadata) returns (ok: bool)
      modifies this
      ensures (tree, ok) == WriteTo(baseDir, old(tree), volumeID, meta)
    {
      var to := Follow(tree, MetadataPath(baseDir, volumeID), KERNEL_LINKS);
      if to.None? {
        return false;
      }
      var q := to.value;
      ok := q != [] && LeadsToDir(tree, Parent(q)) && (q in tree ==> tree[q].File?);
      if ok {
        tree := tree[q := File(Encode(meta))];
      }
    }

    method EnsureVolumeDirectory(volumeID: string) returns (ok: bool)
      modifies this
      ensures (tree, ok) == EnsureDirectory(baseDir, old(tree), volumeID)
    {
      ok := MakeDirectories(VolumePath(baseDir, volumeID));
      if ok {
        ok := MakeDirectories(DataPath(baseDir, volumeID));
      }
    }

    method MakeDirectories(p: Path) returns (ok: bool)
      modifies this
      ensures (tree, ok) == MkdirAll(old(tree), p)
      decreases |p|
    {
      if p == [] {
        return true;
      }
      var to := Resolve(tree, p, KERNEL_LINKS);
      if to.Some? {
        return Lookup(tree, to.value) == Some(Dir);
      }
      ok := MakeDirectories(Parent(p));
      if ok {
        ok := p !in tree;
      }
      if ok {
        tree := tree[p := Dir];
      }
    }

    method StoreRecord(volumeID: string, id: string, meta: Metadata) returns (r: Result<bool, StoreError>)
      modifies this
      ensures (tree, r) == Store(baseDir, old(tree), volumeID, id, meta)
    {
      var made := EnsureVolumeDirectory(volumeID);
      if !made {
        return Failure(Memory.OtherError);
      }
      var ok := WriteMetadata(id, meta);
      return if ok then Success(true) else Failure(Memory.OtherError);
    }

    method RegisterMetadata(meta: Metadata) returns (r: Result<bool, StoreError>)
      modifies this
      ensures (tree, r) == RegisterTo(rooted, baseDir, old(tree), meta)
    {
      var read := ReadMetadata(meta.volumeID);
      if read == Failure(Memory.NotFound) {
        r := StoreRecord(meta.volumeID, meta.volumeID, meta);
        return;
      }
      var existing := if read.Success? then read.value else Metadata("", "", None);
      if !SameContext(existing.context, meta.context) {
        existing := existing.(context := meta.context);
        r := StoreRecord(meta.volumeID, existing.volumeID, existing);
        return;
      }
      return Success(false);
    }
  }
}
