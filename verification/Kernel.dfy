/** What the node service works on: a file tree and the kernel mount table. */
module Kernel {
  import opened Wrappers
  import opened PathTree

  /** One line of /proc/mounts. */
  datatype MountEntry = MountEntry(device: string, path: Path, fsType: string, options: seq<string>,
    sensitive: seq<string>)

  datatype World = World(tree: Tree, mounts: seq<MountEntry>)

  /** The mounts at one path, oldest first. */
  function StackAt(ms: seq<MountEntry>, p: Path): seq<MountEntry> {
    if ms == [] then []
    else
      var last := ms[|ms| - 1];
      StackAt(ms[..|ms| - 1], p) + if last.path == p then [last] else []
  }

  /** The table without the newest mount at `p`. */
  function PopTop(ms: seq<MountEntry>, p: Path): seq<MountEntry> {
    if ms == [] then []
    else
      var last := ms[|ms| - 1];
      if last.path == p then ms[..|ms| - 1] else PopTop(ms[..|ms| - 1], p) + [last]
  }

  /**
   * A mount strictly below `p` is newer than the `n`-th newest mount at `p`, so it was made inside that mount or one
   * above it; with fewer than `n` mounts there, any mount strictly below counts.
   */
  predicate PinnedWithin(ms: seq<MountEntry>, p: Path, n: nat) {
    ms != [] && n > 0 &&
    var init, last := ms[..|ms| - 1], ms[|ms| - 1];
    if last.path == p then PinnedWithin(init, p, n - 1) else p < last.path || PinnedWithin(init, p, n)
  }

  /** The newest mount at `p` is busy with a mount made inside it. */
  predicate Pinned(ms: seq<MountEntry>, p: Path) {
    PinnedWithin(ms, p, 1)
  }

  predicate Mounted(w: World, p: Path) {
    StackAt(w.mounts, p) != []
  }

  /** Something is mounted at `p` or below it. */
  predicate Busy(ms: seq<MountEntry>, p: Path) {
    exists e | e in ms :: p <= e.path
  }

  lemma StackAppend(ms: seq<MountEntry>, e: MountEntry, p: Path)
    ensures StackAt(ms + [e], p) == StackAt(ms, p) + if e.path == p then [e] else []
  {
    assert (ms + [e])[..|ms|] == ms;
  }

  lemma {:induction false} StackPop(ms: seq<MountEntry>, p: Path, q: Path)
    ensures var s := StackAt(ms, q);
            StackAt(PopTop(ms, p), q) == if q == p && s != [] then s[..|s| - 1] else s
  {
    if ms != [] {
      var init, last := ms[..|ms| - 1], ms[|ms| - 1];
      if last.path != p {
        StackPop(init, p, q);
        StackAppend(PopTop(init, p), last, q);
      }
    }
  }

  /** Unmounting undoes the mount that was made last at that path, wherever it sits in the table. */
  lemma {:induction false} PopSkips(ms: seq<MountEntry>, e: MountEntry, later: seq<MountEntry>)
    requires forall x | x in later :: x.path != e.path
    ensures PopTop(ms + [e] + later, e.path) == ms + later
  {
    if later == [] {
      assert ms + [e] + later == ms + [e];
      assert (ms + [e])[..|ms|] == ms == ms + later;
    } else {
      var init, last := later[..|later| - 1], later[|later| - 1];
      var all := ms + [e] + later;
      assert all[..|all| - 1] == ms + [e] + init;
      assert last in later;
      PopSkips(ms, e, init);
      assert ms + later == ms + init + [last];
    }
  }

  lemma {:induction false} PinnedMembers(ms: seq<MountEntry>, p: Path, n: nat)
    ensures PinnedWithin(ms, p, n) ==> exists e :: e in ms && p < e.path
  {
    if ms != [] && n > 0 {
      var init, last := ms[..|ms| - 1], ms[|ms| - 1];
      assert last in ms;
      PinnedMembers(init, p, n);
      PinnedMembers(init, p, n - 1);
    }
  }

  /** If nothing but the newest mount at `p` is at or below it, that mount is not busy. */
  lemma AloneNotPinned(ms: seq<MountEntry>, p: Path)
    requires !Busy(PopTop(ms, p), p)
    ensures !Pinned(ms, p)
  {
    PinnedMembers(ms, p, 1);
    forall e | e in ms && p < e.path ensures e in PopTop(ms, p) {
      StackPop(ms, p, e.path);
      StackMembers(ms, e.path);
      StackMembers(PopTop(ms, p), e.path);
    }
  }

  /** n + 1 mounts are free to go one by one if and only if the newest is, and then n more. */
  lemma {:induction false} PinnedPop(ms: seq<MountEntry>, p: Path, n: nat)
    requires StackAt(ms, p) != []
    ensures PinnedWithin(ms, p, n + 1) <==> Pinned(ms, p) || PinnedWithin(PopTop(ms, p), p, n)
  {
    var init, last := ms[..|ms| - 1], ms[|ms| - 1];
    if last.path != p {
      PinnedPop(init, p, n);
      assert (PopTop(init, p) + [last])[..|PopTop(init, p)|] == PopTop(init, p);
    }
    assert !PinnedWithin(init, p, 0) && !PinnedWithin(PopTop(ms, p), p, 0);
  }

  lemma {:induction false} StackMembers(ms: seq<MountEntry>, p: Path)
    ensures forall e :: e in StackAt(ms, p) <==> e in ms && e.path == p
  {
    if ms != [] {
      StackMembers(ms[..|ms| - 1], p);
      assert ms == ms[..|ms| - 1] + [ms[|ms| - 1]];
    }
  }

  lemma StackEmpty(ms: seq<MountEntry>, p: Path)
    ensures StackAt(ms, p) == [] <==> forall e | e in ms :: e.path != p
  {
    StackMembers(ms, p);
    var s := StackAt(ms, p);
    if s != [] {
      assert s[0] in s;
    }
  }

  // The same in terms of positions in the table

  /** Line `i` is the newest at `p`. */
  ghost predicate NewestAt(ms: seq<MountEntry>, p: Path, i: nat) {
    i < |ms| && ms[i].path == p && forall j | i < j < |ms| :: ms[j].path != p
  }

  /** Line `i` is the oldest at `p`. */
  ghost predicate OldestAt(ms: seq<MountEntry>, p: Path, i: nat) {
    i < |ms| && ms[i].path == p && forall j | 0 <= j < i :: ms[j].path != p
  }

  ghost predicate MountAt(ms: seq<MountEntry>, p: Path) {
    exists e :: e in ms && e.path == p
  }

  /** A line strictly below `p` from which on there is none at `p`. */
  ghost predicate NestedFrom(ms: seq<MountEntry>, p: Path, j: nat) {
    j < |ms| && p < ms[j].path && forall i | j <= i < |ms| :: ms[i].path != p
  }

  /** Some line strictly below `p` is newer than all lines at `p`. */
  ghost predicate NestedAt(ms: seq<MountEntry>, p: Path) {
    exists j: nat :: NestedFrom(ms, p, j)
  }

  /** Taking line `i` out, seen from the end of the table. */
  lemma TakeOut(init: seq<MountEntry>, last: MountEntry, i: nat)
    requires i < |init|
    ensures (init + [last])[..i] + (init + [last])[i + 1..] == init[..i] + init[i + 1..] + [last]
  {
  }

  lemma {:induction false} NewestIs(ms: seq<MountEntry>, p: Path, i: nat)
    requires NewestAt(ms, p, i)
    ensures StackAt(ms, p) != [] && StackAt(ms, p)[|StackAt(ms, p)| - 1] == ms[i]
    ensures PopTop(ms, p) == ms[..i] + ms[i + 1..]
  {
    var n := |ms| - 1;
    var init, last := ms[..n], ms[n];
    assert ms == init + [last];
    if i < n {
      assert last.path != p && init[i] == ms[i];
      NewestIs(init, p, i);
      TakeOut(init, last, i);
    } else {
      assert ms[i + 1..] == [] && init + [] == init;
    }
  }

  lemma {:induction false} OldestIs(ms: seq<MountEntry>, p: Path, i: nat)
    requires OldestAt(ms, p, i)
    ensures StackAt(ms, p) != [] && StackAt(ms, p)[0] == ms[i]
  {
    var n := |ms| - 1;
    if i < n {
      OldestIs(ms[..n], p, i);
    } else {
      StackEmpty(ms[..n], p);
    }
  }

  lemma {:induction false} NewestExists(ms: seq<MountEntry>, p: Path) returns (i: nat)
    requires MountAt(ms, p)
    ensures NewestAt(ms, p, i)
  {
    var n := |ms| - 1;
    if ms[n].path == p {
      i := n;
    } else {
      var e :| e in ms && e.path == p;
      assert e in ms[..n];
      i := NewestExists(ms[..n], p);
    }
  }

  lemma MountAtIs(ms: seq<MountEntry>, p: Path)
    ensures MountAt(ms, p) <==> StackAt(ms, p) != []
  {
    StackEmpty(ms, p);
  }

  lemma NestedGrows(init: seq<MountEntry>, last: MountEntry, p: Path)
    ensures NestedAt(init + [last], p) <==> last.path != p && (p < last.path || NestedAt(init, p))
  {
    var ms, n := init + [last], |init|;
    assert ms[n] == last && forall i | 0 <= i < n :: ms[i] == init[i];
    if NestedAt(ms, p) {
      var j: nat :| NestedFrom(ms, p, j);
      if j < n {
        assert NestedFrom(init, p, j);
      }
    }
    if NestedAt(init, p) && last.path != p {
      var j: nat :| NestedFrom(init, p, j);
      assert NestedFrom(ms, p, j);
    }
    if p < last.path {
      assert NestedFrom(ms, p, n);
    }
  }

  lemma {:induction false} NestedIs(ms: seq<MountEntry>, p: Path)
    ensures Pinned(ms, p) <==> NestedAt(ms, p)
  {
    if ms != [] {
      var n := |ms| - 1;
      assert ms == ms[..n] + [ms[n]];
      NestedIs(ms[..n], p);
      NestedGrows(ms[..n], ms[n], p);
      assert !PinnedWithin(ms[..n], p, 0);
    }
  }

  /** `os.Symlink(dest, link)`. */
  function Symlink(w: World, dest: Path, link: Path): Option<World> {
    if dest == [] || link == [] || link in w.tree || !IsDir(w.tree, Parent(link)) then None
    else Some(w.(tree := w.tree[link := Link(dest)]))
  }

  /** `os.Remove(p)`: a file, a link, or an empty directory on which nothing is mounted. */
  function Remove(w: World, p: Path): Option<World> {
    if p !in w.tree || Busy(w.mounts, p) || HasChild(w.tree, p) then None
    else Some(w.(tree := w.tree - {p}))
  }

  /** What `os.RemoveAll(p)` can delete: nothing at, above or hidden below a mount point. */
  predicate Deletable(w: World, p: Path, q: Path) {
    p <= q && !Busy(w.mounts, q) && forall e | e in w.mounts :: !(p <= e.path <= q)
  }

  /**
   * `os.RemoveAll(p)` keeps going past what it cannot delete, then reports the error. A mount point below `p` is such
   * an obstacle; the files of the volume mounted there are deleted all the same, but they are not part of this tree.
   */
  function RemoveAll(w: World, p: Path): (World, bool) {
    (w.(tree := map q | q in w.tree && !Deletable(w, p, q) :: w.tree[q]), !Busy(w.mounts, p))
  }

  /** Mounts a device on the directory that `p` leads to. */
  function MountOn(
      w: World, device: string, p: Path, fsType: string, options: seq<string>, sensitive: seq<string>): Option<World>
  {
    match Resolve(w.tree, p, KERNEL_LINKS)
    case Some(q) =>
      if Lookup(w.tree, q) == Some(Dir) then
        Some(w.(mounts := w.mounts + [MountEntry(device, q, fsType, options, sensitive)]))
      else None
    case None => None
  }

  /** Unmounts the newest mount at the path `p` leads to, unless it is busy. */
  function UnmountTop(w: World, p: Path): Option<World> {
    match Resolve(w.tree, p, KERNEL_LINKS)
    case Some(q) =>
      if Mounted(w, q) && !Pinned(w.mounts, q) then Some(w.(mounts := PopTop(w.mounts, q))) else None
    case None => None
  }

  /** The device a bind mount of `source` shows: that of the mount it is taken from, or of the underlying disk. */
  function BindDevice(w: World, source: Path, backing: string): Option<string> {
    match Resolve(w.tree, source, KERNEL_LINKS)
    case Some(q) =>
      var s := StackAt(w.mounts, q);
      Some(if s == [] then backing else s[|s| - 1].device)
    case None => None
  }

  function BindOptions(readOnly: bool): seq<string> {
    ["bind"] + if readOnly then ["ro"] else []
  }

  /** `BindMount` of utils/mount.go. */
  function Bind(w: World, source: Path, target: Path, readOnly: bool, backing: string): Option<World> {
    match BindDevice(w, source, backing)
    case Some(d) => MountOn(w, d, target, "", BindOptions(readOnly), [])
    case None => None
  }

  predicate StatIsDir(w: World, p: Path) {
    var r := Resolve(w.tree, p, KERNEL_LINKS);
    r.Some? && Lookup(w.tree, r.value) == Some(Dir)
  }

  /** The mode test of `GetDeviceFromPath` is an equality, so any permission bit fails it. */
  predicate IsBareDevice(w: World, p: Path) {
    p != [] && Lookup(w.tree, p) == Some(Device(MODE_DEVICE))
  }

  /** The device of the oldest mount at `p`, or the empty string. */
  function FirstDevice(ms: seq<MountEntry>, p: Path): string {
    var s := StackAt(ms, p);
    if s == [] then "" else s[0].device
  }

  /** How one mount-point check turns out: as the table says, with an error, or with a fixed answer. */
  datatype MountCheck = Exact | CheckError | Forced(notMount: bool)

  /** `IsLikelyNotMountPoint(p)`. */
  function NotMountPoint(w: World, p: Path, check: MountCheck): Option<bool> {
    match check
    case CheckError => None
    case Forced(b) => Some(b)
    case Exact =>
      match Resolve(w.tree, p, KERNEL_LINKS)
      case Some(q) => Some(!Mounted(w, q))
      case None => None
  }

  /** The manager fills the directory `p` leads to; under a mount its writes land in the mounted volume. */
  function Fill(w: World, p: Path, content: Tree): World {
    match Resolve(w.tree, p, KERNEL_LINKS)
    case Some(q) =>
      if Lookup(w.tree, q) == Some(Dir) && !Mounted(w, q) then
        w.(tree := w.tree + map x | x in content && q < x :: content[x])
      else w
    case None => w
  }
}
