/** Stage, publish everywhere, unpublish everywhere, unstage: the node is as it was. */
module RoundTrip {
  import opened Wrappers
  import opened PathTree
  import opened Kernel
  import opened NodeMachine
  import opened Accounting
  import opened Lifecycle

  ghost predicate DistinctTargets(qs: seq<Request>) {
    forall i, j | 0 <= i < j < |qs| :: qs[i].call.target != qs[j].call.target
  }

  ghost predicate IsTarget(qs: seq<Request>, p: Path) {
    exists i | 0 <= i < |qs| :: qs[i].call.target == p
  }

  ghost predicate SameTargets(qs: seq<Request>, rs: seq<Request>) {
    |qs| == |rs| && forall i | 0 <= i < |rs| :: IsTarget(qs, rs[i].call.target)
  }

  /** An empty directory with nothing mounted on it or below it. */
  predicate EmptyDir(w: World, p: Path) {
    Lookup(w.tree, p) == Some(Dir) && !HasChild(w.tree, p) && !Busy(w.mounts, p)
  }

  lemma NotBusyNotMounted(w: World, p: Path)
    requires !Busy(w.mounts, p)
    ensures !Mounted(w, p)
  {
    StackEmpty(w.mounts, p);
  }

  /** A successful publish on a free directory adds one bind mount there. */
  lemma PublishOne(m: Manager, q: Request, w: World) returns (e: MountEntry)
    requires MountPublish(q) && Lookup(w.tree, q.call.target) == Some(Dir) && !Mounted(w, q.call.target)
    requires Serve(m, q, w).reply == Ok
    ensures Serve(m, q, w).w == w.(mounts := w.mounts + [e]) && e.path == q.call.target
  {
    PublishServed(m, q, w);
    e := BindEntry(q, w);
  }

  /** Publishes on distinct directories, none of them a mount point. */
  ghost predicate FreeTargets(qs: seq<Request>, w: World) {
    && DistinctTargets(qs)
    && forall q | q in qs :: MountPublish(q) && Lookup(w.tree, q.call.target) == Some(Dir) && !Mounted(w, q.call.target)
  }

  lemma OthersStillFree(qs: seq<Request>, w: World, e: MountEntry)
    requires qs != [] && FreeTargets(qs, w) && e.path == qs[0].call.target
    ensures FreeTargets(qs[1..], w.(mounts := w.mounts + [e]))
  {
    forall q | q in qs[1..]
      ensures !Mounted(w.(mounts := w.mounts + [e]), q.call.target)
    {
      var i :| 0 <= i < |qs[1..]| && qs[1..][i] == q;
      assert qs[0].call.target != qs[i + 1].call.target;
      StackAppend(w.mounts, e, q.call.target);
    }
  }

  ghost predicate OnTargets(binds: seq<MountEntry>, qs: seq<Request>) {
    |binds| == |qs| && forall i | 0 <= i < |qs| :: binds[i].path == qs[i].call.target
  }

  /** What one more mount at `p` does to a world. */
  ghost predicate AddsOne(w: World, w': World, p: Path) {
    && w'.tree == w.tree && |w'.mounts| == |w.mounts| + 1
    && w'.mounts[..|w.mounts|] == w.mounts && w'.mounts[|w.mounts|].path == p
  }

  ghost predicate Publishes(f: Service) {
    forall q: Request, w: World | FreeTargets([q], w) :: f(q, w).reply == Ok ==> AddsOne(w, f(q, w).w, q.call.target)
  }

  lemma ServicePublishes(m: Manager)
    ensures Publishes(ServiceOf(m))
  {
    forall q: Request, w: World | FreeTargets([q], w)
      ensures Serve(m, q, w).reply == Ok ==> AddsOne(w, Serve(m, q, w).w, q.call.target)
    {
      assert [q][0] in [q];
      if Serve(m, q, w).reply == Ok {
        var e := PublishOne(m, q, w);
      }
    }
  }

  lemma {:induction false} BindsAdd(f: Service, qs: seq<Request>, w: World) returns (binds: seq<MountEntry>)
    requires Publishes(f) && FreeTargets(qs, w) && OkThroughout(f, qs, w)
    ensures RunOf(f, qs, w) == w.(mounts := w.mounts + binds) && OnTargets(binds, qs)
  {
    if qs == [] {
      binds := [];
    } else {
      assert qs[0] in qs && FreeTargets([qs[0]], w);
      var w' := f(qs[0], w).w;
      var e := w'.mounts[|w.mounts|];
      assert w' == w.(mounts := w.mounts + [e]);
      OthersStillFree(qs, w, e);
      var rest := BindsAdd(f, qs[1..], w');
      binds := [e] + rest;
      assert w.mounts + [e] + rest == w.mounts + binds;
    }
  }

  /** k publishes add k bind mounts, one on each target, in order. */
  lemma PublishMany(m: Manager, qs: seq<Request>, w: World) returns (binds: seq<MountEntry>)
    requires FreeTargets(qs, w) && AllOk(m, qs, w)
    ensures ServeAll(m, qs, w) == w.(mounts := w.mounts + binds) && OnTargets(binds, qs)
  {
    ServicePublishes(m);
    binds := BindsAdd(ServiceOf(m), qs, w);
  }

  predicate CleanUnpublish(q: Request) {
    q.call.kind == Unpublish && q.call.volume != "" && q.call.target != [] && q.env.fails == {}
  }

  /** An unpublish takes away the newest mount of its target, then the empty target directory. */
  lemma UnpublishServed(m: Manager, q: Request, w: World)
    requires CleanUnpublish(q) && Lookup(w.tree, q.call.target) == Some(Dir) && Mounted(w, q.call.target)
    requires !HasChild(w.tree, q.call.target) && !Busy(PopTop(w.mounts, q.call.target), q.call.target)
    ensures Serve(m, q, w) == Completion(
      World(w.tree - {q.call.target}, PopTop(w.mounts, q.call.target)), Ok, [DidUnmount(q.call.target)])
  {
    AloneNotPinned(w.mounts, q.call.target);
    Advance(m, q.call, q.env, InUnpublish(UnpublishUnmountPc), [], w);
    Advance(m, q.call, q.env, InUnpublish(UnpublishRemovePc), [DidUnmount(q.call.target)],
      w.(mounts := PopTop(w.mounts, q.call.target)));
    assert [DidUnmount(q.call.target)] + [] == [DidUnmount(q.call.target)];
  }

  ghost predicate BoundAt(binds: seq<MountEntry>, p: Path) {
    exists j | 0 <= j < |binds| :: binds[j].path == p
  }

  ghost predicate BoundTargets(w: World, base: seq<MountEntry>, binds: seq<MountEntry>) {
    && w.mounts == base + binds
    && (forall i, j | 0 <= i < j < |binds| :: binds[i].path != binds[j].path)
    && forall b | b in binds :: EmptyDir(w.(mounts := base), b.path)
  }

  function Without(binds: seq<MountEntry>, j: nat): seq<MountEntry>
    requires j < |binds|
  {
    binds[..j] + binds[j + 1..]
  }

  lemma PopBind(w: World, base: seq<MountEntry>, binds: seq<MountEntry>, j: nat)
    requires BoundTargets(w, base, binds) && j < |binds|
    ensures Mounted(w, binds[j].path) && PopTop(w.mounts, binds[j].path) == base + Without(binds, j)
  {
    assert base + binds == (base + binds[..j]) + [binds[j]] + binds[j + 1..];
    PopSkips(base + binds[..j], binds[j], binds[j + 1..]);
    assert base + binds[..j] + binds[j + 1..] == base + Without(binds, j);
    StackEmpty(w.mounts, binds[j].path);
    assert w.mounts[|base| + j] == binds[j];
  }

  lemma StillEmpty(w: World, p: Path, q: Path)
    requires EmptyDir(w, p) && p != q
    ensures EmptyDir(w.(tree := w.tree - {q}), p)
  {
  }

  lemma WithoutMembers(binds: seq<MountEntry>, j: nat)
    requires j < |binds| && forall i, k | 0 <= i < k < |binds| :: binds[i].path != binds[k].path
    ensures forall b | b in Without(binds, j) :: b in binds && b.path != binds[j].path
    ensures forall i, k | 0 <= i < k < |Without(binds, j)| :: Without(binds, j)[i].path != Without(binds, j)[k].path
    ensures forall p | BoundAt(binds, p) && p != binds[j].path :: BoundAt(Without(binds, j), p)
  {
    forall p | BoundAt(binds, p) && p != binds[j].path
      ensures BoundAt(Without(binds, j), p)
    {
      var k :| 0 <= k < |binds| && binds[k].path == p;
      assert Without(binds, j)[if k < j then k else k - 1] == binds[k];
    }
  }

  lemma WithoutStays(w: World, base: seq<MountEntry>, binds: seq<MountEntry>, j: nat)
    requires BoundTargets(w, base, binds) && j < |binds|
    ensures BoundTargets(World(w.tree - {binds[j].path}, base + Without(binds, j)), base, Without(binds, j))
  {
    WithoutMembers(binds, j);
    forall b | b in Without(binds, j) {
      StillEmpty(w.(mounts := base), b.path, binds[j].path);
    }
  }

  lemma NothingBelow(w: World, base: seq<MountEntry>, binds: seq<MountEntry>, j: nat)
    requires BoundTargets(w, base, binds) && j < |binds|
    ensures !Busy(base + Without(binds, j), binds[j].path)
  {
    var t := binds[j].path;
    WithoutMembers(binds, j);
    assert binds[j] in binds && EmptyDir(w.(mounts := base), t);
    forall e | e in base + Without(binds, j)
      ensures !(t <= e.path)
    {
      if e in Without(binds, j) {
        assert EmptyDir(w.(mounts := base), e.path);
      }
    }
  }

  /** An unpublish of a mounted, otherwise empty target takes away its newest mount and the directory. */
  ghost predicate Unpublishes(f: Service) {
    forall q: Request, w: World |
      && CleanUnpublish(q) && Lookup(w.tree, q.call.target) == Some(Dir) && Mounted(w, q.call.target)
      && !HasChild(w.tree, q.call.target) && !Busy(PopTop(w.mounts, q.call.target), q.call.target) ::
        f(q, w).reply == Ok && f(q, w).w == World(w.tree - {q.call.target}, PopTop(w.mounts, q.call.target))
  }

  lemma ServiceUnpublishes(m: Manager)
    ensures Unpublishes(ServiceOf(m))
  {
    forall q: Request, w: World |
      && CleanUnpublish(q) && Lookup(w.tree, q.call.target) == Some(Dir) && Mounted(w, q.call.target)
      && !HasChild(w.tree, q.call.target) && !Busy(PopTop(w.mounts, q.call.target), q.call.target)
      ensures Serve(m, q, w).reply == Ok
      ensures Serve(m, q, w).w == World(w.tree - {q.call.target}, PopTop(w.mounts, q.call.target))
    {
      UnpublishServed(m, q, w);
    }
  }

  /** Taking one bind mount away, wherever it sits in the table. */
  lemma UnpublishOne(f: Service, q: Request, w: World, base: seq<MountEntry>, binds: seq<MountEntry>, j: nat)
    requires Unpublishes(f) && CleanUnpublish(q) && BoundTargets(w, base, binds)
    requires j < |binds| && binds[j].path == q.call.target
    ensures f(q, w).reply == Ok && f(q, w).w == World(w.tree - {q.call.target}, base + Without(binds, j))
  {
    assert binds[j] in binds && EmptyDir(w.(mounts := base), binds[j].path);
    PopBind(w, base, binds, j);
    NothingBelow(w, base, binds, j);
  }

  ghost predicate AllBound(qs: seq<Request>, binds: seq<MountEntry>) {
    && |binds| == |qs| && DistinctTargets(qs)
    && (forall q | q in qs :: CleanUnpublish(q))
    && forall i | 0 <= i < |qs| :: BoundAt(binds, qs[i].call.target)
  }

  lemma AllBoundTail(qs: seq<Request>, binds: seq<MountEntry>, j: nat)
    requires AllBound(qs, binds) && qs != [] && j < |binds| && binds[j].path == qs[0].call.target
    requires forall i, k | 0 <= i < k < |binds| :: binds[i].path != binds[k].path
    ensures AllBound(qs[1..], Without(binds, j))
  {
    WithoutMembers(binds, j);
    assert forall i | 0 <= i < |qs[1..]| :: qs[1..][i] == qs[i + 1];
  }

  lemma {:induction false} BindsGo(
      f: Service, qs: seq<Request>, w: World, base: seq<MountEntry>, binds: seq<MountEntry>)
    requires Unpublishes(f) && BoundTargets(w, base, binds) && AllBound(qs, binds)
    ensures OkThroughout(f, qs, w) && RunOf(f, qs, w).mounts == base
    ensures forall p :: Lookup(RunOf(f, qs, w).tree, p) == if IsTarget(qs, p) then None else Lookup(w.tree, p)
  {
    if qs != [] {
      assert BoundAt(binds, qs[0].call.target);
      var j :| 0 <= j < |binds| && binds[j].path == qs[0].call.target;
      UnpublishOne(f, qs[0], w, base, binds, j);
      WithoutStays(w, base, binds, j);
      AllBoundTail(qs, binds, j);
      BindsGo(f, qs[1..], f(qs[0], w).w, base, Without(binds, j));
      forall p {
        TargetSplit(qs, p);
      }
    }
  }

  /** The bind mounts go one by one, in whatever order they are asked to. */
  lemma UnpublishMany(m: Manager, qs: seq<Request>, w: World, base: seq<MountEntry>, binds: seq<MountEntry>)
    requires BoundTargets(w, base, binds) && AllBound(qs, binds)
    ensures AllOk(m, qs, w) && ServeAll(m, qs, w).mounts == base
    ensures forall p :: Lookup(ServeAll(m, qs, w).tree, p) == if IsTarget(qs, p) then None else Lookup(w.tree, p)
  {
    ServiceUnpublishes(m);
    BindsGo(ServiceOf(m), qs, w, base, binds);
  }

  lemma TargetSplit(qs: seq<Request>, p: Path)
    requires qs != []
    ensures IsTarget(qs, p) <==> qs[0].call.target == p || IsTarget(qs[1..], p)
  {
    if IsTarget(qs, p) {
      var i :| 0 <= i < |qs| && qs[i].call.target == p;
      assert i > 0 ==> qs[1..][i - 1].call.target == p;
    }
    if IsTarget(qs[1..], p) {
      var i :| 0 <= i < |qs[1..]| && qs[1..][i].call.target == p;
      assert qs[i + 1].call.target == p;
    }
  }

  /** Publishing on k targets and unpublishing them in any order: the mounts are back, the targets are gone. */
  lemma PublishRoundTrip(m: Manager, pubs: seq<Request>, unpubs: seq<Request>, w: World)
    requires forall q | q in pubs :: MountPublish(q) && EmptyDir(w, q.call.target)
    requires forall q | q in unpubs :: CleanUnpublish(q)
    requires DistinctTargets(pubs) && DistinctTargets(unpubs) && SameTargets(pubs, unpubs)
    requires AllOk(m, pubs, w)
    ensures var w1 := ServeAll(m, pubs, w);
            && AllOk(m, unpubs, w1)
            && ServeAll(m, unpubs, w1).mounts == w.mounts
            && forall p :: Lookup(ServeAll(m, unpubs, w1).tree, p) == if IsTarget(unpubs, p) then None
                 else Lookup(w.tree, p)
  {
    forall q | q in pubs ensures !Mounted(w, q.call.target) {
      NotBusyNotMounted(w, q.call.target);
    }
    var binds := PublishMany(m, pubs, w);
    forall b | b in binds ensures EmptyDir(w, b.path) {
      var i :| 0 <= i < |binds| && binds[i] == b;
      assert pubs[i] in pubs;
    }
    forall i | 0 <= i < |unpubs|
      ensures BoundAt(binds, unpubs[i].call.target)
    {
      assert IsTarget(pubs, unpubs[i].call.target);
      var j :| 0 <= j < |pubs| && pubs[j].call.target == unpubs[i].call.target;
      assert binds[j].path == unpubs[i].call.target;
    }
    UnpublishMany(m, unpubs, ServeAll(m, pubs, w), w.mounts, binds);
  }

  /** A mount stage with the manager's answer `r`. */
  predicate MountStage(m: Manager, q: Request) {
    MountAccessStage(q) && Mounting(m, q) && q.env.response.value.value.source != ""
  }

  /** The path is not hidden by a mount made on what staging leads to. */
  predicate OutsideStaging(w: World, staging: Path, p: Path) {
    var to := Resolve(w.tree, staging, KERNEL_LINKS);
    to.Some? ==> !(to.value <= p)
  }

  /**
   * Staging adds one mount, on a directory that neither is nor contains a target; the targets stay empty and unmounted.
   */
  lemma StagedTargets(m: Manager, stage: Request, pubs: seq<Request>, w: World)
    requires MountStage(m, stage) && Serve(m, stage, w).reply == Ok
    requires forall q | q in pubs ::
               EmptyDir(w, q.call.target) && OutsideStaging(w, stage.call.staging, q.call.target)
    ensures Resolve(w.tree, stage.call.staging, KERNEL_LINKS).Some?
    ensures var to := Resolve(w.tree, stage.call.staging, KERNEL_LINKS).value;
            && Lookup(w.tree, to) == Some(Dir)
            && Serve(m, stage, w).w
               == w.(mounts := w.mounts + [StageEntry(stage.call, stage.env.response.value.value, to)])
    ensures forall q | q in pubs :: EmptyDir(Serve(m, stage, w).w, q.call.target)
  {
    StageServed(m, stage, w);
    var to := Resolve(w.tree, stage.call.staging, KERNEL_LINKS).value;
    var e := StageEntry(stage.call, stage.env.response.value.value, to);
    forall q | q in pubs ensures !Busy(w.mounts + [e], q.call.target) {
      assert EmptyDir(w, q.call.target);
      assert !(q.call.target < to) && q.call.target != to;
      forall x | x in w.mounts + [e] ensures !(q.call.target <= x.path) {
        assert x in w.mounts || x == e;
      }
    }
  }

  /** Unstaging a directory whose newest mount is the staged one restores the table under it. */
  lemma UnstageLast(m: Manager, q: Request, w: World, base: seq<MountEntry>, e: MountEntry)
    requires CleanUnstage(q) && Resolve(w.tree, q.call.staging, KERNEL_LINKS) == Some(e.path) &&
             Lookup(w.tree, e.path) == Some(Dir)
    requires w.mounts == base + [e] && forall x | x in w.mounts :: x.device != ""
    ensures Serve(m, q, w).reply == Ok && Serve(m, q, w).w == w.(mounts := base)
    ensures m.block ==> (Detached(e.device) in Serve(m, q, w).log
            <==> StackAt(base, e.path) == [] || FirstDevice(base, e.path) == e.device)
  {
    StackAppend(base, e, e.path);
    StackMembers(w.mounts, e.path);
    var s := StackAt(w.mounts, e.path);
    assert s[0] in s;
    assert w.mounts[|w.mounts| - 1] == e && w.mounts[..|w.mounts| - 1] == base;
    assert !PinnedWithin(base, e.path, 0);
    UnstageMounted(m, q, w, e.path);
  }

  /** What is left once a volume's life is over. */
  ghost predicate Restored(m: Manager, stage: Request, unpubs: seq<Request>, w: World, last: Completion) {
    var to := Resolve(w.tree, stage.call.staging, KERNEL_LINKS);
    && last.reply == Ok && to.Some?
    && last.w.mounts == w.mounts
    && (forall p :: Lookup(last.w.tree, p) == if IsTarget(unpubs, p) then None else Lookup(w.tree, p))
    && Lookup(last.w.tree, to.value) == Some(Dir)
    && (m.block && stage.env.response.Success? && stage.env.response.value.Some? ==>
          var source := stage.env.response.value.value.source;
          (Detached(source) in last.log <==> !Mounted(w, to.value) || FirstDevice(w.mounts, to.value) == source))
  }

  /**
   * The whole life of a volume: one stage, k publishes on distinct empty directories, their unpublishes in any order,
   * one unstage. If the first half succeeds the second half does too, the mount table is restored exactly, the targets
   * are gone and nothing else in the tree has changed. The device handed to DetachBlock is that of the oldest mount on
   * the staging directory: the staged source exactly when nothing from another source was mounted there before.
   */
  lemma VolumeRoundTrip(
      m: Manager, stage: Request, pubs: seq<Request>, unpubs: seq<Request>, unstage: Request, w: World)
    requires MountStage(m, stage) && CleanUnstage(unstage) && unstage.call.staging == stage.call.staging
    requires forall q | q in pubs ::
               EmptyDir(w, q.call.target) && OutsideStaging(w, stage.call.staging, q.call.target)
    requires forall q | q in pubs :: MountPublish(q)
    requires forall q | q in unpubs :: CleanUnpublish(q)
    requires DistinctTargets(pubs) && DistinctTargets(unpubs) && SameTargets(pubs, unpubs)
    requires forall e | e in w.mounts :: e.device != ""
    requires Serve(m, stage, w).reply == Ok && AllOk(m, pubs, Serve(m, stage, w).w)
    ensures var w1 := ServeAll(m, pubs, Serve(m, stage, w).w);
            AllOk(m, unpubs, w1) && Restored(m, stage, unpubs, w, Serve(m, unstage, ServeAll(m, unpubs, w1)))
  {
    StagedTargets(m, stage, pubs, w);
    var to := Resolve(w.tree, stage.call.staging, KERNEL_LINKS).value;
    var e := StageEntry(stage.call, stage.env.response.value.value, to);
    var w1 := Serve(m, stage, w).w;
    PublishRoundTrip(m, pubs, unpubs, w1);
    var w2 := ServeAll(m, unpubs, ServeAll(m, pubs, w1));
    TargetsElsewhere(pubs, unpubs, w, stage.call.staging);
    ResolveAround(w.tree, w2.tree, unpubs, stage.call.staging, KERNEL_LINKS);
    UnstageLast(m, unstage, w2, w.mounts, e);
  }

  /** The staging path, and what it resolves to, are not among the targets. */
  lemma TargetsElsewhere(pubs: seq<Request>, unpubs: seq<Request>, w: World, staging: Path)
    requires forall q | q in pubs ::
               EmptyDir(w, q.call.target) && Resolve(w.tree, staging, KERNEL_LINKS) != Some(q.call.target)
    requires SameTargets(pubs, unpubs)
    ensures forall p | IsTarget(unpubs, p) ::
              Lookup(w.tree, p) == Some(Dir) && Resolve(w.tree, staging, KERNEL_LINKS) != Some(p)
  {
    forall p | IsTarget(unpubs, p)
      ensures Lookup(w.tree, p) == Some(Dir) && Resolve(w.tree, staging, KERNEL_LINKS) != Some(p)
    {
      var i :| 0 <= i < |unpubs| && unpubs[i].call.target == p;
      assert IsTarget(pubs, unpubs[i].call.target);
      var j :| 0 <= j < |pubs| && pubs[j].call.target == p;
      assert pubs[j] in pubs;
    }
  }

  /** Removing directories does not disturb a chain of links that ends elsewhere. */
  lemma {:induction false} ResolveAround(t: Tree, t': Tree, gone: seq<Request>, p: Path, hops: nat)
    requires forall x :: Lookup(t', x) == if IsTarget(gone, x) then None else Lookup(t, x)
    requires forall x | IsTarget(gone, x) :: Lookup(t, x) == Some(Dir) && Resolve(t, p, hops) != Some(x)
    requires Resolve(t, p, hops).Some?
    ensures Resolve(t', p, hops) == Resolve(t, p, hops)
    decreases hops
  {
    assert !IsTarget(gone, p);
    if t[p].Link? {
      ResolveAround(t, t', gone, t[p].dest, hops - 1);
    }
  }

  /**
   * The same where the stage only filled the staging directory. The mount table is restored and the targets are gone.
   * The unstage answers OK, and tells a block manager to detach the empty device, if and only if no mount was at or
   * below the staging path. Everything below that path goes that can; the rest is as the stage left it, so a staging
   * path that is a link to a directory loses the link and not the files.
   */
  lemma PopulateRoundTrip(
      m: Manager, stage: Request, pubs: seq<Request>, unpubs: seq<Request>, unstage: Request, w: World, to: Path)
    requires MountAccessStage(stage) && !Mounting(m, stage) && Serve(m, stage, w).reply == Ok
    requires CleanUnstage(unstage) && unstage.call.staging == stage.call.staging
    requires var w1 := Serve(m, stage, w).w;
             Resolve(w1.tree, stage.call.staging, KERNEL_LINKS) == Some(to) && !IsBareDevice(w1, to) && !Mounted(w1, to)
    requires forall q | q in pubs ::
               MountPublish(q) && EmptyDir(Serve(m, stage, w).w, q.call.target) && q.call.target != to
    requires forall q | q in unpubs :: CleanUnpublish(q)
    requires DistinctTargets(pubs) && DistinctTargets(unpubs) && SameTargets(pubs, unpubs)
    requires AllOk(m, pubs, Serve(m, stage, w).w)
    ensures var w1, staging := Serve(m, stage, w).w, stage.call.staging;
            var w2 := ServeAll(m, pubs, w1);
            var last := Serve(m, unstage, ServeAll(m, unpubs, w2));
            && AllOk(m, unpubs, w2)
            && (last.reply == Ok <==> !Busy(w.mounts, staging))
            && last.w.mounts == w.mounts
            && (forall p :: Lookup(last.w.tree, p) ==
                  if IsTarget(unpubs, p) || Deletable(w, staging, p) then None else Lookup(w1.tree, p))
            && (m.block && last.reply == Ok ==> Detached("") in last.log)
  {
    PopulateServed(m, stage, w);
    AfterPopulate(m, pubs, unpubs, unstage, Serve(m, stage, w).w, to);
    assert forall p :: Deletable(Serve(m, stage, w).w, stage.call.staging, p) <==> Deletable(w, stage.call.staging, p);
  }

  /** What follows the stage. */
  lemma AfterPopulate(m: Manager, pubs: seq<Request>, unpubs: seq<Request>, unstage: Request, w1: World, to: Path)
    requires CleanUnstage(unstage) && Resolve(w1.tree, unstage.call.staging, KERNEL_LINKS) == Some(to)
    requires !IsBareDevice(w1, to) && !Mounted(w1, to)
    requires forall q | q in pubs :: MountPublish(q) && EmptyDir(w1, q.call.target) && q.call.target != to
    requires forall q | q in unpubs :: CleanUnpublish(q)
    requires DistinctTargets(pubs) && DistinctTargets(unpubs) && SameTargets(pubs, unpubs) && AllOk(m, pubs, w1)
    ensures var staging, w2 := unstage.call.staging, ServeAll(m, pubs, w1);
            var last := Serve(m, unstage, ServeAll(m, unpubs, w2));
            && AllOk(m, unpubs, w2)
            && (last.reply == Ok <==> !Busy(w1.mounts, staging))
            && last.w.mounts == w1.mounts
            && (forall p :: Lookup(last.w.tree, p) ==
                  if IsTarget(unpubs, p) || Deletable(w1, staging, p) then None else Lookup(w1.tree, p))
            && (m.block && last.reply == Ok ==> Detached("") in last.log)
  {
    PublishRoundTrip(m, pubs, unpubs, w1);
    TargetsElsewhere(pubs, unpubs, w1, unstage.call.staging);
    AfterUnpublishes(m, unpubs, unstage, w1, ServeAll(m, unpubs, ServeAll(m, pubs, w1)), to);
  }

  lemma AfterUnpublishes(m: Manager, unpubs: seq<Request>, unstage: Request, w1: World, w3: World, to: Path)
    requires CleanUnstage(unstage) && Resolve(w1.tree, unstage.call.staging, KERNEL_LINKS) == Some(to)
    requires !IsBareDevice(w1, to) && !Mounted(w1, to) && w3.mounts == w1.mounts
    requires forall p :: Lookup(w3.tree, p) == if IsTarget(unpubs, p) then None else Lookup(w1.tree, p)
    requires forall p | IsTarget(unpubs, p) :: Lookup(w1.tree, p) == Some(Dir) && p != to
    ensures var staging, last := unstage.call.staging, Serve(m, unstage, w3);
            && (last.reply == Ok <==> !Busy(w1.mounts, staging))
            && last.w.mounts == w1.mounts
            && (forall p :: Lookup(last.w.tree, p) ==
                  if IsTarget(unpubs, p) || Deletable(w1, staging, p) then None else Lookup(w1.tree, p))
            && (m.block && last.reply == Ok ==> Detached("") in last.log)
  {
    var staging := unstage.call.staging;
    ResolveAround(w1.tree, w3.tree, unpubs, staging, KERNEL_LINKS);
    assert Lookup(w3.tree, to) == Lookup(w1.tree, to);
    UnstagePopulated(m, unstage, w3, to);
    assert forall p :: Deletable(w3, staging, p) <==> Deletable(w1, staging, p);
  }

  /** In the plain case, a staging directory without mounts below it, all of it is gone and the rest is as it was. */
  lemma PopulateRestores(
      m: Manager, stage: Request, pubs: seq<Request>, unpubs: seq<Request>, unstage: Request, w: World)
    requires MountAccessStage(stage) && !Mounting(m, stage) && Serve(m, stage, w).reply == Ok
    requires CleanUnstage(unstage) && unstage.call.staging == stage.call.staging
    requires Lookup(w.tree, stage.call.staging) == Some(Dir) && !Busy(w.mounts, stage.call.staging)
    requires forall q | q in pubs ::
               MountPublish(q) && EmptyDir(w, q.call.target) && !(stage.call.staging <= q.call.target)
    requires forall q | q in unpubs :: CleanUnpublish(q)
    requires DistinctTargets(pubs) && DistinctTargets(unpubs) && SameTargets(pubs, unpubs)
    requires AllOk(m, pubs, Serve(m, stage, w).w)
    ensures var w2 := ServeAll(m, pubs, Serve(m, stage, w).w);
            var last := Serve(m, unstage, ServeAll(m, unpubs, w2));
            && AllOk(m, unpubs, w2) && last.reply == Ok && last.w.mounts == w.mounts
            && forall p :: Lookup(last.w.tree, p) ==
                 if IsTarget(unpubs, p) || stage.call.staging <= p then None else Lookup(w.tree, p)
  {
    var staging := stage.call.staging;
    PopulateServed(m, stage, w);
    NotBusyNotMounted(w, staging);
    var w1 := Serve(m, stage, w).w;
    assert forall p | !(staging <= p) || p == staging :: Lookup(w1.tree, p) == Lookup(w.tree, p);
    forall q | q in pubs ensures EmptyDir(w1, q.call.target) {
      assert !(q.call.target <= staging);
    }
    PopulateRoundTrip(m, stage, pubs, unpubs, unstage, w, staging);
    assert forall p | staging <= p :: Deletable(w, staging, p);
  }

  function Times(q: Request, n: nat): seq<Request> {
    if n == 0 then [] else [q] + Times(q, n - 1)
  }

  lemma FillTwice(w: World, p: Path, content: Tree)
    requires Resolve(Fill(w, p, content).tree, p, KERNEL_LINKS) == Resolve(w.tree, p, KERNEL_LINKS)
    ensures var w' := Fill(w, p, content); Fill(w', p, content) == w'
  {
    var to := Resolve(w.tree, p, KERNEL_LINKS);
    if to.Some? && Lookup(w.tree, to.value) == Some(Dir) && !Mounted(w, to.value) {
      var below := map x | x in content && to.value < x :: content[x];
      assert (w.tree + below) + below == w.tree + below;
    }
  }

  lemma {:induction false} PopulatedStays(m: Manager, q: Request, n: nat, w: World)
    requires MountAccessStage(q) && !Mounting(m, q) && AllOk(m, Times(q, n), w)
    requires Fill(w, q.call.staging, q.env.populated) == w
    ensures ServeAll(m, Times(q, n), w) == w
  {
    if n > 0 {
      PopulateServed(m, q, w);
      assert Times(q, n)[1..] == Times(q, n - 1);
      PopulatedStays(m, q, n - 1, w);
    }
  }

  /**
   * Repeating a successful stage changes nothing if and only if the manager offers nothing to mount: the node is then
   * as after the first, and otherwise it never is. The files of the first call must not redirect the staging path.
   */
  lemma RepeatedStageIff(m: Manager, q: Request, n: nat, w: World)
    requires MountAccessStage(q) && AllOk(m, Times(q, n + 1), w)
    requires Resolve(Serve(m, q, w).w.tree, q.call.staging, KERNEL_LINKS)
             == Resolve(w.tree, q.call.staging, KERNEL_LINKS)
    ensures ServeAll(m, Times(q, n + 1), w) == Serve(m, q, w).w <==> n == 0 || !Mounting(m, q)
  {
    var w' := Serve(m, q, w).w;
    assert Times(q, n + 1)[0] == q && Times(q, n + 1)[1..] == Times(q, n);
    if Mounting(m, q) {
      TimesAre(q, n);
      StagesMountIff(m, Times(q, n), w');
    } else {
      PopulateServed(m, q, w);
      FillTwice(w, q.call.staging, q.env.populated);
      PopulatedStays(m, q, n, w');
    }
  }

  lemma {:induction false} TimesAre(q: Request, n: nat)
    ensures |Times(q, n)| == n && forall x | x in Times(q, n) :: x == q
  {
    if n > 0 {
      TimesAre(q, n - 1);
    }
  }

  /** A stage that mounts leaves one more mount with a device, on the directory that staging leads to. */
  ghost predicate Stages(f: Service, m: Manager) {
    forall q: Request, w: World | MountStage(m, q) :: f(q, w).reply == Ok ==>
      var to := Resolve(w.tree, q.call.staging, KERNEL_LINKS);
      && to.Some? && Lookup(w.tree, to.value) == Some(Dir)
      && AddsOne(w, f(q, w).w, to.value) && f(q, w).w.mounts[|w.mounts|].device != ""
  }

  lemma ServiceStages(m: Manager)
    ensures Stages(ServiceOf(m), m)
  {
    forall q: Request, w: World | MountStage(m, q) && Serve(m, q, w).reply == Ok
      ensures var to := Resolve(w.tree, q.call.staging, KERNEL_LINKS);
              && to.Some? && Lookup(w.tree, to.value) == Some(Dir)
              && AddsOne(w, Serve(m, q, w).w, to.value) && Serve(m, q, w).w.mounts[|w.mounts|].device != ""
    {
      StageServed(m, q, w);
    }
  }

  ghost predicate OnStaging(es: seq<MountEntry>, w: World, staging: Path) {
    forall e | e in es ::
      Resolve(w.tree, staging, KERNEL_LINKS) == Some(e.path) && Lookup(w.tree, e.path) == Some(Dir) && e.device != ""
  }

  lemma {:induction false} MountsPile(f: Service, m: Manager, qs: seq<Request>, w: World, staging: Path)
    returns (es: seq<MountEntry>)
    requires Stages(f, m) && forall q | q in qs :: MountStage(m, q) && q.call.staging == staging
    requires OkThroughout(f, qs, w)
    ensures RunOf(f, qs, w) == w.(mounts := w.mounts + es) && |es| == |qs| && OnStaging(es, w, staging)
  {
    if qs == [] {
      es := [];
    } else {
      assert qs[0] in qs;
      var w' := f(qs[0], w).w;
      var e := w'.mounts[|w.mounts|];
      assert w' == w.(mounts := w.mounts + [e]);
      var rest := MountsPile(f, m, qs[1..], w', staging);
      es := [e] + rest;
      assert w.mounts + [e] + rest == w.mounts + es;
    }
  }

  /** Where the manager does mount, every successful call stacks one more mount on the same directory. */
  lemma StagesStack(m: Manager, qs: seq<Request>, w: World, staging: Path) returns (es: seq<MountEntry>)
    requires forall q | q in qs :: MountStage(m, q) && q.call.staging == staging
    requires AllOk(m, qs, w)
    ensures ServeAll(m, qs, w) == w.(mounts := w.mounts + es) && |es| == |qs| && OnStaging(es, w, staging)
  {
    ServiceStages(m);
    es := MountsPile(ServiceOf(m), m, qs, w, staging);
  }

  lemma {:induction false} UnstagesPeel(
      m: Manager, qs: seq<Request>, w: World, base: seq<MountEntry>, es: seq<MountEntry>, to: Path)
    requires forall q | q in qs :: CleanUnstage(q) && Resolve(w.tree, q.call.staging, KERNEL_LINKS) == Some(to)
    requires Lookup(w.tree, to) == Some(Dir) && |es| == |qs|
    requires w.mounts == base + es && (forall e | e in es :: e.path == to) && forall e | e in w.mounts :: e.device != ""
    ensures AllOk(m, qs, w) && ServeAll(m, qs, w) == w.(mounts := base)
  {
    if qs == [] {
      assert base + es == base;
    } else {
      var n := |es| - 1;
      var e := es[n];
      assert e in es;
      assert w.mounts == base + es[..n] + [e];
      UnstageLast(m, qs[0], w, base + es[..n], e);
      UnstagesPeel(m, qs[1..], w.(mounts := base + es[..n]), base, es[..n], to);
    }
  }

  /** n stages on one directory are undone by n unstages, and the node is as it was. */
  lemma StackedRoundTrip(m: Manager, stages: seq<Request>, unstages: seq<Request>, w: World, staging: Path)
    requires forall q | q in stages :: MountStage(m, q) && q.call.staging == staging
    requires forall q | q in unstages :: CleanUnstage(q) && q.call.staging == staging
    requires |stages| == |unstages| && forall e | e in w.mounts :: e.device != ""
    requires AllOk(m, stages, w)
    ensures AllOk(m, unstages, ServeAll(m, stages, w)) && ServeAll(m, unstages, ServeAll(m, stages, w)) == w
  {
    var es := StagesStack(m, stages, w, staging);
    var w' := ServeAll(m, stages, w);
    if es != [] {
      assert es[0] in es;
      UnstagesPeel(m, unstages, w', w.mounts, es, es[0].path);
    } else {
      assert w.mounts + es == w.mounts;
    }
  }

  /**
   * Block access succeeds only if the directory that the check before the lock found has vanished since: the link is
   * made at that very path. A directory that is still there gives Internal.
   */
  lemma BlockStageNeedsVanishedDirectory(m: Manager, q: Request, w: World)
    requires q.call.kind == Stage && AccessOf(q.call).BlockAccess? && PreLock(q.call, q.env) == None
    requires m.block && q.env.attach.Success? && q.env.attach.value != []
    ensures Serve(m, q, w).reply == Ok <==>
              AtSymlink !in q.env.fails && q.call.staging !in w.tree && IsDir(w.tree, Parent(q.call.staging))
    ensures q.call.staging in w.tree ==> Serve(m, q, w).reply == Error(Internal) && Serve(m, q, w).w == w
  {
    Advance(m, q.call, q.env, InStage(AttachPc), [], w);
    Advance(m, q.call, q.env, InStage(StageLinkPc(q.env.attach.value)), [Attached(q.env.attach.value)], w);
  }
}
