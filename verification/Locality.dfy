/** Which paths belong to which volume, and why a request only sees and changes its own. */
module Locality {
  import opened Wrappers
  import opened PathTree
  import opened Kernel
  import opened NodeMachine

  /** `owner` divides the paths among volumes; paths of no volume look as they do in `base` for ever. */
  datatype Layout = Layout(owner: Path -> Option<string>, base: World)

  /** Everything below a volume's path belongs to that volume. */
  ghost predicate Hereditary(l: Layout) {
    forall p, q :: Within(p, q) && l.owner(p).Some? ==> l.owner(q) == l.owner(p)
  }

  predicate Within(p: Path, q: Path) {
    p <= q
  }

  /** Nothing to follow, enter or unmount: where a link out of a volume's own paths may lead, such as /dev. */
  ghost predicate Terminal(w: World, p: Path) {
    && (Lookup(w.tree, p) == None || w.tree[p].File? || w.tree[p].Device?)
    && StackAt(w.mounts, p) == []
  }

  ghost predicate SafeDest(l: Layout, v: string, d: Path) {
    l.owner(d) == Some(v) || (l.owner(d) == None && Terminal(l.base, d))
  }

  ghost predicate SafeLinks(l: Layout, v: string, n: Option<Node>) {
    n.Some? && n.value.Link? ==> SafeDest(l, v, n.value.dest)
  }

  /** Two worlds look the same at `p`: the same node and the same mounts. */
  ghost predicate SameAt(w: World, w': World, p: Path) {
    Lookup(w.tree, p) == Lookup(w'.tree, p) && StackAt(w.mounts, p) == StackAt(w'.mounts, p)
  }

  /** No link leads from one volume into another, and nothing outside the volumes has changed. */
  ghost predicate Confined(l: Layout, w: World) {
    && (forall p :: l.owner(p) == None ==> SameAt(w, l.base, p))
    && (forall p :: l.owner(p).Some? ==> SafeLinks(l, l.owner(p).value, Lookup(w.tree, p)))
  }

  /** The mounts on the volume's paths, in the order of the table. */
  function TableOf(l: Layout, v: string, ms: seq<MountEntry>): seq<MountEntry> {
    if ms == [] then []
    else
      var last := ms[|ms| - 1];
      if l.owner(last.path) == Some(v) then TableOf(l, v, ms[..|ms| - 1]) + [last] else TableOf(l, v, ms[..|ms| - 1])
  }

  ghost predicate SameTable(l: Layout, v: string, w: World, w': World) {
    TableOf(l, v, w.mounts) == TableOf(l, v, w'.mounts)
  }

  /** Two worlds that volume `v` cannot tell apart. */
  ghost predicate SameView(l: Layout, v: string, w: World, w': World) {
    SameTable(l, v, w, w') && forall p :: l.owner(p) == Some(v) ==> SameAt(w, w', p)
  }

  /** All changes are to paths of `v`. */
  ghost predicate OnlyTouches(l: Layout, v: string, w: World, w': World) {
    && (forall p :: l.owner(p) != Some(v) ==> SameAt(w, w', p))
    && (forall u :: u != v ==> SameTable(l, u, w, w'))
  }

  /** The checks before the lock let the request through. */
  predicate Admitted(r: Rpc) {
    PreLock(r.call, r.env) == None
  }

  /** The paths a request names are its volume's. */
  ghost predicate OwnsPaths(l: Layout, call: Call) {
    && (call.kind != Unpublish ==> l.owner(call.staging) == Some(call.volume))
    && (call.kind == Publish || call.kind == Unpublish ==> l.owner(call.target) == Some(call.volume))
  }

  /** What the manager does for a request links to nothing of another volume. */
  ghost predicate ManagerStays(l: Layout, r: Rpc) {
    && (r.env.attach.Success? ==> SafeDest(l, r.call.volume, r.env.attach.value))
    && (forall p | p in r.env.populated :: SafeLinks(l, r.call.volume, Some(r.env.populated[p])))
  }

  ghost predicate InScope(l: Layout, r: Rpc) {
    OwnsPaths(l, r.call) && ManagerStays(l, r)
  }

  /** A request that can get its lock uses paths of its own volume, and so does the manager for it. */
  ghost predicate Scoped(l: Layout, r: Rpc) {
    Admitted(r) ==> InScope(l, r)
  }

  /** The paths a request has resolved so far stay within its reach. */
  ghost predicate ScopedPc(l: Layout, v: string, phase: Phase) {
    phase.Active? ==>
      match phase.pc
      case InStage(pc) => pc.StageLinkPc? ==> SafeDest(l, v, pc.device)
      case InPublish(pc) =>
        (pc.PublishStatPc? ==> SafeDest(l, v, pc.resolved)) &&
        (pc.PublishLinkPc? ==> pc.device == [] || SafeDest(l, v, pc.device))
      case InUnpublish(_) => true
      case InUnstage(pc) => pc.UnstageStatPc? || pc.UnstageCheckPc? || pc.UnstageListPc? ==> SafeDest(l, v, pc.resolved)
  }

  /** Which call a program counter can belong to. */
  predicate Fits(kind: Kind, phase: Phase) {
    phase.Active? ==>
      match phase.pc
      case InStage(_) => kind == Stage
      case InPublish(_) => kind == Publish
      case InUnpublish(_) => kind == Unpublish
      case InUnstage(_) => kind == Unstage
  }

  lemma TableAppend(l: Layout, v: string, ms: seq<MountEntry>, e: MountEntry)
    ensures TableOf(l, v, ms + [e]) == if l.owner(e.path) == Some(v) then TableOf(l, v, ms) + [e] else TableOf(l, v, ms)
  {
    assert (ms + [e])[..|ms|] == ms;
  }

  /** Unmounting at a path takes the same line from its volume's mounts, and none from another's. */
  lemma {:induction false} TablePop(l: Layout, v: string, ms: seq<MountEntry>, q: Path)
    ensures TableOf(l, v, PopTop(ms, q))
         == if l.owner(q) == Some(v) then PopTop(TableOf(l, v, ms), q) else TableOf(l, v, ms)
  {
    if ms != [] {
      var init, last := ms[..|ms| - 1], ms[|ms| - 1];
      if last.path == q {
        if l.owner(q) == Some(v) {
          assert (TableOf(l, v, init) + [last])[..|TableOf(l, v, init)|] == TableOf(l, v, init);
        }
      } else {
        TablePop(l, v, init, q);
        TableAppend(l, v, PopTop(init, q), last);
        if l.owner(last.path) == Some(v) {
          assert (TableOf(l, v, init) + [last])[..|TableOf(l, v, init)|] == TableOf(l, v, init);
        }
      }
    }
  }

  /** Whether a mount is busy is for its own volume's mounts to say. */
  lemma {:induction false} TablePins(l: Layout, v: string, ms: seq<MountEntry>, q: Path, n: nat)
    requires Hereditary(l) && l.owner(q) == Some(v)
    ensures PinnedWithin(ms, q, n) == PinnedWithin(TableOf(l, v, ms), q, n)
  {
    if ms != [] && n > 0 {
      var init, last := ms[..|ms| - 1], ms[|ms| - 1];
      TablePins(l, v, init, q, n);
      TablePins(l, v, init, q, n - 1);
      assert Within(q, last.path) ==> l.owner(last.path) == Some(v);
      if l.owner(last.path) == Some(v) {
        assert (TableOf(l, v, init) + [last])[..|TableOf(l, v, init)|] == TableOf(l, v, init);
      }
    }
  }

  lemma SameDest(l: Layout, v: string, w: World, w': World, p: Path)
    requires Confined(l, w) && Confined(l, w') && SameView(l, v, w, w')
    requires SafeDest(l, v, p)
    ensures SameAt(w, w', p)
  {
    if l.owner(p) == None {
      assert SameAt(w, l.base, p) && SameAt(w', l.base, p);
    }
  }

  /** Links out of a volume's paths lead to the same safe place in all worlds the volume cannot tell apart. */
  lemma {:induction false} ResolveLocal(l: Layout, v: string, w: World, w': World, p: Path, hops: nat)
    requires Confined(l, w) && Confined(l, w') && SameView(l, v, w, w')
    requires SafeDest(l, v, p)
    ensures Resolve(w.tree, p, hops) == Resolve(w'.tree, p, hops)
    ensures Resolve(w.tree, p, hops).Some? ==> SafeDest(l, v, Resolve(w.tree, p, hops).value)
    decreases hops
  {
    SameDest(l, v, w, w', p);
    if p in w.tree && w.tree[p].Link? {
      assert l.owner(p) == None ==> SameAt(w, l.base, p);
      if hops > 0 {
        assert SafeLinks(l, v, Lookup(w.tree, p));
        ResolveLocal(l, v, w, w', w.tree[p].dest, hops - 1);
      }
    }
  }

  /** A directory or a mount point in a volume's reach is its own. */
  lemma OwnDir(l: Layout, v: string, w: World, p: Path)
    requires Confined(l, w) && SafeDest(l, v, p)
    requires Lookup(w.tree, p) == Some(Dir) || Mounted(w, p)
    ensures l.owner(p) == Some(v)
  {
    if l.owner(p) == None {
      assert SameAt(w, l.base, p);
    }
  }

  /**
   * Each world operation below preserves confinement, touches only `v`, and acts alike in worlds that `v` cannot tell
   * apart.
   */
  ghost predicate Local(l: Layout, v: string, w: World, w': World, r: Option<World>, r': Option<World>) {
    && (r.Some? <==> r'.Some?)
    && (r.Some? ==>
          && Confined(l, r.value) && Confined(l, r'.value)
          && OnlyTouches(l, v, w, r.value) && OnlyTouches(l, v, w', r'.value)
          && SameView(l, v, r.value, r'.value))
  }

  ghost predicate Twin(l: Layout, v: string, w: World, w': World) {
    Hereditary(l) && Confined(l, w) && Confined(l, w') && SameView(l, v, w, w')
  }

  lemma SymlinkLocal(l: Layout, v: string, w: World, w': World, dest: Path, link: Path)
    requires Twin(l, v, w, w')
    requires l.owner(link) == Some(v) && (dest == [] || SafeDest(l, v, dest))
    ensures Local(l, v, w, w', Symlink(w, dest, link), Symlink(w', dest, link))
  {
    assert SameAt(w, w', link);
    if link != [] && Parent(link) != [] {
      var up := Parent(link);
      assert Within(up, link);
      if l.owner(up) == None {
        assert SameAt(w, l.base, up) && SameAt(w', l.base, up);
      } else {
        assert l.owner(link) == l.owner(up);
      }
      assert SameAt(w, w', up);
    }
  }

  lemma BusyLocal(l: Layout, v: string, w: World, w': World, p: Path)
    requires Twin(l, v, w, w') && l.owner(p) == Some(v)
    ensures Busy(w.mounts, p) ==> Busy(w'.mounts, p)
  {
    if Busy(w.mounts, p) {
      var e :| e in w.mounts && p <= e.path;
      assert Within(p, e.path);
      assert SameAt(w, w', e.path);
      StackMembers(w.mounts, e.path);
      StackMembers(w'.mounts, e.path);
    }
  }

  lemma TwinSwap(l: Layout, v: string, w: World, w': World)
    requires Twin(l, v, w, w')
    ensures Twin(l, v, w', w)
  {
  }

  lemma ChildLocal(l: Layout, v: string, w: World, w': World, p: Path)
    requires Twin(l, v, w, w') && l.owner(p) == Some(v)
    ensures HasChild(w.tree, p) ==> HasChild(w'.tree, p)
  {
    if HasChild(w.tree, p) {
      var q :| q in w.tree && p < q;
      assert Within(p, q);
      assert SameAt(w, w', q);
    }
  }

  lemma RemoveLocal(l: Layout, v: string, w: World, w': World, p: Path)
    requires Twin(l, v, w, w') && l.owner(p) == Some(v)
    ensures Local(l, v, w, w', Remove(w, p), Remove(w', p))
  {
    TwinSwap(l, v, w, w');
    BusyLocal(l, v, w, w', p);
    BusyLocal(l, v, w', w, p);
    ChildLocal(l, v, w, w', p);
    ChildLocal(l, v, w', w, p);
    assert SameAt(w, w', p);
  }

  lemma DeletableLocal(l: Layout, v: string, w: World, w': World, p: Path, q: Path)
    requires Twin(l, v, w, w') && l.owner(p) == Some(v)
    requires Deletable(w, p, q)
    ensures Deletable(w', p, q)
  {
    TwinSwap(l, v, w, w');
    assert Within(p, q);
    BusyLocal(l, v, w', w, q);
    forall e | e in w'.mounts
      ensures !(p <= e.path <= q)
    {
      StackMembers(w.mounts, e.path);
      StackMembers(w'.mounts, e.path);
      assert Within(p, e.path) ==> SameAt(w, w', e.path);
    }
  }

  lemma RemoveAllLocal(l: Layout, v: string, w: World, w': World, p: Path)
    requires Twin(l, v, w, w') && l.owner(p) == Some(v)
    ensures RemoveAll(w, p).1 == RemoveAll(w', p).1
    ensures Local(l, v, w, w', Some(RemoveAll(w, p).0), Some(RemoveAll(w', p).0))
  {
    TwinSwap(l, v, w, w');
    BusyLocal(l, v, w, w', p);
    BusyLocal(l, v, w', w, p);
    var r, r' := RemoveAll(w, p).0, RemoveAll(w', p).0;
    forall q | l.owner(q) == Some(v)
      ensures SameAt(r, r', q)
    {
      assert SameAt(w, w', q);
      if Deletable(w, p, q) {
        DeletableLocal(l, v, w, w', p, q);
      } else if Deletable(w', p, q) {
        DeletableLocal(l, v, w', w, p, q);
      }
    }
    forall q | l.owner(q) != Some(v)
      ensures SameAt(w, r, q) && SameAt(w', r', q)
    {
      assert !Within(p, q);
    }
  }

  /** Files added below one of the volume's own directories touch nothing else. */
  lemma FillTouches(l: Layout, v: string, w: World, r: World, q: Path, content: Tree)
    requires Hereditary(l) && Confined(l, w) && l.owner(q) == Some(v)
    requires forall x | x in content :: SafeLinks(l, v, Some(content[x]))
    requires r == w.(tree := w.tree + map x | x in content && q < x :: content[x])
    ensures Confined(l, r) && OnlyTouches(l, v, w, r)
  {
    forall x | l.owner(x) != Some(v) ensures SameAt(w, r, x) {
      assert !Within(q, x);
    }
    forall x | l.owner(x).Some? ensures SafeLinks(l, l.owner(x).value, Lookup(r.tree, x)) {
      assert SafeLinks(l, l.owner(x).value, Lookup(w.tree, x));
    }
    forall x | l.owner(x) == None ensures SameAt(r, l.base, x) {
      assert SameAt(w, l.base, x) && SameAt(w, r, x);
    }
  }

  lemma FillAtLocal(l: Layout, v: string, w: World, w': World, q: Path, content: Tree)
    requires Twin(l, v, w, w') && l.owner(q) == Some(v)
    requires forall x | x in content :: SafeLinks(l, v, Some(content[x]))
    ensures var below := map x | x in content && q < x :: content[x];
            Local(l, v, w, w', Some(w.(tree := w.tree + below)), Some(w'.(tree := w'.tree + below)))
  {
    var below := map x | x in content && q < x :: content[x];
    var r, r' := w.(tree := w.tree + below), w'.(tree := w'.tree + below);
    FillTouches(l, v, w, r, q, content);
    FillTouches(l, v, w', r', q, content);
    forall x | l.owner(x) == Some(v) ensures SameAt(r, r', x) {
      assert SameAt(w, w', x);
    }
  }

  lemma FillLocal(l: Layout, v: string, w: World, w': World, p: Path, content: Tree)
    requires Twin(l, v, w, w') && l.owner(p) == Some(v)
    requires forall x | x in content :: SafeLinks(l, v, Some(content[x]))
    ensures Local(l, v, w, w', Some(Fill(w, p, content)), Some(Fill(w', p, content)))
  {
    ResolveLocal(l, v, w, w', p, KERNEL_LINKS);
    var to := Resolve(w.tree, p, KERNEL_LINKS);
    StillLocal(l, v, w, w');
    if to.Some? {
      SameDest(l, v, w, w', to.value);
      if Lookup(w.tree, to.value) == Some(Dir) && !Mounted(w, to.value) {
        OwnDir(l, v, w, to.value);
        FillAtLocal(l, v, w, w', to.value, content);
      }
    }
  }

  lemma AppendLocal(l: Layout, v: string, w: World, w': World, e: MountEntry)
    requires Twin(l, v, w, w') && l.owner(e.path) == Some(v)
    ensures Local(l, v, w, w', Some(w.(mounts := w.mounts + [e])), Some(w'.(mounts := w'.mounts + [e])))
  {
    var r, r' := w.(mounts := w.mounts + [e]), w'.(mounts := w'.mounts + [e]);
    forall p ensures StackAt(r.mounts, p) == StackAt(w.mounts, p) + if e.path == p then [e] else []
             ensures StackAt(r'.mounts, p) == StackAt(w'.mounts, p) + if e.path == p then [e] else [] {
      StackAppend(w.mounts, e, p);
      StackAppend(w'.mounts, e, p);
    }
    forall u ensures u != v ==> SameTable(l, u, w, r) && SameTable(l, u, w', r') {
      TableAppend(l, u, w.mounts, e);
      TableAppend(l, u, w'.mounts, e);
    }
    TableAppend(l, v, w.mounts, e);
    TableAppend(l, v, w'.mounts, e);
    forall p | l.owner(p) == Some(v) ensures SameAt(r, r', p) {
      assert SameAt(w, w', p);
    }
  }

  lemma MountLocal(
      l: Layout, v: string, w: World, w': World, device: string, p: Path, fsType: string, options: seq<string>,
      sensitive: seq<string>)
    requires Twin(l, v, w, w') && l.owner(p) == Some(v)
    ensures Local(l, v, w, w', MountOn(w, device, p, fsType, options, sensitive),
            MountOn(w', device, p, fsType, options, sensitive))
    ensures MountOn(w, device, p, fsType, options, sensitive).Some? ==>
              MountEffect(MountOn(w, device, p, fsType, options, sensitive).value)
                == MountEffect(MountOn(w', device, p, fsType, options, sensitive).value)
  {
    ResolveLocal(l, v, w, w', p, KERNEL_LINKS);
    var to := Resolve(w.tree, p, KERNEL_LINKS);
    if to.Some? {
      SameDest(l, v, w, w', to.value);
      if Lookup(w.tree, to.value) == Some(Dir) {
        OwnDir(l, v, w, to.value);
        AppendLocal(l, v, w, w', MountEntry(device, to.value, fsType, options, sensitive));
      }
    }
  }

  /** The mounts at `x` once the newest mount at `q` is gone. */
  function PoppedStack(ms: seq<MountEntry>, q: Path, x: Path): seq<MountEntry> {
    var s := StackAt(ms, x);
    if x == q && s != [] then s[..|s| - 1] else s
  }

  /** Unmounting at one of the volume's own directories touches nothing else. */
  lemma PopTouches(l: Layout, v: string, w: World, q: Path)
    requires Confined(l, w) && l.owner(q) == Some(v)
    ensures var r := w.(mounts := PopTop(w.mounts, q)); Confined(l, r) && OnlyTouches(l, v, w, r)
    ensures forall x :: StackAt(PopTop(w.mounts, q), x) == PoppedStack(w.mounts, q, x)
  {
    var r := w.(mounts := PopTop(w.mounts, q));
    forall x ensures StackAt(r.mounts, x) == PoppedStack(w.mounts, q, x) {
      StackPop(w.mounts, q, x);
    }
    forall u ensures u != v ==> SameTable(l, u, w, r) {
      TablePop(l, u, w.mounts, q);
    }
    forall x | l.owner(x) == None ensures SameAt(r, l.base, x) {
      assert SameAt(w, l.base, x);
    }
    forall x | l.owner(x).Some? ensures SafeLinks(l, l.owner(x).value, Lookup(r.tree, x)) {
      assert SafeLinks(l, l.owner(x).value, Lookup(w.tree, x));
    }
  }

  lemma PopLocal(l: Layout, v: string, w: World, w': World, q: Path)
    requires Twin(l, v, w, w') && l.owner(q) == Some(v)
    ensures Local(l, v, w, w', Some(w.(mounts := PopTop(w.mounts, q))), Some(w'.(mounts := PopTop(w'.mounts, q))))
  {
    PopTouches(l, v, w, q);
    PopTouches(l, v, w', q);
    TablePop(l, v, w.mounts, q);
    TablePop(l, v, w'.mounts, q);
    var r, r' := w.(mounts := PopTop(w.mounts, q)), w'.(mounts := PopTop(w'.mounts, q));
    forall x | l.owner(x) == Some(v) ensures SameAt(r, r', x) {
      assert SameAt(w, w', x);
    }
  }

  lemma UnmountLocal(l: Layout, v: string, w: World, w': World, p: Path)
    requires Twin(l, v, w, w') && l.owner(p) == Some(v)
    ensures Local(l, v, w, w', UnmountTop(w, p), UnmountTop(w', p))
  {
    ResolveLocal(l, v, w, w', p, KERNEL_LINKS);
    var to := Resolve(w.tree, p, KERNEL_LINKS);
    if to.Some? {
      SameDest(l, v, w, w', to.value);
      if Mounted(w, to.value) {
        OwnDir(l, v, w, to.value);
        TablePins(l, v, w.mounts, to.value, 1);
        TablePins(l, v, w'.mounts, to.value, 1);
        PopLocal(l, v, w, w', to.value);
      }
    }
  }

  lemma BindLocal(
      l: Layout, v: string, w: World, w': World, source: Path, target: Path, readOnly: bool, backing: string)
    requires Twin(l, v, w, w') && l.owner(source) == Some(v) && l.owner(target) == Some(v)
    ensures Local(l, v, w, w', Bind(w, source, target, readOnly, backing), Bind(w', source, target, readOnly, backing))
    ensures Bind(w, source, target, readOnly, backing).Some? ==>
              MountEffect(Bind(w, source, target, readOnly, backing).value)
                == MountEffect(Bind(w', source, target, readOnly, backing).value)
  {
    ResolveLocal(l, v, w, w', source, KERNEL_LINKS);
    var to := Resolve(w.tree, source, KERNEL_LINKS);
    if to.Some? {
      SameDest(l, v, w, w', to.value);
      MountLocal(l, v, w, w', BindDevice(w, source, backing).value, target, "", BindOptions(readOnly), []);
    }
  }

  lemma CheckLocal(l: Layout, v: string, w: World, w': World, p: Path, check: MountCheck)
    requires Twin(l, v, w, w') && SafeDest(l, v, p)
    ensures NotMountPoint(w, p, check) == NotMountPoint(w', p, check)
  {
    ResolveLocal(l, v, w, w', p, KERNEL_LINKS);
    var to := Resolve(w.tree, p, KERNEL_LINKS);
    if to.Some? {
      SameDest(l, v, w, w', to.value);
    }
  }

  lemma StillLocal(l: Layout, v: string, w: World, w': World)
    requires Twin(l, v, w, w')
    ensures Local(l, v, w, w', Some(w), Some(w'))
  {
  }

  /** What locality says of one step. */
  ghost predicate StepLocal(l: Layout, r: Rpc, w: World, w': World, o: Outcome, o': Outcome) {
    && o.phase == o'.phase && o.effects == o'.effects
    && Local(l, r.call.volume, w, w', Some(o.w), Some(o'.w))
    && Fits(r.call.kind, o.phase) && ScopedPc(l, r.call.volume, o.phase)
  }

  /** The same for a step that leaves the world alone. */
  ghost predicate ReadLocal(l: Layout, r: Rpc, w: World, w': World, o: Outcome, o': Outcome) {
    && o.w == w && o'.w == w' && o.phase == o'.phase && o.effects == o'.effects
    && Fits(r.call.kind, o.phase) && ScopedPc(l, r.call.volume, o.phase)
  }

  ghost predicate StepScoped(l: Layout, r: Rpc, pc: Pc, w: World, w': World) {
    && Twin(l, r.call.volume, w, w') && InScope(l, r)
    && Fits(r.call.kind, Active(pc)) && ScopedPc(l, r.call.volume, Active(pc))
  }

  lemma MounterLocal(l: Layout, m: Manager, r: Rpc, resp: MountResponse, w: World, w': World)
    requires StepScoped(l, r, InStage(MounterPc(resp)), w, w')
    ensures StepLocal(l, r, w, w', ExecStage(m, r.call, r.env, MounterPc(resp), w),
            ExecStage(m, r.call, r.env, MounterPc(resp), w'))
  {
    var e := StageEntry(r.call, resp, []);
    StillLocal(l, r.call.volume, w, w');
    MountLocal(l, r.call.volume, w, w', e.device, r.call.staging, e.fsType, e.options, e.sensitive);
  }

  lemma StageReadLocal(l: Layout, m: Manager, r: Rpc, pc: StagePc, w: World, w': World)
    requires StepScoped(l, r, InStage(pc), w, w') && (pc.AttachPc? || pc.ManagerMountPc?)
    ensures ReadLocal(l, r, w, w', ExecStage(m, r.call, r.env, pc, w), ExecStage(m, r.call, r.env, pc, w'))
  {
  }

  lemma StageLocal(l: Layout, m: Manager, r: Rpc, pc: StagePc, w: World, w': World)
    requires StepScoped(l, r, InStage(pc), w, w')
    ensures StepLocal(l, r, w, w', ExecStage(m, r.call, r.env, pc, w), ExecStage(m, r.call, r.env, pc, w'))
  {
    StillLocal(l, r.call.volume, w, w');
    match pc
    case MounterPc(resp) => MounterLocal(l, m, r, resp, w, w');
    case StageLinkPc(d) => SymlinkLocal(l, r.call.volume, w, w', d, r.call.staging);
    case PopulatePc => FillLocal(l, r.call.volume, w, w', r.call.staging, r.env.populated);
    case _ => StageReadLocal(l, m, r, pc, w, w');
  }

  lemma PublishBlockLocal(l: Layout, m: Manager, r: Rpc, pc: PublishPc, w: World, w': World)
    requires StepScoped(l, r, InPublish(pc), w, w') && (pc.PublishEvalPc? || pc.PublishStatPc? || pc.PublishLinkPc?)
    ensures StepLocal(l, r, w, w', ExecPublish(m, r.call, r.env, pc, w), ExecPublish(m, r.call, r.env, pc, w'))
  {
    var v, s, t := r.call.volume, r.call.staging, r.call.target;
    StillLocal(l, v, w, w');
    match pc
    case PublishEvalPc => ResolveLocal(l, v, w, w', s, EVAL_LINKS);
    case PublishStatPc(q) => SameDest(l, v, w, w', q);
    case PublishLinkPc(d) => SymlinkLocal(l, v, w, w', d, t);
  }

  lemma PublishLooksLocal(l: Layout, m: Manager, r: Rpc, pc: PublishPc, w: World, w': World)
    requires StepScoped(l, r, InPublish(pc), w, w') && (pc.PublishCheckPc? || pc.PublishStatStagingPc?)
    ensures ReadLocal(l, r, w, w', ExecPublish(m, r.call, r.env, pc, w), ExecPublish(m, r.call, r.env, pc, w'))
  {
    var v, s := r.call.volume, r.call.staging;
    if pc.PublishCheckPc? {
      CheckLocal(l, v, w, w', r.call.target, r.env.check);
    } else {
      ResolveLocal(l, v, w, w', s, KERNEL_LINKS);
      var to := Resolve(w.tree, s, KERNEL_LINKS);
      if to.Some? {
        SameDest(l, v, w, w', to.value);
      }
    }
  }

  lemma AfterBindLocal(l: Layout, r: Rpc, w: World, w': World, b: Option<World>, b': Option<World>)
    requires Twin(l, r.call.volume, w, w') && Local(l, r.call.volume, w, w', b, b')
    requires b.Some? ==> MountEffect(b.value) == MountEffect(b'.value)
    ensures StepLocal(l, r, w, w', AfterBind(r.env, b, w), AfterBind(r.env, b', w'))
  {
    StillLocal(l, r.call.volume, w, w');
  }

  lemma PublishBindLocal(l: Layout, m: Manager, r: Rpc, w: World, w': World)
    requires StepScoped(l, r, InPublish(BindPc), w, w')
    ensures StepLocal(l, r, w, w', ExecPublish(m, r.call, r.env, BindPc, w), ExecPublish(m, r.call, r.env, BindPc, w'))
  {
    var v, s, t, backing := r.call.volume, r.call.staging, r.call.target, r.env.backing;
    BindLocal(l, v, w, w', s, t, r.call.readOnly, backing);
    AfterBindLocal(l, r, w, w', Bind(w, s, t, r.call.readOnly, backing), Bind(w', s, t, r.call.readOnly, backing));
  }

  lemma UnpublishLocal(l: Layout, m: Manager, r: Rpc, pc: UnpublishPc, w: World, w': World)
    requires StepScoped(l, r, InUnpublish(pc), w, w')
    ensures StepLocal(l, r, w, w', ExecUnpublish(m, r.call, r.env, pc, w), ExecUnpublish(m, r.call, r.env, pc, w'))
  {
    var v, t := r.call.volume, r.call.target;
    StillLocal(l, v, w, w');
    match pc
    case UnpublishUnmountPc =>
      UnmountLocal(l, v, w, w', t);
      ResolveLocal(l, v, w, w', t, KERNEL_LINKS);
    case UnpublishRemovePc => RemoveLocal(l, v, w, w', t);
  }

  predicate Writes(pc: UnstagePc) {
    pc.UnstageRemovePc? || pc.UnstageUnmountPc? || pc.RemoveAllPc?
  }

  lemma UnstageReadLocal(l: Layout, m: Manager, r: Rpc, pc: UnstagePc, w: World, w': World)
    requires StepScoped(l, r, InUnstage(pc), w, w') && !Writes(pc)
    ensures ReadLocal(l, r, w, w', ExecUnstage(m, r.call, r.env, pc, w), ExecUnstage(m, r.call, r.env, pc, w'))
  {
    var v, s := r.call.volume, r.call.staging;
    match pc
    case UnstageEvalPc | UnstageEvalAgainPc => ResolveLocal(l, v, w, w', s, EVAL_LINKS);
    case UnstageStatPc(q) => SameDest(l, v, w, w', q);
    case UnstageCheckPc(q) => CheckLocal(l, v, w, w', q, r.env.check);
    case UnstageListPc(q) => SameDest(l, v, w, w', q);
    case DetachPc(_) =>
  }

  lemma UnstageUnmountLocal(l: Layout, m: Manager, r: Rpc, pc: UnstagePc, w: World, w': World)
    requires StepScoped(l, r, InUnstage(pc), w, w') && pc.UnstageUnmountPc?
    ensures StepLocal(l, r, w, w', ExecUnstage(m, r.call, r.env, pc, w), ExecUnstage(m, r.call, r.env, pc, w'))
  {
    StillLocal(l, r.call.volume, w, w');
    UnmountLocal(l, r.call.volume, w, w', r.call.staging);
    ResolveLocal(l, r.call.volume, w, w', r.call.staging, KERNEL_LINKS);
  }

  lemma UnstageRemoveLocal(l: Layout, m: Manager, r: Rpc, pc: UnstagePc, w: World, w': World)
    requires StepScoped(l, r, InUnstage(pc), w, w') && pc.UnstageRemovePc?
    ensures StepLocal(l, r, w, w', ExecUnstage(m, r.call, r.env, pc, w), ExecUnstage(m, r.call, r.env, pc, w'))
  {
    StillLocal(l, r.call.volume, w, w');
    RemoveLocal(l, r.call.volume, w, w', r.call.staging);
  }

  lemma UnstageRemoveAllLocal(l: Layout, m: Manager, r: Rpc, pc: UnstagePc, w: World, w': World)
    requires StepScoped(l, r, InUnstage(pc), w, w') && pc.RemoveAllPc?
    ensures StepLocal(l, r, w, w', ExecUnstage(m, r.call, r.env, pc, w), ExecUnstage(m, r.call, r.env, pc, w'))
  {
    StillLocal(l, r.call.volume, w, w');
    RemoveAllLocal(l, r.call.volume, w, w', r.call.staging);
  }

  /** One step of a request: same outcome in worlds its volume cannot tell apart, and no change to other volumes. */
  lemma ExecLocal(l: Layout, m: Manager, r: Rpc, pc: Pc, w: World, w': World)
    requires StepScoped(l, r, pc, w, w')
    ensures StepLocal(l, r, w, w', Exec(m, r.call, r.env, pc, w), Exec(m, r.call, r.env, pc, w'))
  {
    match pc
    case InStage(sp) => StageLocal(l, m, r, sp, w, w');
    case InPublish(pp) =>
      if pp.BindPc? {
        PublishBindLocal(l, m, r, w, w');
      } else if pp.PublishCheckPc? || pp.PublishStatStagingPc? {
        PublishLooksLocal(l, m, r, pp, w, w');
        StillLocal(l, r.call.volume, w, w');
      } else {
        PublishBlockLocal(l, m, r, pp, w, w');
      }
    case InUnpublish(np) => UnpublishLocal(l, m, r, np, w, w');
    case InUnstage(up) =>
      if up.UnstageUnmountPc? {
        UnstageUnmountLocal(l, m, r, up, w, w');
      } else if up.UnstageRemovePc? {
        UnstageRemoveLocal(l, m, r, up, w, w');
      } else if up.RemoveAllPc? {
        UnstageRemoveAllLocal(l, m, r, up, w, w');
      } else {
        UnstageReadLocal(l, m, r, up, w, w');
        StillLocal(l, r.call.volume, w, w');
      }
  }

  // A layout made from the requests' own paths

  /** A path the call names is `p`, or lies above it. */
  predicate Covers(call: Call, p: Path) {
    || (call.kind != Unpublish && call.staging <= p)
    || ((call.kind == Publish || call.kind == Unpublish) && call.target <= p)
  }

  predicate Uses(call: Call, p: Path) {
    || (call.kind != Unpublish && call.staging == p)
    || ((call.kind == Publish || call.kind == Unpublish) && call.target == p)
  }

  /** No path of an admitted request is, or lies below, a path of an admitted request of another volume. */
  ghost predicate PathsApart(rpcs: seq<Rpc>) {
    forall i, j, p, q |
      && 0 <= i < |rpcs| && 0 <= j < |rpcs| && Admitted(rpcs[i]) && Admitted(rpcs[j])
      && Uses(rpcs[i].call, p) && Uses(rpcs[j].call, q) && p <= q ::
        rpcs[i].call.volume == rpcs[j].call.volume
  }

  function OwnerAmong(rpcs: seq<Rpc>, p: Path): Option<string> {
    if rpcs == [] then None
    else
      var last := rpcs[|rpcs| - 1];
      if Admitted(last) && Covers(last.call, p) then Some(last.call.volume) else OwnerAmong(rpcs[..|rpcs| - 1], p)
  }

  /** Everything at or below a path that some request names belongs to its volume; `w` is how the node starts. */
  function PathLayout(rpcs: seq<Rpc>, w: World): Layout {
    Layout((p: Path) => OwnerAmong(rpcs, p), w)
  }

  lemma CoverIsUse(call: Call, p: Path) returns (q: Path)
    requires Covers(call, p)
    ensures Uses(call, q) && q <= p
  {
    q := if call.kind != Unpublish && call.staging <= p then call.staging else call.target;
  }

  lemma CoversSame(rpcs: seq<Rpc>, i: nat, j: nat, p: Path)
    requires PathsApart(rpcs) && i < |rpcs| && j < |rpcs| && Admitted(rpcs[i]) && Admitted(rpcs[j])
    requires Covers(rpcs[i].call, p) && Covers(rpcs[j].call, p)
    ensures rpcs[i].call.volume == rpcs[j].call.volume
  {
    var x := CoverIsUse(rpcs[i].call, p);
    var y := CoverIsUse(rpcs[j].call, p);
    assert x <= y || y <= x;
  }

  lemma {:induction false} OwnerIs(rpcs: seq<Rpc>, i: nat, p: Path)
    requires PathsApart(rpcs) && i < |rpcs| && Admitted(rpcs[i]) && Covers(rpcs[i].call, p)
    ensures OwnerAmong(rpcs, p) == Some(rpcs[i].call.volume)
  {
    var n := |rpcs| - 1;
    if Admitted(rpcs[n]) && Covers(rpcs[n].call, p) {
      CoversSame(rpcs, i, n, p);
    } else {
      ApartBefore(rpcs, n);
      OwnerIs(rpcs[..n], i, p);
    }
  }

  lemma ApartBefore(rpcs: seq<Rpc>, n: nat)
    requires PathsApart(rpcs) && n <= |rpcs|
    ensures PathsApart(rpcs[..n])
  {
    forall i, j, p, q |
      && 0 <= i < n && 0 <= j < n && Admitted(rpcs[..n][i]) && Admitted(rpcs[..n][j])
      && Uses(rpcs[..n][i].call, p) && Uses(rpcs[..n][j].call, q) && p <= q
      ensures rpcs[..n][i].call.volume == rpcs[..n][j].call.volume
    {
      assert rpcs[..n][i] == rpcs[i] && rpcs[..n][j] == rpcs[j];
    }
  }

  lemma {:induction false} OwnerCovers(rpcs: seq<Rpc>, p: Path) returns (i: nat)
    requires OwnerAmong(rpcs, p).Some?
    ensures i < |rpcs| && Admitted(rpcs[i]) && Covers(rpcs[i].call, p)
  {
    var n := |rpcs| - 1;
    if Admitted(rpcs[n]) && Covers(rpcs[n].call, p) {
      i := n;
    } else {
      i := OwnerCovers(rpcs[..n], p);
    }
  }

  /** Requests that stay apart divide the paths among their volumes, each with all the paths it names. */
  lemma PathsDivide(rpcs: seq<Rpc>, w: World)
    requires PathsApart(rpcs)
    ensures Hereditary(PathLayout(rpcs, w))
    ensures forall i | 0 <= i < |rpcs| && Admitted(rpcs[i]) :: OwnsPaths(PathLayout(rpcs, w), rpcs[i].call)
  {
    var l := PathLayout(rpcs, w);
    forall p, q | Within(p, q) && l.owner(p).Some? ensures l.owner(q) == l.owner(p) {
      var i := OwnerCovers(rpcs, p);
      OwnerIs(rpcs, i, p);
      OwnerIs(rpcs, i, q);
    }
    forall i | 0 <= i < |rpcs| && Admitted(rpcs[i]) ensures OwnsPaths(l, rpcs[i].call) {
      if rpcs[i].call.kind != Unpublish {
        OwnerIs(rpcs, i, rpcs[i].call.staging);
      }
      if rpcs[i].call.kind == Publish || rpcs[i].call.kind == Unpublish {
        OwnerIs(rpcs, i, rpcs[i].call.target);
      }
    }
  }

  /** No link below a volume's paths leads to another volume, or out to what could be followed, entered or unmounted. */
  ghost predicate LinksStay(l: Layout) {
    forall p | p in l.base.tree && l.owner(p).Some? && l.base.tree[p].Link? ::
      SafeDest(l, l.owner(p).value, l.base.tree[p].dest)
  }

  lemma StartsConfined(l: Layout)
    requires LinksStay(l)
    ensures Confined(l, l.base)
  {
  }
}
