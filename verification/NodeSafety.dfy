/** What holds in every state of every interleaving when the mount-point checks tell the truth. */
module NodeSafety {
  import opened Wrappers
  import opened PathTree
  import opened Kernel
  import opened NodeMachine
  import opened Locality
  import opened LockProtocol
  import opened Serializability
  import opened Accounting

  /** Checks are exact, and neither the manager nor the kernel offers a nameless device. */
  ghost predicate Truthful(r: Rpc) {
    && r.env.check == Exact
    && r.env.backing != ""
    && (r.env.response.Success? && r.env.response.value.Some? ==> r.env.response.value.value.source != "")
    && (r.phase.Active? && r.phase.pc.InStage? && r.phase.pc.sp.MounterPc? ==> r.phase.pc.sp.response.source != "")
  }

  ghost predicate NamedDevices(w: World) {
    forall e | e in w.mounts :: e.device != ""
  }

  /** The staging path leads, for `EvalSymlinks`, to a path where nothing is mounted. */
  ghost predicate StagingFree(r: Rpc, w: World) {
    var q := Resolve(w.tree, r.call.staging, EVAL_LINKS);
    q.Some? && !Mounted(w, q.value)
  }

  ghost predicate TargetFree(r: Rpc, w: World) {
    var q := Resolve(w.tree, r.call.target, KERNEL_LINKS);
    q.Some? ==> !Mounted(w, q.value)
  }

  /** What a request that holds its lock has found out, and relies on. */
  ghost predicate Knows(r: Rpc, w: World) {
    match r.phase
    case Active(InPublish(pc)) => pc.PublishStatStagingPc? || pc.BindPc? ==> TargetFree(r, w)
    case Active(InUnstage(pc)) =>
      (pc.UnstageCheckPc? || pc.UnstageListPc? ==> Resolve(w.tree, r.call.staging, EVAL_LINKS) == Some(pc.resolved)) &&
      (pc.UnstageListPc? ==> Mounted(w, pc.resolved)) &&
      (pc.RemoveAllPc? ==> StagingFree(r, w))
    case _ => true
  }

  /** A path a volume resolves, and the mounts there, are its own view. */
  lemma KnowsIsLocal(l: Layout, r: Rpc, w: World, w': World)
    requires Twin(l, r.call.volume, w, w') && Placed(l, r) && Knows(r, w)
    ensures Knows(r, w')
  {
    var v := r.call.volume;
    if r.phase.Active? && r.phase.pc.InPublish? {
      ResolveLocal(l, v, w, w', r.call.target, KERNEL_LINKS);
      var q := Resolve(w.tree, r.call.target, KERNEL_LINKS);
      if q.Some? { SameDest(l, v, w, w', q.value); }
    } else if r.phase.Active? && r.phase.pc.InUnstage? {
      ResolveLocal(l, v, w, w', r.call.staging, EVAL_LINKS);
      var q := Resolve(w.tree, r.call.staging, EVAL_LINKS);
      if q.Some? { SameDest(l, v, w, w', q.value); }
    }
  }

  lemma FirstDeviceNamed(w: World, p: Path)
    requires NamedDevices(w) && Mounted(w, p)
    ensures FirstDevice(w.mounts, p) != ""
  {
    StackMembers(w.mounts, p);
    assert StackAt(w.mounts, p)[0] in StackAt(w.mounts, p);
  }

  lemma LearnsUnstage(m: Manager, r: Rpc, pc: UnstagePc, w: World)
    requires r.phase == Active(InUnstage(pc)) && Truthful(r) && NamedDevices(w) && Knows(r, w)
    ensures var o := ExecUnstage(m, r.call, r.env, pc, w); Knows(r.(phase := o.phase, log := r.log + o.effects), o.w)
  {
    match pc
    case UnstageCheckPc(q) => ResolveEnds(w.tree, r.call.staging, EVAL_LINKS);
    case UnstageListPc(q) => FirstDeviceNamed(w, q);
    case _ =>
  }

  lemma Learns(l: Layout, m: Manager, r: Rpc, pc: Pc, w: World)
    requires r.phase == Active(pc) && Truthful(r) && NamedDevices(w) && Knows(r, w) && Placed(l, r)
    ensures var o := Exec(m, r.call, r.env, pc, w); Knows(r.(phase := o.phase, log := r.log + o.effects), o.w)
  {
    if pc.InUnstage? {
      LearnsUnstage(m, r, pc.up, w);
    }
  }

  lemma PopKeeps(ms: seq<MountEntry>, p: Path)
    ensures forall e | e in PopTop(ms, p) :: e in ms
  {
  }

  lemma PublishNames(m: Manager, r: Rpc, pc: PublishPc, w: World)
    requires Truthful(r) && NamedDevices(w)
    ensures NamedDevices(ExecPublish(m, r.call, r.env, pc, w).w)
  {
    var q := Resolve(w.tree, r.call.staging, KERNEL_LINKS);
    if q.Some? {
      var s := StackAt(w.mounts, q.value);
      StackMembers(w.mounts, q.value);
      if s != [] { assert s[|s| - 1] in s; }
    }
  }

  lemma UnmountNames(w: World, p: Path)
    requires NamedDevices(w) && UnmountTop(w, p).Some?
    ensures NamedDevices(UnmountTop(w, p).value)
  {
    PopKeeps(w.mounts, Resolve(w.tree, p, KERNEL_LINKS).value);
  }

  lemma StageNames(m: Manager, r: Rpc, pc: StagePc, w: World)
    requires r.phase == Active(InStage(pc)) && Truthful(r) && NamedDevices(w)
    ensures var o := ExecStage(m, r.call, r.env, pc, w); NamedDevices(o.w) && Truthful(r.(phase := o.phase))
  {
  }

  lemma UnstageNames(m: Manager, r: Rpc, pc: UnstagePc, w: World)
    requires Truthful(r) && NamedDevices(w)
    ensures NamedDevices(ExecUnstage(m, r.call, r.env, pc, w).w)
  {
    if UnmountTop(w, r.call.staging).Some? {
      UnmountNames(w, r.call.staging);
    }
  }

  lemma UnpublishNames(m: Manager, r: Rpc, pc: UnpublishPc, w: World)
    requires Truthful(r) && NamedDevices(w)
    ensures NamedDevices(ExecUnpublish(m, r.call, r.env, pc, w).w)
  {
    if UnmountTop(w, r.call.target).Some? {
      UnmountNames(w, r.call.target);
    }
  }

  /** Only a stage goes on to a mounter call. */
  lemma KindStays(m: Manager, r: Rpc, pc: Pc, w: World)
    requires Truthful(r) && !pc.InStage?
    ensures Truthful(r.(phase := Exec(m, r.call, r.env, pc, w).phase))
  {
  }

  lemma ExecNames(m: Manager, r: Rpc, pc: Pc, w: World)
    requires r.phase == Active(pc) && Truthful(r) && NamedDevices(w)
    ensures var o := Exec(m, r.call, r.env, pc, w); NamedDevices(o.w) && Truthful(r.(phase := o.phase))
  {
    match pc
    case InStage(sp) => StageNames(m, r, sp, w);
    case InPublish(pp) => KindStays(m, r, pc, w); PublishNames(m, r, pp, w);
    case InUnpublish(np) => KindStays(m, r, pc, w); UnpublishNames(m, r, np, w);
    case InUnstage(up) => KindStays(m, r, pc, w); UnstageNames(m, r, up, w);
  }

  ghost predicate Safe(l: Layout, c: Config) {
    && Sound(l, c) && NamedDevices(c.w)
    && forall i | 0 <= i < |c.rpcs| :: Truthful(c.rpcs[i]) && Knows(c.rpcs[i], c.w)
  }

  /** The request that moves learns something true; what the others know stays true. */
  lemma SafeStep(l: Layout, m: Manager, c: Config, i: nat)
    requires Safe(l, c) && i < |c.rpcs|
    ensures Safe(l, Step(m, c, i))
  {
    var c', r := Step(m, c, i), c.rpcs[i];
    SoundStep(l, m, c, i);
    StepMoves(m, c, i);
    if r.phase.Active? {
      Learns(l, m, r, r.phase.pc, c.w);
      ExecNames(m, r, r.phase.pc, c.w);
    }
    forall j | 0 <= j < |c.rpcs| && j != i
      ensures Truthful(c'.rpcs[j]) && Knows(c'.rpcs[j], c'.w)
    {
      OthersKnow(l, m, c, i, j);
    }
  }

  lemma OthersKnow(l: Layout, m: Manager, c: Config, i: nat, j: nat)
    requires Safe(l, c) && i < |c.rpcs| && j < |c.rpcs| && j != i
    ensures Knows(c.rpcs[j], Step(m, c, i).w)
  {
    if c.rpcs[i].phase.Active? && c.rpcs[j].phase.Active? {
      SoundStep(l, m, c, i);
      OthersKeepView(l, c.rpcs[i].call.volume, c.w, Step(m, c, i).w, c.rpcs[j].call.volume);
      KnowsIsLocal(l, c.rpcs[j], c.w, Step(m, c, i).w);
    }
  }

  ghost predicate SafeStart(l: Layout, c: Config) {
    && Initial(c) && Good(l, c.w) && NamedDevices(c.w)
    && forall i | 0 <= i < |c.rpcs| :: Scoped(l, c.rpcs[i]) && Truthful(c.rpcs[i])
  }

  lemma {:induction false} RunSafe(l: Layout, m: Manager, c: Config, schedule: seq<nat>)
    requires SafeStart(l, c) && forall k | 0 <= k < |schedule| :: schedule[k] < |c.rpcs|
    ensures Safe(l, Run(m, c, schedule))
  {
    if schedule == [] {
      LocksAreExact(m, c, []);
    } else {
      var n := |schedule| - 1;
      RunSafe(l, m, c, schedule[..n]);
      SafeStep(l, m, Run(m, c, schedule[..n]), schedule[n]);
    }
  }

  /**
   * In every reachable state of every interleaving, a request about to call RemoveAll on its staging path finds
   * nothing mounted on the path that staging resolves to.
   */
  lemma NeverDeletesMountedVolume(l: Layout, m: Manager, c: Config, schedule: seq<nat>, i: nat)
    requires SafeStart(l, c) && i < |c.rpcs| && forall k | 0 <= k < |schedule| :: schedule[k] < |c.rpcs|
    requires Run(m, c, schedule).rpcs[i].phase == Active(InUnstage(RemoveAllPc))
    ensures StagingFree(c.rpcs[i], Run(m, c, schedule).w)
  {
    RunSafe(l, m, c, schedule);
    SameRequest(m, c, schedule, i);
  }

  lemma {:induction false} SameRequest(m: Manager, c: Config, schedule: seq<nat>, i: nat)
    requires i < |c.rpcs| && forall k | 0 <= k < |schedule| :: schedule[k] < |c.rpcs|
    ensures Run(m, c, schedule).rpcs[i].call == c.rpcs[i].call
  {
    if schedule != [] {
      var n := |schedule| - 1;
      SameRequest(m, c, schedule[..n], i);
      StepMoves(m, Run(m, c, schedule[..n]), schedule[n]);
    }
  }

  /** What a bind mount knows when it is made: its target carries no mount. */
  lemma BindFindsFree(l: Layout, m: Manager, r: Rpc, w: World, p: Path)
    requires r.phase == Active(InPublish(BindPc)) && Knows(r, w)
    ensures BindsFree(r, ExecPublish(m, r.call, r.env, BindPc, w), w, p)
  {
  }

  ghost predicate BindsFree(r: Rpc, o: Outcome, w: World, p: Path) {
    |o.effects| == 1 && o.effects[0].DidMount? && o.effects[0].entry.path == p && r.call.kind != Stage ==>
      StackAt(w.mounts, p) == []
  }

  /** What the bookkeeping below needs of one call. */
  ghost predicate Fair(r: Rpc, o: Outcome, w: World, p: Path) {
    && Moves(w, o.w, o.effects, p) && BindsFree(r, o, w, p)
    && (forall e | e in o.effects && Tallies(e) :: |o.effects| == 1 && (e.DidMount? <==> Mounts(r.call.kind)))
    && (forall e, x | e in o.effects && Tallies(e) && x in r.log :: !Tallies(x))
  }

  lemma OnlyBindsMount(m: Manager, call: Call, env: Env, pc: PublishPc, w: World)
    requires !pc.BindPc?
    ensures forall e | e in ExecPublish(m, call, env, pc, w).effects :: !e.DidMount?
  {
  }

  lemma ExecFair(l: Layout, m: Manager, r: Rpc, pc: Pc, w: World, p: Path)
    requires r.phase == Active(pc) && OnceOnly(r) && Knows(r, w)
    ensures Fair(r, Exec(m, r.call, r.env, pc, w), w, p)
  {
    ExecMoves(m, r.call, r.env, pc, w, p);
    ExecOnce(m, r, pc, w);
    if pc.InPublish? {
      if pc.pp.BindPc? {
        BindFindsFree(l, m, r, w, p);
      } else {
        OnlyBindsMount(m, r.call, r.env, pc.pp, w);
      }
    }
  }

  /** Some stage request mounted this entry. */
  ghost predicate StagedBy(rpcs: seq<Rpc>, e: MountEntry) {
    exists i | 0 <= i < |rpcs| :: rpcs[i].call.kind == Stage && DidMount(e) in rpcs[i].log
  }

  /** Above the lowest place of the stack at `p` there are only mounts by stage requests, and those from the start. */
  ghost predicate OnlyStagesStack(start: World, c: Config, p: Path) {
    var s, s0 := StackAt(c.w.mounts, p), StackAt(start.mounts, p);
    forall k | 1 <= k < |s| :: StagedBy(c.rpcs, s[k]) || (k < |s0| && s[k] == s0[k])
  }

  lemma StagedStays(rpcs: seq<Rpc>, i: nat, r: Rpc, e: MountEntry)
    requires i < |rpcs| && r.call == rpcs[i].call && rpcs[i].log <= r.log && StagedBy(rpcs, e)
    ensures StagedBy(rpcs[i := r], e)
  {
    var j :| 0 <= j < |rpcs| && rpcs[j].call.kind == Stage && DidMount(e) in rpcs[j].log;
    assert rpcs[i := r][j].call.kind == Stage && DidMount(e) in rpcs[i := r][j].log;
  }

  /** A fair call keeps it: a bind mount finds an empty stack, a stage logs what it mounts. */
  lemma StackedMove(start: World, c: Config, i: nat, o: Outcome, p: Path)
    requires i < |c.rpcs| && Fair(c.rpcs[i], o, c.w, p) && OnlyStagesStack(start, c, p)
    ensures var r' := c.rpcs[i].(phase := o.phase, log := c.rpcs[i].log + o.effects);
            OnlyStagesStack(start, Config(o.w, c.locks, c.rpcs[i := r']), p)
  {
    var r := c.rpcs[i];
    var r' := r.(phase := o.phase, log := r.log + o.effects);
    var rpcs' := c.rpcs[i := r'];
    var s, s', s0 := StackAt(c.w.mounts, p), StackAt(o.w.mounts, p), StackAt(start.mounts, p);
    forall k | 1 <= k < |s'|
      ensures StagedBy(rpcs', s'[k]) || (k < |s0| && s'[k] == s0[k])
    {
      if k < |s| {
        assert s'[k] == s[k];
        if StagedBy(c.rpcs, s[k]) {
          StagedStays(c.rpcs, i, r', s[k]);
        }
      } else {
        assert s'[k] == o.effects[0].entry;
        assert o.effects[0] in o.effects && DidMount(s'[k]) in r'.log;
        assert rpcs'[i].call.kind == Stage;
      }
    }
  }

  lemma StackedStep(l: Layout, m: Manager, start: World, c: Config, i: nat, p: Path)
    requires Safe(l, c) && i < |c.rpcs| && OnceOnly(c.rpcs[i]) && OnlyStagesStack(start, c, p)
    ensures OnlyStagesStack(start, Step(m, c, i), p)
  {
    var r := c.rpcs[i];
    if r.phase.Active? {
      ExecFair(l, m, r, r.phase.pc, c.w, p);
      StackedMove(start, c, i, Exec(m, r.call, r.env, r.phase.pc, c.w), p);
    } else {
      SameLogsStack(start, c, Step(m, c, i), i, p);
    }
  }

  lemma SameLogsStack(start: World, c: Config, c': Config, i: nat, p: Path)
    requires i < |c.rpcs| && |c'.rpcs| == |c.rpcs| && c'.w == c.w && OnlyStagesStack(start, c, p)
    requires c'.rpcs == c.rpcs[i := c'.rpcs[i]] && c'.rpcs[i].call == c.rpcs[i].call && c'.rpcs[i].log == c.rpcs[i].log
    ensures OnlyStagesStack(start, c', p)
  {
    forall e | StagedBy(c.rpcs, e) ensures StagedBy(c'.rpcs, e) {
      StagedStays(c.rpcs, i, c'.rpcs[i], e);
    }
  }

  /** A fair call adds a mount to a path that has one only if it is the one mount of a stage request there. */
  lemma BoundedMove(c: Config, i: nat, o: Outcome, p: Path)
    requires i < |c.rpcs| && Fair(c.rpcs[i], o, c.w, p)
    requires Depth(c.w, p) <= 1 + Count(c.rpcs, Stage, p)
    ensures var r' := c.rpcs[i].(phase := o.phase, log := c.rpcs[i].log + o.effects);
            Depth(o.w, p) <= 1 + Count(c.rpcs[i := r'], Stage, p)
  {
    var r := c.rpcs[i];
    var r' := r.(phase := o.phase, log := r.log + o.effects);
    PassedGrows(r, o.phase, o.effects, p);
    CountUpdate(c.rpcs, i, r', Stage, p);
    if |o.effects| == 1 && o.effects[0].DidMount? {
      assert o.effects[0] in o.effects;
      assert !Passed(r, p);
    }
  }

  lemma BoundedStep(l: Layout, m: Manager, c: Config, i: nat, p: Path)
    requires Safe(l, c) && i < |c.rpcs| && OnceOnly(c.rpcs[i])
    requires Depth(c.w, p) <= 1 + Count(c.rpcs, Stage, p)
    ensures Depth(Step(m, c, i).w, p) <= 1 + Count(Step(m, c, i).rpcs, Stage, p)
  {
    var r, c' := c.rpcs[i], Step(m, c, i);
    if r.phase.Active? {
      ExecFair(l, m, r, r.phase.pc, c.w, p);
      BoundedMove(c, i, Exec(m, r.call, r.env, r.phase.pc, c.w), p);
    } else {
      assert c'.rpcs == c.rpcs[i := c'.rpcs[i]];
      CountUpdate(c.rpcs, i, c'.rpcs[i], Stage, p);
      assert Passed(c'.rpcs[i], p) <==> Passed(r, p);
    }
  }

  /**
   * In every reachable state of every interleaving, each mount above the lowest on a path was made by a stage request,
   * or was there from the start. So publishing the same target again and again never stacks a second bind mount, on any
   * path and whatever was staged there in between.
   */
  lemma {:induction false} AtMostOneBind(l: Layout, m: Manager, c: Config, schedule: seq<nat>, p: Path)
    requires SafeStart(l, c) && forall k | 0 <= k < |schedule| :: schedule[k] < |c.rpcs|
    ensures OnlyStagesStack(c.w, Run(m, c, schedule), p)
  {
    if schedule != [] {
      var n := |schedule| - 1;
      AtMostOneBind(l, m, c, schedule[..n], p);
      RunSafe(l, m, c, schedule[..n]);
      RunBooked(m, c, schedule[..n], p);
      StackedStep(l, m, c.w, Run(m, c, schedule[..n]), schedule[n], p);
    }
  }

  /** There are never more of them than the stage requests that mounted there, and one. */
  lemma {:induction false} StacksAreBounded(l: Layout, m: Manager, c: Config, schedule: seq<nat>, p: Path)
    requires SafeStart(l, c) && forall k | 0 <= k < |schedule| :: schedule[k] < |c.rpcs|
    requires Depth(c.w, p) <= 1
    ensures Depth(Run(m, c, schedule).w, p) <= 1 + Count(Run(m, c, schedule).rpcs, Stage, p)
  {
    if schedule != [] {
      var n := |schedule| - 1;
      StacksAreBounded(l, m, c, schedule[..n], p);
      RunSafe(l, m, c, schedule[..n]);
      RunBooked(m, c, schedule[..n], p);
      BoundedStep(l, m, Run(m, c, schedule[..n]), schedule[n], p);
    }
  }
}
