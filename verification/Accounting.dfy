/** Every mount in the table is accounted for by the requests that passed a mount or an unmount call. */
module Accounting {
  import opened Wrappers
  import opened PathTree
  import opened Kernel
  import opened NodeMachine
  import opened LockProtocol

  predicate Mounts(kind: Kind) {
    kind == Stage || kind == Publish
  }

  /** The request has mounted at `p`, or for the two undoing kinds unmounted there. */
  predicate Passed(r: Rpc, p: Path) {
    exists e | e in r.log ::
      if Mounts(r.call.kind) then e.DidMount? && e.entry.path == p else e == DidUnmount(p)
  }

  /** How many requests of a kind have passed their call at `p`. */
  function Count(rpcs: seq<Rpc>, kind: Kind, p: Path): nat {
    if rpcs == [] then 0
    else
      var last := rpcs[|rpcs| - 1];
      Count(rpcs[..|rpcs| - 1], kind, p) + if last.call.kind == kind && Passed(last, p) then 1 else 0
  }

  function Depth(w: World, p: Path): nat {
    |StackAt(w.mounts, p)|
  }

  predicate Tallies(e: Effect) {
    e.DidMount? || e.DidUnmount?
  }

  /** The mount or unmount call of a request is still ahead. */
  predicate Ahead(phase: Phase) {
    match phase
    case Waiting => true
    case Active(InStage(pc)) => pc.AttachPc? || pc.ManagerMountPc? || pc.MounterPc?
    case Active(InPublish(pc)) => true
    case Active(InUnpublish(pc)) => pc.UnpublishUnmountPc?
    case Active(InUnstage(pc)) => !pc.DetachPc?
    case _ => false
  }

  /** The program counter is of the request's kind, and it has not mounted or unmounted before that call. */
  ghost predicate OnceOnly(r: Rpc) {
    && (Ahead(r.phase) ==> forall e | e in r.log :: !Tallies(e))
    && (r.phase.Active? ==>
          match r.phase.pc
          case InStage(_) => r.call.kind == Stage
          case InPublish(_) => r.call.kind == Publish
          case InUnpublish(_) => r.call.kind == Unpublish
          case InUnstage(_) => r.call.kind == Unstage)
  }

  /** Replacing one request changes a count by that request alone. */
  lemma {:induction false} CountUpdate(rpcs: seq<Rpc>, i: nat, r: Rpc, kind: Kind, p: Path)
    requires i < |rpcs|
    ensures Count(rpcs[i := r], kind, p) - Count(rpcs, kind, p)
         == (if r.call.kind == kind && Passed(r, p) then 1 else 0)
          - (if rpcs[i].call.kind == kind && Passed(rpcs[i], p) then 1 else 0)
  {
    var n := |rpcs| - 1;
    if i == n {
      assert rpcs[i := r][..n] == rpcs[..n];
    } else {
      assert rpcs[i := r][..n] == rpcs[..n][i := r];
      CountUpdate(rpcs[..n], i, r, kind, p);
    }
  }

  /** One call moves the stack at `p` by its effect there and nothing else. */
  ghost predicate Moves(w: World, w': World, effects: seq<Effect>, p: Path) {
    var s, s' := StackAt(w.mounts, p), StackAt(w'.mounts, p);
    if |effects| == 1 && effects[0].DidMount? then
      s' == s + if effects[0].entry.path == p then [effects[0].entry] else []
    else if |effects| == 1 && effects[0].DidUnmount? then
      if effects[0].path == p then s != [] && s' == s[..|s| - 1] else s' == s
    else
      s' == s && forall e | e in effects :: !Tallies(e)
  }

  lemma MountMoves(
      w: World, device: string, to: Path, fsType: string, options: seq<string>, sensitive: seq<string>, p: Path)
    requires MountOn(w, device, to, fsType, options, sensitive).Some?
    ensures var w' := MountOn(w, device, to, fsType, options, sensitive).value; Moves(w, w', MountEffect(w'), p)
  {
    var q := Resolve(w.tree, to, KERNEL_LINKS).value;
    StackAppend(w.mounts, MountEntry(device, q, fsType, options, sensitive), p);
  }

  lemma UnmountMoves(w: World, to: Path, p: Path)
    requires UnmountTop(w, to).Some?
    ensures Moves(w, UnmountTop(w, to).value, UnmountEffect(w, to), p)
  {
    StackPop(w.mounts, Resolve(w.tree, to, KERNEL_LINKS).value, p);
  }

  lemma StageMoves(m: Manager, call: Call, env: Env, pc: StagePc, w: World, p: Path)
    ensures var o := ExecStage(m, call, env, pc, w); Moves(w, o.w, o.effects, p)
  {
    if pc.MounterPc? && StageMount(w, call, pc.response).Some? {
      var e := StageEntry(call, pc.response, []);
      MountMoves(w, e.device, call.staging, e.fsType, e.options, e.sensitive, p);
    }
  }

  lemma PublishMoves(m: Manager, call: Call, env: Env, pc: PublishPc, w: World, p: Path)
    ensures var o := ExecPublish(m, call, env, pc, w); Moves(w, o.w, o.effects, p)
  {
    if pc.BindPc? && Bind(w, call.staging, call.target, call.readOnly, env.backing).Some? {
      MountMoves(w, BindDevice(w, call.staging, env.backing).value, call.target, "", BindOptions(call.readOnly), [], p);
    }
  }

  lemma UnstageMoves(m: Manager, call: Call, env: Env, pc: UnstagePc, w: World, p: Path)
    ensures var o := ExecUnstage(m, call, env, pc, w); Moves(w, o.w, o.effects, p)
  {
    if pc.UnstageUnmountPc? && UnmountTop(w, call.staging).Some? {
      UnmountMoves(w, call.staging, p);
    }
  }

  lemma ExecMoves(m: Manager, call: Call, env: Env, pc: Pc, w: World, p: Path)
    ensures var o := Exec(m, call, env, pc, w); Moves(w, o.w, o.effects, p)
  {
    match pc
    case InStage(sp) => StageMoves(m, call, env, sp, w, p);
    case InPublish(pp) => PublishMoves(m, call, env, pp, w, p);
    case InUnpublish(np) =>
      if np.UnpublishUnmountPc? && UnmountTop(w, call.target).Some? {
        UnmountMoves(w, call.target, p);
      }
    case InUnstage(up) => UnstageMoves(m, call, env, up, w, p);
  }

  /** The call that mounts or unmounts happens at most once, and it is of the request's own sort. */
  lemma ExecOnce(m: Manager, r: Rpc, pc: Pc, w: World)
    requires OnceOnly(r) && r.phase == Active(pc)
    ensures var o := Exec(m, r.call, r.env, pc, w);
            && OnceOnly(r.(phase := o.phase, log := r.log + o.effects))
            && (forall e | e in o.effects && Tallies(e) ::
                 |o.effects| == 1 && Ahead(r.phase) && (e.DidMount? <==> Mounts(r.call.kind)))
  {
  }

  lemma PassedGrows(r: Rpc, phase: Phase, effects: seq<Effect>, p: Path)
    requires forall e | e in effects && Tallies(e) :: |effects| == 1 && (e.DidMount? <==> Mounts(r.call.kind))
    ensures var r' := r.(phase := phase, log := r.log + effects);
            Passed(r', p) <==>
              Passed(r, p) ||
              (|effects| == 1 && if Mounts(r.call.kind) then effects[0].DidMount? && effects[0].entry.path == p
                                 else effects[0] == DidUnmount(p))
  {
    var r' := r.(phase := phase, log := r.log + effects);
    forall e | e in r.log ensures e in r'.log {}
    if |effects| == 1 {
      assert effects[0] in r'.log;
    }
  }

  ghost predicate Booked(c0: Config, c: Config, p: Path) {
    && |c.rpcs| == |c0.rpcs|
    && (forall i | 0 <= i < |c.rpcs| :: OnceOnly(c.rpcs[i]))
    && Depth(c.w, p) + Count(c.rpcs, Unstage, p) + Count(c.rpcs, Unpublish, p)
       == Depth(c0.w, p) + Count(c.rpcs, Stage, p) + Count(c.rpcs, Publish, p)
  }

  lemma {:induction false} CountInitial(rpcs: seq<Rpc>, kind: Kind, p: Path)
    requires forall i | 0 <= i < |rpcs| :: rpcs[i].log == []
    ensures Count(rpcs, kind, p) == 0
  {
    if rpcs != [] {
      CountInitial(rpcs[..|rpcs| - 1], kind, p);
    }
  }

  lemma BookedActive(m: Manager, c0: Config, c: Config, i: nat, p: Path)
    requires Booked(c0, c, p) && i < |c.rpcs| && c.rpcs[i].phase.Active?
    ensures Booked(c0, Step(m, c, i), p)
  {
    var r := c.rpcs[i];
    var pc := r.phase.pc;
    var o := Exec(m, r.call, r.env, pc, c.w);
    var r' := r.(phase := o.phase, log := r.log + o.effects);
    ExecMoves(m, r.call, r.env, pc, c.w, p);
    ExecOnce(m, r, pc, c.w);
    PassedGrows(r, o.phase, o.effects, p);
    CountUpdate(c.rpcs, i, r', Stage, p);
    CountUpdate(c.rpcs, i, r', Publish, p);
    CountUpdate(c.rpcs, i, r', Unstage, p);
    CountUpdate(c.rpcs, i, r', Unpublish, p);
  }

  lemma BookedStep(m: Manager, c0: Config, c: Config, i: nat, p: Path)
    requires Booked(c0, c, p) && i < |c.rpcs|
    ensures Booked(c0, Step(m, c, i), p)
  {
    if c.rpcs[i].phase.Active? {
      BookedActive(m, c0, c, i, p);
    } else {
      var r' := Step(m, c, i).rpcs[i];
      assert Passed(r', p) <==> Passed(c.rpcs[i], p);
      assert Step(m, c, i).rpcs == c.rpcs[i := r'];
      CountUpdate(c.rpcs, i, r', Stage, p);
      CountUpdate(c.rpcs, i, r', Publish, p);
      CountUpdate(c.rpcs, i, r', Unstage, p);
      CountUpdate(c.rpcs, i, r', Unpublish, p);
    }
  }

  lemma {:induction false} RunBooked(m: Manager, c: Config, schedule: seq<nat>, p: Path)
    requires Initial(c) && forall k | 0 <= k < |schedule| :: schedule[k] < |c.rpcs|
    ensures Booked(c, Run(m, c, schedule), p)
  {
    if schedule == [] {
      CountInitial(c.rpcs, Stage, p);
      CountInitial(c.rpcs, Publish, p);
      CountInitial(c.rpcs, Unstage, p);
      CountInitial(c.rpcs, Unpublish, p);
    } else {
      var n := |schedule| - 1;
      RunBooked(m, c, schedule[..n], p);
      BookedStep(m, c, Run(m, c, schedule[..n]), schedule[n], p);
    }
  }

  /**
   * In every interleaving, failures included, the number of mounts stacked on a path is what it was, plus the requests
   * that mounted there, minus those that unmounted there. No call is counted twice and none goes missing.
   */
  lemma MountsAddUp(m: Manager, c: Config, schedule: seq<nat>, p: Path)
    requires Initial(c) && forall k | 0 <= k < |schedule| :: schedule[k] < |c.rpcs|
    ensures var c' := Run(m, c, schedule);
            Depth(c'.w, p) + Count(c'.rpcs, Unstage, p) + Count(c'.rpcs, Unpublish, p)
            == Depth(c.w, p) + Count(c'.rpcs, Stage, p) + Count(c'.rpcs, Publish, p)
  {
    RunBooked(m, c, schedule, p);
  }

  /** A stage that mounted can only fail afterwards in the manager's Populate. */
  ghost predicate BlamesPopulate(r: Rpc) {
    r.call.kind == Stage ==>
      match r.phase
      case Active(InStage(PopulatePc)) => true
      case Active(_) => forall e | e in r.log :: !e.DidMount?
      case Exiting(Error(_)) => (exists e :: e in r.log && e.DidMount?) ==> Populated(r.call.staging, false) in r.log
      case Done(Error(_), _) => (exists e :: e in r.log && e.DidMount?) ==> Populated(r.call.staging, false) in r.log
      case _ => true
  }

  lemma BlameStep(m: Manager, c: Config, i: nat)
    requires i < |c.rpcs| && BlamesPopulate(c.rpcs[i]) && OnceOnly(c.rpcs[i])
    ensures BlamesPopulate(Step(m, c, i).rpcs[i])
  {
    var r, r' := c.rpcs[i], Step(m, c, i).rpcs[i];
    if r.phase == Active(InStage(PopulatePc)) {
      if r.env.populateError.Some? {
        assert Populated(r.call.staging, false) in Exec(m, r.call, r.env, r.phase.pc, c.w).effects;
        assert Populated(r.call.staging, false) in r'.log;
      }
    } else if r.phase.Active? && r.call.kind == Stage {
      assert forall e | e in r'.log :: e in r.log || e in Exec(m, r.call, r.env, r.phase.pc, c.w).effects;
    }
  }

  lemma {:induction false} StageErrors(m: Manager, c: Config, schedule: seq<nat>, i: nat)
    requires Initial(c) && i < |c.rpcs| && forall k | 0 <= k < |schedule| :: schedule[k] < |c.rpcs|
    ensures BlamesPopulate(Run(m, c, schedule).rpcs[i])
  {
    if schedule != [] {
      var n := |schedule| - 1;
      var before := Run(m, c, schedule[..n]);
      StageErrors(m, c, schedule[..n], i);
      RunBooked(m, c, schedule[..n], []);
      StepMoves(m, before, schedule[n]);
      if schedule[n] == i {
        BlameStep(m, before, i);
      }
    }
  }

  /** A stage that returned an error left every mount stack as it found it, unless its Populate call failed. */
  lemma FailedStageMountsNothing(m: Manager, c: Config, schedule: seq<nat>, i: nat, p: Path)
    requires Initial(c) && i < |c.rpcs| && forall k | 0 <= k < |schedule| :: schedule[k] < |c.rpcs|
    requires var r := Run(m, c, schedule).rpcs[i];
             r.call.kind == Stage && r.phase.Done? && r.phase.reply.Error? && Populated(r.call.staging, false) !in r.log
    ensures !Passed(Run(m, c, schedule).rpcs[i], p)
  {
    StageErrors(m, c, schedule, i);
  }
}
