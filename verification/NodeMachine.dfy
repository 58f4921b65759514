/** The four node RPCs as a step machine: one step per lock operation or external call. */
module NodeMachine {
  import opened Wrappers
  import opened PathTree
  import opened Kernel
  import MountOptions

  datatype Kind = Stage | Publish | Unpublish | Unstage

  datatype AccessMode =
    | UnknownMode | SingleNodeWriter | SingleNodeReaderOnly | MultiNodeReaderOnly
    | MultiNodeSingleWriter | MultiNodeMultiWriter | SingleNodeSingleWriter | SingleNodeMultiWriter

  datatype Access = NoAccess | BlockAccess | MountAccess(fsType: string, flags: seq<string>)

  datatype Capability = Capability(mode: Option<AccessMode>, access: Access)

  /** One request. Fields a kind does not have are ignored. */
  datatype Call = Call(kind: Kind, volume: string, staging: Path, target: Path, cap: Option<Capability>, readOnly: bool)

  datatype Code = Aborted | InvalidArgument | FailedPrecondition | Internal | Unimplemented | Unknown |
    OtherCode(n: nat)

  datatype Reply = Ok | Error(code: Code)

  /** An error from the manager: a gRPC status, or any other error. */
  datatype ManagerError = StatusError(code: Code) | PlainError

  /** Which optional interfaces the manager implements. */
  datatype Manager = Manager(block: bool, mount: bool, populate: bool)

  datatype MountResponse = MountResponse(source: string, fsType: string, options: seq<string>, sensitive: seq<string>,
    format: bool)

  datatype StatOutcome = StatError | StatDir | StatOther

  /** The external calls that may fail by themselves. */
  datatype Site =
    | AtEval | AtStat | AtSymlink | AtMount | AtStatStaging | AtUnmount
    | AtRemove | AtEvalAgain | AtList | AtRemoveAll

  /** How everything outside the driver behaves during one request. */
  datatype Env = Env(
    validate: Option<ManagerError>,
    stat: StatOutcome,
    attach: Result<Path, ManagerError>,
    response: Result<Option<MountResponse>, ManagerError>,
    populated: Tree,
    populateError: Option<ManagerError>,
    detachError: Option<ManagerError>,
    check: MountCheck,
    backing: string,
    fails: set<Site>)

  /** The next external call of each kind of request, with the locals it needs. */
  datatype StagePc = AttachPc | StageLinkPc(device: Path) | ManagerMountPc | MounterPc(response: MountResponse) |
    PopulatePc

  datatype PublishPc =
    | PublishEvalPc | PublishStatPc(resolved: Path) | PublishLinkPc(device: Path)
    | PublishCheckPc | PublishStatStagingPc | BindPc

  datatype UnpublishPc = UnpublishUnmountPc | UnpublishRemovePc

  datatype UnstagePc =
    | UnstageEvalPc | UnstageStatPc(resolved: Path) | UnstageRemovePc
    | UnstageEvalAgainPc | UnstageCheckPc(resolved: Path) | UnstageListPc(resolved: Path)
    | UnstageUnmountPc(source: string) | RemoveAllPc | DetachPc(source: string)

  datatype Pc = InStage(sp: StagePc) | InPublish(pp: PublishPc) | InUnpublish(np: UnpublishPc) |
    InUnstage(up: UnstagePc)

  /** `Exiting` still holds the lock; `Done` records whether it was ever held. */
  datatype Phase = Waiting | Active(pc: Pc) | Exiting(reply: Reply) | Done(reply: Reply, acquired: bool)

  /** What is logged of a request: its dealings with the manager's devices and files, and every change to the mounts. */
  datatype Effect =
    | Attached(device: Path)
    | DidMount(entry: MountEntry)
    | DidUnmount(path: Path)
    | Populated(path: Path, ok: bool)
    | DidRemoveAll(path: Path)
    | Detached(source: string)

  datatype Rpc = Rpc(call: Call, env: Env, phase: Phase, log: seq<Effect>)

  datatype Outcome = Outcome(w: World, phase: Phase, effects: seq<Effect>)

  /** `status.FromError`: a status keeps its code. */
  function CodeOf(e: ManagerError, default: Code): Code {
    match e
    case StatusError(c) => c
    case PlainError => default
  }

  predicate ValidCapability(cap: Capability) {
    cap.mode.Some? && !cap.access.NoAccess?
  }

  predicate ReaderOnly(call: Call) {
    call.cap.Some? && call.cap.value.mode.Some? &&
    (call.cap.value.mode.value.MultiNodeReaderOnly? || call.cap.value.mode.value.SingleNodeReaderOnly?)
  }

  function AccessOf(call: Call): Access {
    if call.cap.Some? then call.cap.value.access else NoAccess
  }

  /** The checks before the lock: the code of the first that fails. */
  function PreLock(call: Call, env: Env): Option<Code> {
    if call.volume == "" then Some(InvalidArgument)
    else match call.kind
      case Unpublish => if call.target == [] then Some(InvalidArgument) else None
      case Unstage => if call.staging == [] then Some(InvalidArgument) else None
      case Stage =>
        if call.staging == [] || call.cap.None? || !ValidCapability(call.cap.value) then Some(InvalidArgument)
        else if env.validate.Some? then Some(CodeOf(env.validate.value, InvalidArgument))
        else if env.stat != StatDir then Some(FailedPrecondition)
        else None
      case Publish =>
        if call.staging == [] || call.cap.None? || !ValidCapability(call.cap.value) || env.validate.Some? then
          Some(InvalidArgument)
        else if call.target == [] || env.stat != StatDir then Some(FailedPrecondition)
        else None
  }

  /**
   * An otherwise valid publish is refused with FailedPrecondition if and only if it has no target or the stat finds no
   * directory there; a missing target never gives InvalidArgument.
   */
  lemma PublishWithoutTarget(call: Call, env: Env)
    requires call.kind == Publish && call.volume != "" && call.staging != []
    requires call.cap.Some? && ValidCapability(call.cap.value) && env.validate == None
    ensures PreLock(call, env) == Some(FailedPrecondition) <==> call.target == [] || env.stat != StatDir
    ensures PreLock(call, env) != Some(InvalidArgument)
  {
  }

  /** Where a request starts once it holds the lock. */
  function Begin(m: Manager, call: Call): Phase {
    match call.kind
    case Stage => if m.block then Active(InStage(AttachPc)) else AfterAttach(m, call, [])
    case Publish =>
      (match AccessOf(call)
       case BlockAccess => Active(InPublish(PublishEvalPc))
       case MountAccess(_, _) => Active(InPublish(PublishCheckPc))
       case NoAccess => Exiting(Ok))
    case Unpublish => Active(InUnpublish(UnpublishUnmountPc))
    case Unstage => Active(InUnstage(UnstageEvalPc))
  }

  function AfterAttach(m: Manager, call: Call, device: Path): Phase {
    match AccessOf(call)
    case BlockAccess => if device == [] then Exiting(Error(Unimplemented)) else Active(InStage(StageLinkPc(device)))
    case MountAccess(_, _) => if m.mount then Active(InStage(ManagerMountPc)) else AfterMount(m, false)
    case NoAccess => Exiting(Ok)
  }

  function AfterMount(m: Manager, provisioned: bool): Phase {
    if m.populate then Active(InStage(PopulatePc))
    else if provisioned then Exiting(Ok) else Exiting(Error(Unimplemented))
  }

  function AfterUnstage(m: Manager, source: string): Phase {
    if m.block then Active(InUnstage(DetachPc(source))) else Exiting(Ok)
  }

  function Attempt(site: Site, env: Env, r: Option<World>): Option<World> {
    if site in env.fails then None else r
  }

  function FollowLinks(site: Site, env: Env, w: World, p: Path): Option<Path> {
    if site in env.fails then None else Resolve(w.tree, p, EVAL_LINKS)
  }

  /** The entry a stage asks the mounter for. */
  function StageEntry(call: Call, r: MountResponse, path: Path): MountEntry {
    var a := AccessOf(call);
    var requested := if a.MountAccess? then a.fsType else "";
    var flags := if a.MountAccess? then a.flags else [];
    var fsType := MountOptions.ResolveFsType(requested, r.fsType);
    var base := MountOptions.BaseOptions(flags, fsType, ReaderOnly(call));
    MountEntry(r.source, path, if r.format then r.fsType else fsType,
               MountOptions.Union(base, r.options), MountOptions.Difference(r.sensitive, base))
  }

  /**
   * A format mount gets the type that was resolved if and only if the manager names one that the request agrees with.
   */
  lemma FormatType(call: Call, r: MountResponse, path: Path, requested: string, flags: seq<string>)
    requires AccessOf(call) == MountAccess(requested, flags)
    ensures StageEntry(call, r, path).fsType == MountOptions.ResolveFsType(requested, r.fsType) <==>
              !r.format || (r.fsType != "" && (requested == "" || requested == r.fsType))
  {
  }

  function StageMount(w: World, call: Call, r: MountResponse): Option<World> {
    var e := StageEntry(call, r, []);
    MountOn(w, e.device, call.staging, e.fsType, e.options, e.sensitive)
  }

  /** A request that changed only the mount table has added or removed at most its newest line. */
  function MountEffect(w: World): seq<Effect> {
    if w.mounts == [] then [] else [DidMount(w.mounts[|w.mounts| - 1])]
  }

  function UnmountEffect(w: World, p: Path): seq<Effect> {
    match Resolve(w.tree, p, KERNEL_LINKS)
    case Some(q) => [DidUnmount(q)]
    case None => []
  }

  /** One external call of `NodeStageVolume` while it holds the lock. */
  function ExecStage(m: Manager, call: Call, env: Env, pc: StagePc, w: World): Outcome {
    match pc
    case AttachPc =>
      (match env.attach
       case Success(d) => Outcome(w, AfterAttach(m, call, d), [Attached(d)])
       case Failure(e) => Outcome(w, Exiting(Error(CodeOf(e, Internal))), []))
    case StageLinkPc(d) =>
      (match Attempt(AtSymlink, env, Symlink(w, d, call.staging))
       case Some(w') => Outcome(w', Exiting(Ok), [])
       case None => Outcome(w, Exiting(Error(Internal)), []))
    case ManagerMountPc =>
      (match env.response
       case Failure(e) => Outcome(w, Exiting(Error(CodeOf(e, Internal))), [])
       case Success(None) => Outcome(w, AfterMount(m, false), [])
       case Success(Some(r)) => Outcome(w, Active(InStage(MounterPc(r))), []))
    case MounterPc(r) =>
      (match Attempt(AtMount, env, StageMount(w, call, r))
       case Some(w') => Outcome(w', AfterMount(m, true), MountEffect(w'))
       case None => Outcome(w, Exiting(Error(Internal)), []))
    case PopulatePc =>
      var w' := Fill(w, call.staging, env.populated);
      (match env.populateError
       case None => Outcome(w', Exiting(Ok), [Populated(call.staging, true)])
       case Some(e) => Outcome(w', Exiting(Error(CodeOf(e, Internal))), [Populated(call.staging, false)]))
  }

  function AfterBind(env: Env, r: Option<World>, w: World): Outcome {
    match Attempt(AtMount, env, r)
    case Some(w') => Outcome(w', Exiting(Ok), MountEffect(w'))
    case None => Outcome(w, Exiting(Error(Internal)), [])
  }

  /** One external call of `NodePublishVolume`. */
  function ExecPublish(m: Manager, call: Call, env: Env, pc: PublishPc, w: World): Outcome {
    match pc
    case PublishEvalPc =>
      (match FollowLinks(AtEval, env, w, call.staging)
       case Some(q) => Outcome(w, Active(InPublish(PublishStatPc(q))), [])
       case None => Outcome(w, Exiting(Error(Unknown)), []))
    case PublishStatPc(q) =>
      if AtStat in env.fails || q !in w.tree then Outcome(w, Exiting(Error(Unknown)), [])
      else Outcome(w, Active(InPublish(PublishLinkPc(if IsBareDevice(w, q) then q else []))), [])
    case PublishLinkPc(d) =>
      (match Attempt(AtSymlink, env, Symlink(w, d, call.target))
       case Some(w') => Outcome(w', Exiting(Ok), [])
       case None => Outcome(w, Exiting(Error(Internal)), []))
    case PublishCheckPc =>
      if NotMountPoint(w, call.target, env.check) == Some(false) then Outcome(w, Exiting(Ok), [])
      else Outcome(w, Active(InPublish(PublishStatStagingPc)), [])
    case PublishStatStagingPc =>
      if AtStatStaging in env.fails || !StatIsDir(w, call.staging) then
        Outcome(w, Exiting(Error(FailedPrecondition)), [])
      else Outcome(w, Active(InPublish(BindPc)), [])
    case BindPc => AfterBind(env, Bind(w, call.staging, call.target, call.readOnly, env.backing), w)
  }

  /** One external call of `NodeUnpublishVolume`. */
  function ExecUnpublish(m: Manager, call: Call, env: Env, pc: UnpublishPc, w: World): Outcome {
    match pc
    case UnpublishUnmountPc =>
      (match Attempt(AtUnmount, env, UnmountTop(w, call.target))
       case Some(w') => Outcome(w', Active(InUnpublish(UnpublishRemovePc)), UnmountEffect(w, call.target))
       case None => Outcome(w, Exiting(Error(Internal)), []))
    case UnpublishRemovePc =>
      (match Attempt(AtRemove, env, Remove(w, call.target))
       case Some(w') => Outcome(w', Exiting(Ok), [])
       case None => Outcome(w, Exiting(Error(Internal)), []))
  }

  /** One external call of `NodeUnstageVolume`. */
  function ExecUnstage(m: Manager, call: Call, env: Env, pc: UnstagePc, w: World): Outcome {
    match pc
    case UnstageEvalPc =>
      (match FollowLinks(AtEval, env, w, call.staging)
       case Some(q) => Outcome(w, Active(InUnstage(UnstageStatPc(q))), [])
       case None => Outcome(w, Exiting(Error(Unknown)), []))
    case UnstageStatPc(q) =>
      if AtStat in env.fails || q !in w.tree then Outcome(w, Exiting(Error(Unknown)), [])
      else Outcome(w, Active(InUnstage(if IsBareDevice(w, q) then UnstageRemovePc else UnstageEvalAgainPc)), [])
    case UnstageRemovePc =>
      (match Attempt(AtRemove, env, Remove(w, call.staging))
       case Some(w') => Outcome(w', Exiting(Ok), [])
       case None => Outcome(w, Exiting(Error(Unknown)), []))
    case UnstageEvalAgainPc =>
      (match FollowLinks(AtEvalAgain, env, w, call.staging)
       case Some(q) => Outcome(w, Active(InUnstage(UnstageCheckPc(q))), [])
       case None => Outcome(w, Exiting(Error(Unknown)), []))
    case UnstageCheckPc(q) =>
      (match NotMountPoint(w, q, env.check)
       case None => Outcome(w, Exiting(Error(Unknown)), [])
       case Some(true) => Outcome(w, Active(InUnstage(RemoveAllPc)), [])
       case Some(false) => Outcome(w, Active(InUnstage(UnstageListPc(q))), []))
    case UnstageListPc(q) =>
      if AtList in env.fails then Outcome(w, Exiting(Error(Unknown)), [])
      else
        var source := FirstDevice(w.mounts, q);
        Outcome(w, Active(InUnstage(if source != "" then UnstageUnmountPc(source) else RemoveAllPc)), [])
    case UnstageUnmountPc(source) =>
      (match Attempt(AtUnmount, env, UnmountTop(w, call.staging))
       case Some(w') => Outcome(w', AfterUnstage(m, source), UnmountEffect(w, call.staging))
       case None => Outcome(w, Exiting(Error(Unknown)), []))
    case RemoveAllPc =>
      if AtRemoveAll in env.fails then Outcome(w, Exiting(Error(Unknown)), [])
      else
        var (w', ok) := RemoveAll(w, call.staging);
        Outcome(w', if ok then AfterUnstage(m, "") else Exiting(Error(Unknown)), [DidRemoveAll(call.staging)])
    case DetachPc(source) =>
      (match env.detachError
       case None => Outcome(w, Exiting(Ok), [Detached(source)])
       case Some(e) => Outcome(w, Exiting(Error(CodeOf(e, Unknown))), [Detached(source)]))
  }

  /** One external call of a request that holds its volume's lock. */
  function Exec(m: Manager, call: Call, env: Env, pc: Pc, w: World): Outcome {
    match pc
    case InStage(sp) => ExecStage(m, call, env, sp, w)
    case InPublish(pp) => ExecPublish(m, call, env, pp, w)
    case InUnpublish(np) => ExecUnpublish(m, call, env, np, w)
    case InUnstage(up) => ExecUnstage(m, call, env, up, w)
  }

  /** How many calls may still follow. */
  function StageRank(pc: StagePc): nat {
    match pc
    case AttachPc => 9
    case ManagerMountPc => 8
    case MounterPc(_) => 7
    case PopulatePc => 6
    case StageLinkPc(_) => 2
  }

  function PublishRank(pc: PublishPc): nat {
    match pc
    case PublishEvalPc => 5
    case PublishStatPc(_) => 4
    case PublishCheckPc => 4
    case PublishStatStagingPc => 3
    case PublishLinkPc(_) => 2
    case BindPc => 2
  }

  function UnstageRank(pc: UnstagePc): nat {
    match pc
    case UnstageEvalPc => 9
    case UnstageStatPc(_) => 8
    case UnstageEvalAgainPc => 7
    case UnstageCheckPc(_) => 6
    case UnstageListPc(_) => 5
    case UnstageUnmountPc(_) => 4
    case RemoveAllPc => 3
    case UnstageRemovePc => 2
    case DetachPc(_) => 2
  }

  function Rank(phase: Phase): nat {
    match phase
    case Waiting => 10
    case Done(_, _) => 0
    case Exiting(_) => 1
    case Active(InStage(pc)) => StageRank(pc)
    case Active(InPublish(pc)) => PublishRank(pc)
    case Active(InUnpublish(pc)) => if pc.UnpublishUnmountPc? then 3 else 2
    case Active(InUnstage(pc)) => UnstageRank(pc)
  }

  predicate InFlight(phase: Phase) {
    phase.Active? || phase.Exiting?
  }

  predicate Acquired(phase: Phase) {
    InFlight(phase) || (phase.Done? && phase.acquired)
  }

  lemma StageProgress(m: Manager, call: Call, env: Env, pc: StagePc, w: World)
    ensures var p := ExecStage(m, call, env, pc, w).phase; InFlight(p) && Rank(p) < StageRank(pc) <= 9
  {
  }

  lemma PublishProgress(m: Manager, call: Call, env: Env, pc: PublishPc, w: World)
    ensures var p := ExecPublish(m, call, env, pc, w).phase; InFlight(p) && Rank(p) < PublishRank(pc) <= 9
  {
  }

  lemma UnstageProgress(m: Manager, call: Call, env: Env, pc: UnstagePc, w: World)
    ensures var p := ExecUnstage(m, call, env, pc, w).phase; InFlight(p) && Rank(p) < UnstageRank(pc) <= 9
  {
  }

  /** Every call of a critical section moves it closer to its exit, so a lock is held for at most ten steps. */
  lemma Progress(m: Manager, call: Call, env: Env, pc: Pc, w: World)
    ensures InFlight(Exec(m, call, env, pc, w).phase)
    ensures Rank(Exec(m, call, env, pc, w).phase) < Rank(Active(pc)) <= 9
  {
    match pc
    case InStage(sp) => StageProgress(m, call, env, sp, w);
    case InPublish(pp) => PublishProgress(m, call, env, pp, w);
    case InUnpublish(_) =>
    case InUnstage(up) => UnstageProgress(m, call, env, up, w);
  }

  /** Where a critical section ends when no other request runs in between. */
  datatype Completion = Completion(w: World, reply: Reply, log: seq<Effect>)

  function Finish(m: Manager, call: Call, env: Env, phase: Phase, log: seq<Effect>, w: World): Completion
    requires InFlight(phase)
    decreases Rank(phase)
  {
    match phase
    case Exiting(reply) => Completion(w, reply, log)
    case Active(pc) =>
      Progress(m, call, env, pc, w);
      var o := Exec(m, call, env, pc, w);
      Finish(m, call, env, o.phase, log + o.effects, o.w)
  }

  /** The whole critical section of a request that gets its lock. */
  function Critical(m: Manager, rpc: Rpc, w: World): Completion
  {
    BeginInFlight(m, rpc.call);
    Finish(m, rpc.call, rpc.env, Begin(m, rpc.call), [], w)
  }

  lemma BeginInFlight(m: Manager, call: Call)
    ensures InFlight(Begin(m, call))
  {
  }

  lemma LogsAppend(a: seq<Effect>, b: seq<Effect>, c: seq<Effect>)
    ensures (a + b) + c == a + (b + c) && [] + a == a && a + [] == a
  {
  }

  /** What was logged before does not matter to how a request goes on. */
  lemma {:induction false} LogPrefix(m: Manager, call: Call, env: Env, phase: Phase, log: seq<Effect>, w: World)
    requires InFlight(phase)
    ensures var f := Finish(m, call, env, phase, [], w);
            Finish(m, call, env, phase, log, w) == Completion(f.w, f.reply, log + f.log)
    decreases Rank(phase)
  {
    if phase.Active? {
      Progress(m, call, env, phase.pc, w);
      var o := Exec(m, call, env, phase.pc, w);
      LogPrefix(m, call, env, o.phase, log + o.effects, o.w);
      LogPrefix(m, call, env, o.phase, o.effects, o.w);
      LogsAppend(o.effects, [], []);
      LogsAppend(log, o.effects, Finish(m, call, env, o.phase, [], o.w).log);
    } else {
      LogsAppend(log, [], []);
    }
  }

  datatype Request = Request(call: Call, env: Env)

  /** One request served while no other is in flight. */
  function Serve(m: Manager, q: Request, w: World): Completion {
    var pre := PreLock(q.call, q.env);
    if pre.Some? then Completion(w, Error(pre.value), [])
    else Critical(m, Rpc(q.call, q.env, Waiting, []), w)
  }

  /** All requests, the lock set and the world they share. */
  datatype Config = Config(w: World, locks: set<string>, rpcs: seq<Rpc>)

  /** One step of request `i`; a request that has returned takes none. */
  function Step(m: Manager, c: Config, i: nat): Config
    requires i < |c.rpcs|
  {
    var r := c.rpcs[i];
    match r.phase
    case Waiting =>
      if PreLock(r.call, r.env).Some? then
        c.(rpcs := c.rpcs[i := r.(phase := Done(Error(PreLock(r.call, r.env).value), false))])
      else if r.call.volume in c.locks then
        c.(rpcs := c.rpcs[i := r.(phase := Done(Error(Aborted), false))])
      else
        Config(c.w, c.locks + {r.call.volume}, c.rpcs[i := r.(phase := Begin(m, r.call))])
    case Active(pc) =>
      var o := Exec(m, r.call, r.env, pc, c.w);
      Config(o.w, c.locks, c.rpcs[i := r.(phase := o.phase, log := r.log + o.effects)])
    case Exiting(reply) =>
      Config(c.w, c.locks - {r.call.volume}, c.rpcs[i := r.(phase := Done(reply, true))])
    case Done(_, _) => c
  }

  /** The configuration after an interleaving; `schedule[k]` says which request takes the k-th step. */
  function Run(m: Manager, c: Config, schedule: seq<nat>): (c': Config)
    requires forall k | 0 <= k < |schedule| :: schedule[k] < |c.rpcs|
    ensures |c'.rpcs| == |c.rpcs|
  {
    if schedule == [] then c
    else
      var n := |schedule| - 1;
      Step(m, Run(m, c, schedule[..n]), schedule[n])
  }

  /** Nothing has started. */
  ghost predicate Initial(c: Config) {
    c.locks == {} && forall i | 0 <= i < |c.rpcs| :: c.rpcs[i].phase == Waiting && c.rpcs[i].log == []
  }
}
