/** node/nodeserver.go and utils/mount.go as they are written: methods that change a host step by step. */
module NodeServer {
  import opened Wrappers
  import opened PathTree
  import opened Kernel
  import opened NodeMachine
  import opened VolumeLocking
  import opened MountOptions
  import Lifecycle

  /** The operating system under the driver: its tree, its mount table, and the effects logged. */
  class Host {
    var tree: Tree
    var mounts: seq<MountEntry>
    ghost var trace: seq<Effect>

    constructor (tree: Tree, mounts: seq<MountEntry>)
      ensures Now() == World(tree, mounts) && trace == []
    {
      this.tree, this.mounts, trace := tree, mounts, [];
    }

    function Now(): World
      reads this
    {
      World(tree, mounts)
    }

    /** The entries of the table are searched from the oldest; only the first at the path is looked at. */
    method DeviceAt(p: Path) returns (device: string)
      ensures device == FirstDevice(mounts, p)
    {
      var i := 0;
      assert mounts[..0] == [];
      while i < |mounts|
        invariant i <= |mounts|
        invariant StackAt(mounts[..i], p) == []
      {
        assert mounts[..i + 1][..i] == mounts[..i];
        if mounts[i].path == p {
          StackPrefix(mounts, i + 1, p);
          return mounts[i].device;
        }
        i := i + 1;
      }
      assert mounts[..i] == mounts;
      return "";
    }

    method Symlink(dest: Path, link: Path, fails: bool) returns (ok: bool)
      modifies this`tree
      ensures var r := if fails then None else Kernel.Symlink(old(Now()), dest, link);
              ok == r.Some? && Now() == if r.Some? then r.value else old(Now())
    {
      ok := !fails && dest != [] && link != [] && link !in tree && IsDir(tree, Parent(link));
      if ok {
        tree := tree[link := Link(dest)];
      }
    }

    method Remove(p: Path, fails: bool) returns (ok: bool)
      modifies this`tree
      ensures var r := if fails then None else Kernel.Remove(old(Now()), p);
              ok == r.Some? && Now() == if r.Some? then r.value else old(Now())
    {
      ok := !fails && p in tree && !Busy(mounts, p) && !HasChild(tree, p);
      if ok {
        tree := tree - {p};
      }
    }

    method RemoveAll(p: Path, fails: bool) returns (ok: bool)
      modifies this
      ensures fails ==> !ok && Now() == old(Now()) && trace == old(trace)
      ensures !fails ==> (Now(), ok) == Kernel.RemoveAll(old(Now()), p) && trace == old(trace) + [DidRemoveAll(p)]
    {
      if fails {
        return false;
      }
      ok := !Busy(mounts, p);
      tree := map q | q in tree && !Deletable(Now(), p, q) :: tree[q];
      trace := trace + [DidRemoveAll(p)];
    }

    method MountSensitive(
        device: string, p: Path, fsType: string, options: seq<string>, sensitive: seq<string>,
        fails: bool) returns (ok: bool)
      modifies this
      ensures var r := if fails then None else MountOn(old(Now()), device, p, fsType, options, sensitive);
              && ok == r.Some? && Now() == (if r.Some? then r.value else old(Now()))
              && trace == old(trace) + if r.Some? then MountEffect(r.value) else []
    {
      var to := Resolve(tree, p, KERNEL_LINKS);
      ok := !fails && to.Some? && Lookup(tree, to.value) == Some(Dir);
      if ok {
        var e := MountEntry(device, to.value, fsType, options, sensitive);
        mounts := mounts + [e];
        trace := trace + [DidMount(e)];
      }
    }

    method Unmount(p: Path, fails: bool) returns (ok: bool)
      modifies this
      ensures var r := if fails then None else UnmountTop(old(Now()), p);
              && ok == r.Some? && Now() == (if r.Some? then r.value else old(Now()))
              && trace == old(trace) + if r.Some? then UnmountEffect(old(Now()), p) else []
    {
      var to := Resolve(tree, p, KERNEL_LINKS);
      ok := !fails && to.Some? && Mounted(Now(), to.value) && !Pinned(mounts, to.value);
      if ok {
        mounts := PopTop(mounts, to.value);
        trace := trace + [DidUnmount(to.value)];
      }
    }
  }

  /** The newest table only adds to the end of a path's stack. */
  lemma {:induction false} StackPrefix(ms: seq<MountEntry>, n: nat, p: Path)
    requires n <= |ms|
    ensures StackAt(ms[..n], p) <= StackAt(ms, p)
    decreases |ms| - n
  {
    if n < |ms| {
      assert ms[..n + 1][..n] == ms[..n];
      StackPrefix(ms, n + 1, p);
    } else {
      assert ms[..n] == ms;
    }
  }

  /** `GetDeviceFromPath`: None is an error, and the empty path says that it is not a device. */
  method GetDeviceFromPath(host: Host, p: Path, env: Env) returns (device: Option<Path>)
    ensures device == match FollowLinks(AtEval, env, host.Now(), p)
                      case None => None
                      case Some(q) =>
                        if AtStat in env.fails || q !in host.tree then None
                        else Some(if IsBareDevice(host.Now(), q) then q else [])
  {
    var to := FollowLinks(AtEval, env, host.Now(), p);
    if to.None? {
      return None;
    }
    if AtStat in env.fails || to.value !in host.tree {
      return None;
    }
    if host.tree[to.value] == Device(MODE_DEVICE) {
      return Some(to.value);
    }
    return Some([]);
  }

  /** `GetDeviceFromMount`: None is an error, and the empty string says that nothing is mounted. */
  method GetDeviceFromMount(host: Host, p: Path, env: Env) returns (device: Option<string>)
    ensures device == match FollowLinks(AtEvalAgain, env, host.Now(), p)
                      case None => None
                      case Some(q) =>
                        match NotMountPoint(host.Now(), q, env.check)
                        case None => None
                        case Some(true) => Some("")
                        case Some(false) => if AtList in env.fails then None else Some(FirstDevice(host.mounts, q))
  {
    var to := FollowLinks(AtEvalAgain, env, host.Now(), p);
    if to.None? {
      return None;
    }
    var notMnt := NotMountPoint(host.Now(), to.value, env.check);
    if notMnt.None? {
      return None;
    }
    if notMnt.value {
      return Some("");
    }
    if AtList in env.fails {
      return None;
    }
    var d := host.DeviceAt(to.value);
    return Some(d);
  }

  method BindMount(host: Host, source: Path, target: Path, readOnly: bool, env: Env) returns (ok: bool)
    modifies host
    ensures var r := Attempt(AtMount, env, Bind(old(host.Now()), source, target, readOnly, env.backing));
            && ok == r.Some? && host.Now() == (if r.Some? then r.value else old(host.Now()))
            && host.trace == old(host.trace) + if r.Some? then MountEffect(r.value) else []
  {
    var options := ["bind"];
    if readOnly {
      options := options + ["ro"];
    }
    assert options == BindOptions(readOnly);
    var device := BindDevice(host.Now(), source, env.backing);
    if device.None? {
      return false;
    }
    ok := host.MountSensitive(device.value, target, "", options, [], AtMount in env.fails);
  }

  /** The option assembly of `NodeStageVolume`, reassigning as it goes. */
  method AssembleOptions(call: Call, r: MountResponse)
    returns (fsType: string, options: seq<string>, sensitive: seq<string>)
    requires AccessOf(call).MountAccess?
    ensures var e := StageEntry(call, r, []);
            (if r.format then r.fsType else fsType) == e.fsType && options == e.options && sensitive == e.sensitive
  {
    var mnt := AccessOf(call);
    fsType := DEFAULT_FS_TYPE;
    if mnt.fsType != "" {
      fsType := mnt.fsType;
    }
    if r.fsType != "" {
      fsType := r.fsType;
    }
    var base: seq<string> := [];
    if mnt.fsType != "" {
      fsType := mnt.fsType;
    }
    base := Union(base, mnt.flags);
    if fsType == XFS {
      base := AppendIfAbsent(base, "nouuid");
    }
    if ReaderOnly(call) {
      base := AppendIfAbsent(base, "ro");
    }
    options := Union(base, r.options);
    sensitive := Difference(r.sensitive, base);
  }

  class Server {
    const manager: Manager
    const host: Host
    const volumeLocks: VolumeLocks

    constructor (manager: Manager, host: Host)
      ensures this.manager == manager && this.host == host && fresh(volumeLocks) && volumeLocks.locks == {}
    {
      this.manager, this.host := manager, host;
      volumeLocks := new VolumeLocks();
    }

    /** What each RPC promises: refused without a trace, or exactly its critical section, and the lock given back. */
    twostate predicate Served(q: Request, reply: Reply)
      reads host, volumeLocks
    {
      && volumeLocks.locks == old(volumeLocks.locks)
      && var c := Serve(manager, q, old(host.Now()));
         if PreLock(q.call, q.env) == None && q.call.volume in old(volumeLocks.locks) then
           reply == Error(Aborted) && host.Now() == old(host.Now()) && host.trace == old(host.trace)
         else
           reply == c.reply && host.Now() == c.w && host.trace == old(host.trace) + c.log
    }

    method NodePublishVolume(q: Request) returns (reply: Reply)
      requires q.call.kind == Publish
      modifies host, volumeLocks
      ensures Served(q, reply)
    {
      var call, env := q.call, q.env;
      if call.volume == "" || call.staging == [] || call.cap.None? || !ValidCapability(call.cap.value) {
        return Error(InvalidArgument);
      }
      if env.validate.Some? {
        return Error(InvalidArgument);
      }
      if call.target == [] || env.stat != StatDir {
        return Error(FailedPrecondition);
      }
      var acquired := volumeLocks.TryAcquire(call.volume);
      if !acquired {
        return Error(Aborted);
      }
      ghost var w, t := host.Now(), host.trace;
      LogPrefix(manager, call, env, Begin(manager, call), t, w);
      reply := PublishLocked(call, env);
      volumeLocks.Release(call.volume);
    }

    method PublishLocked(call: Call, env: Env) returns (reply: Reply)
      requires call.kind == Publish && !AccessOf(call).NoAccess?
      modifies host
      ensures Finish(manager, call, env, Begin(manager, call), old(host.trace), old(host.Now()))
              == Completion(host.Now(), reply, host.trace)
    {
      ghost var w, t := host.Now(), host.trace;
      assert t + [] == t;
      match AccessOf(call) {
      case BlockAccess =>
        Lifecycle.Advance(manager, call, env, InPublish(PublishEvalPc), t, w);
        var device := GetDeviceFromPath(host, call.staging, env);
        if FollowLinks(AtEval, env, w, call.staging).Some? {
          Lifecycle.Advance(manager, call, env,
            InPublish(PublishStatPc(FollowLinks(AtEval, env, w, call.staging).value)), t, w);
        }
        if device.None? {
          return Error(Unknown);
        }
        Lifecycle.Advance(manager, call, env, InPublish(PublishLinkPc(device.value)), t, w);
        var ok := host.Symlink(device.value, call.target, AtSymlink in env.fails);
        if !ok {
          return Error(Internal);
        }
      case MountAccess(_, _) =>
        Lifecycle.Advance(manager, call, env, InPublish(PublishCheckPc), t, w);
        if NotMountPoint(host.Now(), call.target, env.check) == Some(false) {
          return Ok;
        }
        Lifecycle.Advance(manager, call, env, InPublish(PublishStatStagingPc), t, w);
        if AtStatStaging in env.fails || !StatIsDir(host.Now(), call.staging) {
          return Error(FailedPrecondition);
        }
        Lifecycle.Advance(manager, call, env, InPublish(BindPc), t, w);
        var ok := BindMount(host, call.staging, call.target, call.readOnly, env);
        if !ok {
          return Error(Internal);
        }
      }
      return Ok;
    }

    method NodeUnpublishVolume(q: Request) returns (reply: Reply)
      requires q.call.kind == Unpublish
      modifies host, volumeLocks
      ensures Served(q, reply)
    {
      var call, env := q.call, q.env;
      if call.volume == "" {
        return Error(InvalidArgument);
      }
      if call.target == [] {
        return Error(InvalidArgument);
      }
      var acquired := volumeLocks.TryAcquire(call.volume);
      if !acquired {
        return Error(Aborted);
      }
      ghost var w, t := host.Now(), host.trace;
      LogPrefix(manager, call, env, Begin(manager, call), t, w);
      reply := UnpublishLocked(call, env);
      volumeLocks.Release(call.volume);
    }

    method UnpublishLocked(call: Call, env: Env) returns (reply: Reply)
      requires call.kind == Unpublish
      modifies host
      ensures Finish(manager, call, env, Begin(manager, call), old(host.trace), old(host.Now()))
              == Completion(host.Now(), reply, host.trace)
    {
      Lifecycle.Advance(manager, call, env, InUnpublish(UnpublishUnmountPc), host.trace, host.Now());
      assert host.trace + [] == host.trace;
      var ok := host.Unmount(call.target, AtUnmount in env.fails);
      if !ok {
        return Error(Internal);
      }
      Lifecycle.Advance(manager, call, env, InUnpublish(UnpublishRemovePc), host.trace, host.Now());
      assert host.trace + [] == host.trace;
      ok := host.Remove(call.target, AtRemove in env.fails);
      if !ok {
        return Error(Internal);
      }
      return Ok;
    }

    method NodeUnstageVolume(q: Request) returns (reply: Reply)
      requires q.call.kind == Unstage
      modifies host, volumeLocks
      ensures Served(q, reply)
    {
      var call, env := q.call, q.env;
      if call.volume == "" {
        return Error(InvalidArgument);
      }
      if call.staging == [] {
        return Error(InvalidArgument);
      }
      var acquired := volumeLocks.TryAcquire(call.volume);
      if !acquired {
        return Error(Aborted);
      }
      ghost var w, t := host.Now(), host.trace;
      LogPrefix(manager, call, env, Begin(manager, call), t, w);
      reply := UnstageLocked(call, env);
      volumeLocks.Release(call.volume);
    }

    /** The device questions of an unstage, as the step machine asks them. */
    lemma UnstageQuestions(call: Call, env: Env, log: seq<Effect>, w: World)
      requires call.kind == Unstage
      ensures var f := Finish(manager, call, env, Begin(manager, call), log, w);
              var to := FollowLinks(AtEval, env, w, call.staging);
              if to.None? || AtStat in env.fails || to.value !in w.tree then f == Completion(w, Error(Unknown), log)
              else if IsBareDevice(w, to.value) then
                f == Finish(manager, call, env, Active(InUnstage(UnstageRemovePc)), log, w)
              else
                var again := FollowLinks(AtEvalAgain, env, w, call.staging);
                if again.None? then f == Completion(w, Error(Unknown), log)
                else match NotMountPoint(w, again.value, env.check)
                  case None => f == Completion(w, Error(Unknown), log)
                  case Some(true) => f == Finish(manager, call, env, Active(InUnstage(RemoveAllPc)), log, w)
                  case Some(false) =>
                    if AtList in env.fails then f == Completion(w, Error(Unknown), log)
                    else
                      var source := FirstDevice(w.mounts, again.value);
                      f == Finish(manager, call, env,
                        Active(InUnstage(if source != "" then UnstageUnmountPc(source) else RemoveAllPc)), log, w)
    {
      assert log + [] == log;
      Lifecycle.Advance(manager, call, env, InUnstage(UnstageEvalPc), log, w);
      var to := FollowLinks(AtEval, env, w, call.staging);
      if to.Some? {
        Lifecycle.Advance(manager, call, env, InUnstage(UnstageStatPc(to.value)), log, w);
        Lifecycle.Advance(manager, call, env, InUnstage(UnstageEvalAgainPc), log, w);
        var again := FollowLinks(AtEvalAgain, env, w, call.staging);
        if again.Some? {
          Lifecycle.Advance(manager, call, env, InUnstage(UnstageCheckPc(again.value)), log, w);
          Lifecycle.Advance(manager, call, env, InUnstage(UnstageListPc(again.value)), log, w);
        }
      }
    }

    method UnstageLocked(call: Call, env: Env) returns (reply: Reply)
      requires call.kind == Unstage
      modifies host
      ensures Finish(manager, call, env, Begin(manager, call), old(host.trace), old(host.Now()))
              == Completion(host.Now(), reply, host.trace)
    {
      ghost var w, t := host.Now(), host.trace;
      UnstageQuestions(call, env, t, w);
      var devicePath := GetDeviceFromPath(host, call.staging, env);
      if devicePath.None? {
        return Error(Unknown);
      }
      if devicePath.value != [] {
        Lifecycle.Advance(manager, call, env, InUnstage(UnstageRemovePc), t, w);
        var ok := host.Remove(call.staging, AtRemove in env.fails);
        assert t + [] == t;
        if !ok {
          return Error(Unknown);
        }
        return Ok;
      }
      var device := GetDeviceFromMount(host, call.staging, env);
      if device.None? {
        return Error(Unknown);
      }
      reply := TakeDown(call, env, device.value);
    }

    /** The rest of `NodeUnstageVolume`: unmount, or delete when nothing is mounted, then detach. */
    method TakeDown(call: Call, env: Env, device: string) returns (reply: Reply)
      requires call.kind == Unstage
      modifies host
      ensures var pc := if device != "" then UnstageUnmountPc(device) else RemoveAllPc;
              Finish(manager, call, env, Active(InUnstage(pc)), old(host.trace), old(host.Now()))
                == Completion(host.Now(), reply, host.trace)
    {
      ghost var t := host.trace;
      assert t + [] == t;
      if device != "" {
        Lifecycle.Advance(manager, call, env, InUnstage(UnstageUnmountPc(device)), t, host.Now());
        var ok := host.Unmount(call.staging, AtUnmount in env.fails);
        if !ok {
          return Error(Unknown);
        }
      } else {
        Lifecycle.Advance(manager, call, env, InUnstage(RemoveAllPc), t, host.Now());
        var ok := host.RemoveAll(call.staging, AtRemoveAll in env.fails);
        if !ok {
          return Error(Unknown);
        }
      }
      if manager.block {
        Lifecycle.Advance(manager, call, env, InUnstage(DetachPc(device)), host.trace, host.Now());
        host.trace := host.trace + [Detached(device)];
        if env.detachError.Some? {
          return Error(CodeOf(env.detachError.value, Unknown));
        }
      }
      return Ok;
    }

    method NodeStageVolume(q: Request) returns (reply: Reply)
      requires q.call.kind == Stage
      modifies host, volumeLocks
      ensures Served(q, reply)
    {
      var call, env := q.call, q.env;
      if call.volume == "" || call.staging == [] || call.cap.None? || !ValidCapability(call.cap.value) {
        return Error(InvalidArgument);
      }
      if env.validate.Some? {
        return Error(CodeOf(env.validate.value, InvalidArgument));
      }
      if env.stat != StatDir {
        return Error(FailedPrecondition);
      }
      var acquired := volumeLocks.TryAcquire(call.volume);
      if !acquired {
        return Error(Aborted);
      }
      ghost var w, t := host.Now(), host.trace;
      LogPrefix(manager, call, env, Begin(manager, call), t, w);
      reply := StageLocked(call, env);
      volumeLocks.Release(call.volume);
    }

    method StageLocked(call: Call, env: Env) returns (reply: Reply)
      requires call.kind == Stage && !AccessOf(call).NoAccess?
      modifies host
      ensures Finish(manager, call, env, Begin(manager, call), old(host.trace), old(host.Now()))
              == Completion(host.Now(), reply, host.trace)
    {
      ghost var w, t := host.Now(), host.trace;
      assert t + [] == t;
      var device: Path := [];
      if manager.block {
        Lifecycle.Advance(manager, call, env, InStage(AttachPc), t, w);
        if env.attach.Failure? {
          return Error(CodeOf(env.attach.error, Internal));
        }
        device := env.attach.value;
        host.trace := host.trace + [Attached(device)];
      }
      t := host.trace;
      assert t + [] == t;
      match AccessOf(call)
      case BlockAccess =>
        if device == [] {
          return Error(Unimplemented);
        }
        Lifecycle.Advance(manager, call, env, InStage(StageLinkPc(device)), t, w);
        var ok := host.Symlink(device, call.staging, AtSymlink in env.fails);
        if !ok {
          return Error(Internal);
        }
        return Ok;
      case MountAccess(_, _) =>
        reply := ProvideMount(call, env);
    }

    /** The mount half of `NodeStageVolume`: the manager's mount, then its files, and one of them at least. */
    method ProvideMount(call: Call, env: Env) returns (reply: Reply)
      requires call.kind == Stage && AccessOf(call).MountAccess?
      modifies host
      ensures var phase := if manager.mount then Active(InStage(ManagerMountPc)) else AfterMount(manager, false);
              Finish(manager, call, env, phase, old(host.trace), old(host.Now()))
                == Completion(host.Now(), reply, host.trace)
    {
      ghost var t := host.trace;
      assert t + [] == t;
      var provisioned := false;
      if manager.mount {
        Lifecycle.Advance(manager, call, env, InStage(ManagerMountPc), t, host.Now());
        if env.response.Failure? {
          return Error(CodeOf(env.response.error, Internal));
        }
        if env.response.value.Some? {
          var r := env.response.value.value;
          Lifecycle.Advance(manager, call, env, InStage(MounterPc(r)), t, host.Now());
          var fsType, options, sensitive := AssembleOptions(call, r);
          var ok;
          if r.format {
            ok := host.MountSensitive(r.source, call.staging, r.fsType, options, sensitive, AtMount in env.fails);
          } else {
            ok := host.MountSensitive(r.source, call.staging, fsType, options, sensitive, AtMount in env.fails);
          }
          if !ok {
            return Error(Internal);
          }
          provisioned := true;
        }
      }
      if manager.populate {
        Lifecycle.Advance(manager, call, env, InStage(PopulatePc), host.trace, host.Now());
        host.tree := Fill(host.Now(), call.staging, env.populated).tree;
        host.trace := host.trace + [Populated(call.staging, env.populateError.None?)];
        if env.populateError.Some? {
          return Error(CodeOf(env.populateError.value, Internal));
        }
        provisioned := true;
      }
      if !provisioned {
        return Error(Unimplemented);
      }
      return Ok;
    }
  }
}
