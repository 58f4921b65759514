/**
 * What every request answers, logs and leaves, for every manager, every world and every way its calls turn out, said of
 * the request's own fields, the tree and the lines of the mount table.
 */
module Replies {
  import opened Wrappers
  import opened PathTree
  import opened Kernel
  import opened NodeMachine
  import opened Lifecycle
  import MountOptions

  // What the requests look at

  /** `p` leads to a directory. */
  ghost predicate DirAt(w: World, p: Path) {
    exists q :: Resolve(w.tree, p, KERNEL_LINKS) == Some(q) && q in w.tree && w.tree[q] == Dir
  }

  /** The mount-point check answers that `p` is one. */
  ghost predicate SaysMounted(w: World, p: Path, check: MountCheck) {
    || check == Forced(false)
    || (check == Exact && exists q :: Resolve(w.tree, p, KERNEL_LINKS) == Some(q) && MountAt(w.mounts, q))
  }

  /** The mount-point check answers that `p` is none; it may also fail. */
  ghost predicate SaysFree(w: World, p: Path, check: MountCheck) {
    || check == Forced(true)
    || (check == Exact && exists q :: Resolve(w.tree, p, KERNEL_LINKS) == Some(q) && !MountAt(w.mounts, q))
  }

  lemma CheckSays(w: World, p: Path, check: MountCheck)
    ensures NotMountPoint(w, p, check) == Some(false) <==> SaysMounted(w, p, check)
    ensures NotMountPoint(w, p, check) == Some(true) <==> SaysFree(w, p, check)
  {
    var to := Resolve(w.tree, p, KERNEL_LINKS);
    if to.Some? {
      MountAtIs(w.mounts, to.value);
    }
  }

  /** The newest line at `p` is taken out of the table. */
  ghost predicate TakesNewest(ms: seq<MountEntry>, ms': seq<MountEntry>, p: Path) {
    exists i: nat :: NewestAt(ms, p, i) && ms' == ms[..i] + ms[i + 1..]
  }

  lemma PopTakesNewest(ms: seq<MountEntry>, p: Path)
    requires StackAt(ms, p) != []
    ensures TakesNewest(ms, PopTop(ms, p), p)
  {
    MountAtIs(ms, p);
    var i := NewestExists(ms, p);
    NewestIs(ms, p, i);
  }

  /** An unmount of what `p` leads to goes through. */
  ghost predicate CanUnmount(w: World, p: Path) {
    exists q :: Resolve(w.tree, p, KERNEL_LINKS) == Some(q) && MountAt(w.mounts, q) && !NestedAt(w.mounts, q)
  }

  lemma UnmountIs(w: World, p: Path)
    ensures UnmountTop(w, p).Some? <==> CanUnmount(w, p)
    ensures CanUnmount(w, p) ==>
              && Resolve(w.tree, p, KERNEL_LINKS).Some? && UnmountTop(w, p).value.tree == w.tree
              && TakesNewest(w.mounts, UnmountTop(w, p).value.mounts, Resolve(w.tree, p, KERNEL_LINKS).value)
  {
    var to := Resolve(w.tree, p, KERNEL_LINKS);
    if to.Some? {
      MountAtIs(w.mounts, to.value);
      NestedIs(w.mounts, to.value);
      if Mounted(w, to.value) {
        PopTakesNewest(w.mounts, to.value);
      }
    }
  }

  /** A Remove of `p` goes through with the table `ms`. */
  ghost predicate CanRemove(t: Tree, ms: seq<MountEntry>, p: Path) {
    p in t && (forall e | e in ms :: !(p <= e.path)) && forall x | x in t :: !(p < x)
  }

  lemma RemoveIs(w: World, p: Path)
    ensures Remove(w, p) == if CanRemove(w.tree, w.mounts, p) then Some(w.(tree := w.tree - {p})) else None
  {
  }

  /** A Symlink from `link` to `dest` goes through. */
  ghost predicate CanLink(t: Tree, dest: Path, link: Path) {
    dest != [] && link != [] && link !in t && (|link| > 1 ==> link[..|link| - 1] in t && t[link[..|link| - 1]] == Dir)
  }

  lemma SymlinkIs(w: World, dest: Path, link: Path)
    ensures Symlink(w, dest, link) ==
              if CanLink(w.tree, dest, link) then Some(w.(tree := w.tree[link := Link(dest)])) else None
  {
  }

  // Before the lock

  /** A request that names no volume, or not the paths and the capability it needs, is answered InvalidArgument. */
  ghost predicate Complete(call: Call) {
    && call.volume != ""
    && (call.kind != Unpublish ==> call.staging != [])
    && (call.kind == Unpublish ==> call.target != [])
    && (call.kind == Stage || call.kind == Publish ==>
          call.cap.Some? && call.cap.value.mode.Some? && call.cap.value.access != NoAccess)
  }

  lemma RefusedBeforeLock(m: Manager, q: Request, w: World)
    requires PreLock(q.call, q.env).Some?
    ensures Serve(m, q, w) == Completion(w, Error(PreLock(q.call, q.env).value), [])
    ensures !Complete(q.call) ==> PreLock(q.call, q.env) == Some(InvalidArgument)
    ensures Complete(q.call) ==> q.call.kind == Stage || q.call.kind == Publish
    ensures Complete(q.call) && q.env.validate.Some? ==>
              PreLock(q.call, q.env) == Some(
                if q.call.kind == Stage && q.env.validate.value.StatusError? then q.env.validate.value.code
                else InvalidArgument)
    ensures Complete(q.call) && q.env.validate.None? ==>
              && PreLock(q.call, q.env) == Some(FailedPrecondition)
              && (q.env.stat != StatDir || (q.call.kind == Publish && q.call.target == []))
  {
  }

  lemma AdmittedIff(q: Request)
    ensures PreLock(q.call, q.env) == None <==>
              && Complete(q.call)
              && (q.call.kind == Stage || q.call.kind == Publish ==> q.env.validate == None && q.env.stat == StatDir)
              && (q.call.kind == Publish ==> q.call.target != [])
  {
  }

  // Publish

  /** The device that a bind mount of `source` shows. */
  ghost predicate ShowsDevice(w: World, source: Path, backing: string, device: string) {
    exists q :: Resolve(w.tree, source, KERNEL_LINKS) == Some(q) &&
      if MountAt(w.mounts, q) then exists i: nat :: NewestAt(w.mounts, q, i) && device == w.mounts[i].device
      else device == backing
  }

  lemma BindShows(w: World, source: Path, backing: string)
    requires Resolve(w.tree, source, KERNEL_LINKS).Some?
    ensures BindDevice(w, source, backing).Some?
    ensures ShowsDevice(w, source, backing, BindDevice(w, source, backing).value)
  {
    var q := Resolve(w.tree, source, KERNEL_LINKS).value;
    MountAtIs(w.mounts, q);
    if MountAt(w.mounts, q) {
      var i := NewestExists(w.mounts, q);
      NewestIs(w.mounts, q, i);
    }
  }

  /** The line a mount-access publish adds. */
  ghost predicate BindLine(q: Request, w: World, e: MountEntry) {
    && ShowsDevice(w, q.call.staging, q.env.backing, e.device)
    && Resolve(w.tree, q.call.target, KERNEL_LINKS) == Some(e.path)
    && e.fsType == "" && e.options == (if q.call.readOnly then ["bind", "ro"] else ["bind"]) && e.sensitive == []
  }

  lemma BindIs(q: Request, w: World)
    requires DirAt(w, q.call.staging)
    ensures var b := Bind(w, q.call.staging, q.call.target, q.call.readOnly, q.env.backing);
            && (b.Some? <==> DirAt(w, q.call.target))
            && (b.Some? ==>
                  && b.value.tree == w.tree && |b.value.mounts| == |w.mounts| + 1 && w.mounts <= b.value.mounts
                  && BindLine(q, w, b.value.mounts[|w.mounts|]))
  {
    BindShows(w, q.call.staging, q.env.backing);
  }

  /** Every answer of a mount-access publish. */
  lemma PublishAnswers(m: Manager, q: Request, w: World)
    requires MountAccessPublish(q) && PreLock(q.call, q.env) == None
    ensures var c := Serve(m, q, w);
            if SaysMounted(w, q.call.target, q.env.check) then c == Completion(w, Ok, [])
            else if AtStatStaging in q.env.fails || !DirAt(w, q.call.staging) then
              c == Completion(w, Error(FailedPrecondition), [])
            else if AtMount in q.env.fails || !DirAt(w, q.call.target) then c == Completion(w, Error(Internal), [])
            else
              && c.reply == Ok && c.w.tree == w.tree && |c.w.mounts| == |w.mounts| + 1 && w.mounts <= c.w.mounts
              && BindLine(q, w, c.w.mounts[|w.mounts|]) && c.log == [DidMount(c.w.mounts[|w.mounts|])]
  {
    CheckSays(w, q.call.target, q.env.check);
    Advance(m, q.call, q.env, InPublish(PublishCheckPc), [], w);
    if !SaysMounted(w, q.call.target, q.env.check) {
      PublishTries(m, q, w);
    }
  }

  lemma PublishTries(m: Manager, q: Request, w: World)
    requires MountAccessPublish(q)
    ensures var c := Finish(m, q.call, q.env, Active(InPublish(PublishStatStagingPc)), [], w);
            if AtStatStaging in q.env.fails || !DirAt(w, q.call.staging) then
              c == Completion(w, Error(FailedPrecondition), [])
            else if AtMount in q.env.fails || !DirAt(w, q.call.target) then c == Completion(w, Error(Internal), [])
            else
              && c.reply == Ok && c.w.tree == w.tree && |c.w.mounts| == |w.mounts| + 1 && w.mounts <= c.w.mounts
              && BindLine(q, w, c.w.mounts[|w.mounts|]) && c.log == [DidMount(c.w.mounts[|w.mounts|])]
  {
    Advance(m, q.call, q.env, InPublish(PublishStatStagingPc), [], w);
    if DirAt(w, q.call.staging) {
      BindIs(q, w);
      Advance(m, q.call, q.env, InPublish(BindPc), [], w);
    }
  }

  /** The options a published volume is mounted with: a read-only publish is bound read-only, and no other one is. */
  lemma PublishedOptions(m: Manager, q: Request, w: World)
    requires MountAccessPublish(q)
    requires Serve(m, q, w).reply == Ok && !SaysMounted(w, q.call.target, q.env.check)
    ensures |Serve(m, q, w).w.mounts| == |w.mounts| + 1
    ensures var e := Serve(m, q, w).w.mounts[|w.mounts|];
            && Resolve(w.tree, q.call.target, KERNEL_LINKS) == Some(e.path)
            && "bind" in e.options && ("ro" in e.options <==> q.call.readOnly)
            && forall o | o in e.options :: o == "bind" || o == "ro"
  {
    if PreLock(q.call, q.env) == None {
      PublishAnswers(m, q, w);
    }
  }

  /** Every answer of a block-access publish. */
  lemma BlockPublishAnswers(m: Manager, q: Request, w: World)
    requires q.call.kind == Publish && PreLock(q.call, q.env) == None && AccessOf(q.call).BlockAccess?
    ensures var c, d := Serve(m, q, w), Resolve(w.tree, q.call.staging, EVAL_LINKS);
            if AtEval in q.env.fails || d.None? || AtStat in q.env.fails then c == Completion(w, Error(Unknown), [])
            else if AtSymlink in q.env.fails || d.value !in w.tree || w.tree[d.value] != Device(0x400_0000) ||
                    !CanLink(w.tree, d.value, q.call.target) then c == Completion(w, Error(Internal), [])
            else c == Completion(w.(tree := w.tree[q.call.target := Link(d.value)]), Ok, [])
  {
    var none: seq<Effect> := [];
    assert none + none == none;
    Advance(m, q.call, q.env, InPublish(PublishEvalPc), none, w);
    var d := Resolve(w.tree, q.call.staging, EVAL_LINKS);
    if AtEval !in q.env.fails && d.Some? {
      ResolveEnds(w.tree, q.call.staging, EVAL_LINKS);
      Advance(m, q.call, q.env, InPublish(PublishStatPc(d.value)), none, w);
      var device := if IsBareDevice(w, d.value) then d.value else [];
      SymlinkIs(w, device, q.call.target);
      Advance(m, q.call, q.env, InPublish(PublishLinkPc(device)), none, w);
    }
  }

  // Unpublish

  /** Every answer of an unpublish. */
  lemma UnpublishAnswers(m: Manager, q: Request, w: World)
    requires q.call.kind == Unpublish && q.call.volume != "" && q.call.target != []
    ensures var c := Serve(m, q, w);
            if AtUnmount in q.env.fails || !CanUnmount(w, q.call.target) then c == Completion(w, Error(Internal), [])
            else
              var to := Resolve(w.tree, q.call.target, KERNEL_LINKS);
              && to.Some? && TakesNewest(w.mounts, c.w.mounts, to.value) && c.log == [DidUnmount(to.value)]
              && if AtRemove in q.env.fails || !CanRemove(w.tree, c.w.mounts, q.call.target)
                 then c.reply == Error(Internal) && c.w.tree == w.tree
                 else c.reply == Ok && c.w.tree == w.tree - {q.call.target}
  {
    UnmountIs(w, q.call.target);
    Advance(m, q.call, q.env, InUnpublish(UnpublishUnmountPc), [], w);
    if AtUnmount !in q.env.fails && CanUnmount(w, q.call.target) {
      var w', log := UnmountTop(w, q.call.target).value, UnmountEffect(w, q.call.target);
      RemoveIs(w', q.call.target);
      assert [] + log == log && log + [] == log;
      Advance(m, q.call, q.env, InUnpublish(UnpublishRemovePc), log, w');
    }
  }

  // Unstage

  /** The device of the oldest mount at `p`, or the empty string. */
  ghost predicate OldestDevice(ms: seq<MountEntry>, p: Path, device: string) {
    if MountAt(ms, p) then exists i: nat :: OldestAt(ms, p, i) && device == ms[i].device else device == ""
  }

  lemma {:induction false} OldestExists(ms: seq<MountEntry>, p: Path) returns (i: nat)
    requires MountAt(ms, p)
    ensures OldestAt(ms, p, i)
  {
    var n := |ms| - 1;
    if MountAt(ms[..n], p) {
      i := OldestExists(ms[..n], p);
      assert forall j | 0 <= j < i :: ms[j] == ms[..n][j];
    } else {
      i := n;
      forall j | 0 <= j < n ensures ms[j].path != p {
        assert ms[j] in ms[..n];
      }
    }
  }

  lemma FirstDeviceIs(ms: seq<MountEntry>, p: Path)
    ensures forall d :: OldestDevice(ms, p, d) <==> d == FirstDevice(ms, p)
  {
    MountAtIs(ms, p);
    if MountAt(ms, p) {
      var i := OldestExists(ms, p);
      OldestIs(ms, p, i);
      forall j: nat | OldestAt(ms, p, j) ensures j == i {}
    }
  }

  /** The outcome of DetachBlock as the caller gets it: an error that is a status keeps its code. */
  ghost predicate DetachReply(env: Env, reply: Reply) {
    && (env.detachError == None ==> reply == Ok)
    && (env.detachError == Some(PlainError) ==> reply == Error(Unknown))
    && forall code | env.detachError == Some(StatusError(code)) :: reply == Error(code)
  }

  /** What is left to do once the staging path is unmounted or deleted. */
  ghost predicate Released(m: Manager, env: Env, source: string, done: seq<Effect>, c: Completion) {
    if m.block then c.log == done + [Detached(source)] && DetachReply(env, c.reply)
    else c.log == done && c.reply == Ok
  }

  lemma ReleaseIs(m: Manager, q: Request, w: World, source: string, done: seq<Effect>)
    requires q.call.kind == Unstage
    ensures InFlight(AfterUnstage(m, source))
    ensures var c := Finish(m, q.call, q.env, AfterUnstage(m, source), done, w);
            c.w == w && Released(m, q.env, source, done, c)
  {
    if m.block {
      Advance(m, q.call, q.env, InUnstage(DetachPc(source)), done, w);
    }
  }

  /** An unstage that names what it needs. */
  ghost predicate UnstageOf(q: Request) {
    q.call.kind == Unstage && q.call.volume != "" && q.call.staging != []
  }

  /** The staging path leads to `d`, and the questions about it are answered. */
  ghost predicate Looked(q: Request, w: World, d: Path) {
    && AtEval !in q.env.fails && AtStat !in q.env.fails
    && Resolve(w.tree, q.call.staging, EVAL_LINKS) == Some(d)
  }

  /** The staging path cannot be looked at. */
  lemma UnstageBlind(m: Manager, q: Request, w: World)
    requires UnstageOf(q) && forall d :: !Looked(q, w, d)
    ensures Serve(m, q, w) == Completion(w, Error(Unknown), [])
  {
    var none: seq<Effect> := [];
    assert none + none == none;
    Advance(m, q.call, q.env, InUnstage(UnstageEvalPc), none, w);
    var d := Resolve(w.tree, q.call.staging, EVAL_LINKS);
    if d.Some? && AtEval !in q.env.fails {
      assert !Looked(q, w, d.value);
      Advance(m, q.call, q.env, InUnstage(UnstageStatPc(d.value)), none, w);
    }
  }

  lemma UnstageSees(m: Manager, q: Request, w: World, d: Path)
    requires UnstageOf(q) && Looked(q, w, d)
    ensures d in w.tree && !w.tree[d].Link? && Resolve(w.tree, d, KERNEL_LINKS) == Some(d)
    ensures Serve(m, q, w) ==
              Finish(m, q.call, q.env, Active(InUnstage(if IsBareDevice(w, d) then UnstageRemovePc
                else UnstageEvalAgainPc)),
                     [], w)
  {
    ResolveEnds(w.tree, q.call.staging, EVAL_LINKS);
    var next := if IsBareDevice(w, d) then UnstageRemovePc else UnstageEvalAgainPc;
    Looks(m, q.call, q.env, InUnstage(UnstageEvalPc), InUnstage(UnstageStatPc(d)), w);
    Looks(m, q.call, q.env, InUnstage(UnstageStatPc(d)), InUnstage(next), w);
  }

  /** It leads to a device whose mode is the device bit alone: the path is removed, and nothing is detached. */
  lemma UnstageDevice(m: Manager, q: Request, w: World, d: Path)
    requires UnstageOf(q) && Looked(q, w, d) && d != [] && Lookup(w.tree, d) == Some(Device(0x400_0000))
    ensures Serve(m, q, w) ==
              if AtRemove in q.env.fails || !CanRemove(w.tree, w.mounts, q.call.staging)
              then Completion(w, Error(Unknown), [])
              else Completion(w.(tree := w.tree - {q.call.staging}), Ok, [])
  {
    UnstageSees(m, q, w, d);
    RemoveIs(w, q.call.staging);
    Advance(m, q.call, q.env, InUnstage(UnstageRemovePc), [], w);
  }

  /** It leads to anything else, a device with permission bits included. */
  ghost predicate NotDevice(w: World, d: Path) {
    d == [] || Lookup(w.tree, d) != Some(Device(0x400_0000))
  }

  /** The mount-point check or the mount list gives no answer. */
  lemma UnstageUnsure(m: Manager, q: Request, w: World, d: Path)
    requires UnstageOf(q) && Looked(q, w, d) && NotDevice(w, d)
    requires || AtEvalAgain in q.env.fails
             || (!SaysMounted(w, d, q.env.check) && !SaysFree(w, d, q.env.check))
             || (SaysMounted(w, d, q.env.check) && AtList in q.env.fails)
    ensures Serve(m, q, w) == Completion(w, Error(Unknown), [])
  {
    UnstageSees(m, q, w, d);
    CheckSays(w, d, q.env.check);
    Advance(m, q.call, q.env, InUnstage(UnstageEvalAgainPc), [], w);
    if AtEvalAgain !in q.env.fails {
      Looks(m, q.call, q.env, InUnstage(UnstageEvalAgainPc), InUnstage(UnstageCheckPc(d)), w);
      Advance(m, q.call, q.env, InUnstage(UnstageCheckPc(d)), [], w);
      if SaysMounted(w, d, q.env.check) {
        Looks(m, q.call, q.env, InUnstage(UnstageCheckPc(d)), InUnstage(UnstageListPc(d)), w);
        Advance(m, q.call, q.env, InUnstage(UnstageListPc(d)), [], w);
      }
    }
  }

  /**
   * What the questions about mounts come to: `source` is the device to unmount, empty when there is nothing to unmount.
   */
  ghost predicate Decided(q: Request, w: World, d: Path, source: string) {
    && AtEvalAgain !in q.env.fails
    && if SaysFree(w, d, q.env.check) then source == ""
       else SaysMounted(w, d, q.env.check) && AtList !in q.env.fails && OldestDevice(w.mounts, d, source)
  }

  lemma UnstageDecides(m: Manager, q: Request, w: World, d: Path, source: string)
    requires UnstageOf(q) && Looked(q, w, d) && NotDevice(w, d) && Decided(q, w, d, source)
    ensures var pc := if source != "" then UnstageUnmountPc(source) else RemoveAllPc;
            Serve(m, q, w) == Finish(m, q.call, q.env, Active(InUnstage(pc)), [], w)
  {
    UnstageSees(m, q, w, d);
    CheckSays(w, d, q.env.check);
    Looks(m, q.call, q.env, InUnstage(UnstageEvalAgainPc), InUnstage(UnstageCheckPc(d)), w);
    if SaysFree(w, d, q.env.check) {
      Looks(m, q.call, q.env, InUnstage(UnstageCheckPc(d)), InUnstage(RemoveAllPc), w);
    } else {
      FirstDeviceIs(w.mounts, d);
      var pc := if source != "" then UnstageUnmountPc(source) else RemoveAllPc;
      Looks(m, q.call, q.env, InUnstage(UnstageCheckPc(d)), InUnstage(UnstageListPc(d)), w);
      Looks(m, q.call, q.env, InUnstage(UnstageListPc(d)), InUnstage(pc), w);
    }
  }

  /** A mount with a device was found: it is unmounted, then that device is detached, and each failure is reported. */
  lemma UnstageUnmounts(m: Manager, q: Request, w: World, d: Path, source: string)
    requires UnstageOf(q) && Looked(q, w, d) && NotDevice(w, d) && Decided(q, w, d, source) && source != ""
    ensures var c := Serve(m, q, w);
            if AtUnmount in q.env.fails || !CanUnmount(w, q.call.staging) then c == Completion(w, Error(Unknown), [])
            else
              var to := Resolve(w.tree, q.call.staging, KERNEL_LINKS);
              && to.Some? && c.w.tree == w.tree && TakesNewest(w.mounts, c.w.mounts, to.value)
              && Released(m, q.env, source, [DidUnmount(to.value)], c)
  {
    UnstageDecides(m, q, w, d, source);
    UnmountIs(w, q.call.staging);
    Advance(m, q.call, q.env, InUnstage(UnstageUnmountPc(source)), [], w);
    if AtUnmount !in q.env.fails && CanUnmount(w, q.call.staging) {
      var log := UnmountEffect(w, q.call.staging);
      assert [] + log == log;
      ReleaseIs(m, q, UnmountTop(w, q.call.staging).value, source, log);
    }
  }

  /** What RemoveAll of `p` leaves: what a mount keeps in place or hides. */
  ghost predicate Spared(ms: seq<MountEntry>, p: Path, x: Path) {
    !(p <= x) || (exists e :: e in ms && x <= e.path) || (exists e :: e in ms && p <= e.path && e.path <= x)
  }

  lemma RemoveAllIs(w: World, p: Path)
    ensures var (w', ok) := RemoveAll(w, p);
            && w'.mounts == w.mounts && (ok <==> forall e | e in w.mounts :: !(p <= e.path))
            && forall x :: Lookup(w'.tree, x) == if Spared(w.mounts, p, x) then Lookup(w.tree, x) else None
  {
    forall x ensures Deletable(w, p, x) <==> !Spared(w.mounts, p, x) {}
  }

  /** The world that RemoveAll of `p` leaves. */
  ghost predicate DeletedBelow(w: World, w': World, p: Path) {
    && w'.mounts == w.mounts
    && forall x :: Lookup(w'.tree, x) == if Spared(w.mounts, p, x) then Lookup(w.tree, x) else None
  }

  lemma RemoveAllStep(m: Manager, q: Request, w: World)
    requires q.call.kind == Unstage && AtRemoveAll !in q.env.fails
    ensures var c, log := Finish(m, q.call, q.env, Active(InUnstage(RemoveAllPc)), [], w),
            [DidRemoveAll(q.call.staging)];
            && c.w == RemoveAll(w, q.call.staging).0
            && if RemoveAll(w, q.call.staging).1 then Released(m, q.env, "", log, c)
               else c.reply == Error(Unknown) && c.log == log
  {
    Advance(m, q.call, q.env, InUnstage(RemoveAllPc), [], w);
    var log := [DidRemoveAll(q.call.staging)];
    assert [] + log == log;
    ReleaseIs(m, q, RemoveAll(w, q.call.staging).0, "", log);
  }

  /** None was found: everything below the staging path goes, then the empty path is detached. */
  lemma UnstageDeletes(m: Manager, q: Request, w: World, d: Path)
    requires UnstageOf(q) && Looked(q, w, d) && NotDevice(w, d) && Decided(q, w, d, "")
    ensures var c, p := Serve(m, q, w), q.call.staging;
            if AtRemoveAll in q.env.fails then c == Completion(w, Error(Unknown), [])
            else
              && DeletedBelow(w, c.w, p)
              && if exists e :: e in w.mounts && p <= e.path then c.reply == Error(Unknown) &&
                   c.log == [DidRemoveAll(p)]
                 else Released(m, q.env, "", [DidRemoveAll(p)], c)
  {
    UnstageDecides(m, q, w, d, "");
    if AtRemoveAll in q.env.fails {
      Advance(m, q.call, q.env, InUnstage(RemoveAllPc), [], w);
    } else {
      RemoveAllStep(m, q, w);
      RemoveAllIs(w, q.call.staging);
    }
  }

  /** No request falls between these cases. */
  lemma UnstageCases(q: Request, w: World, d: Path)
    requires UnstageOf(q) && Looked(q, w, d) && NotDevice(w, d)
    ensures || (exists source :: Decided(q, w, d, source))
            || AtEvalAgain in q.env.fails
            || (!SaysMounted(w, d, q.env.check) && !SaysFree(w, d, q.env.check))
            || (SaysMounted(w, d, q.env.check) && AtList in q.env.fails)
  {
    FirstDeviceIs(w.mounts, d);
    if SaysFree(w, d, q.env.check) && AtEvalAgain !in q.env.fails {
      assert Decided(q, w, d, "");
    } else if SaysMounted(w, d, q.env.check) && AtEvalAgain !in q.env.fails && AtList !in q.env.fails {
      assert Decided(q, w, d, FirstDevice(w.mounts, d));
    }
  }

  /** How DetachBlock turns out changes the answer of an unstage that got that far, and nothing else. */
  lemma {:induction false} DetachDecides(
      m: Manager, call: Call, env: Env, phase: Phase, log: seq<Effect>, w: World)
    requires InFlight(phase) && call.kind == Unstage && (phase.Active? ==> phase.pc.InUnstage?)
    requires forall s :: Detached(s) !in log
    ensures var c, c0 := Finish(m, call, env, phase, log, w), Finish(m, call, env.(detachError := None), phase, log, w);
            && c.w == c0.w && c.log == c0.log
            && if exists s :: Detached(s) in c0.log then c0.reply == Ok && DetachReply(env, c.reply)
               else c.reply == c0.reply
    decreases Rank(phase)
  {
    if phase.Active? {
      var env0 := env.(detachError := None);
      Advance(m, call, env, phase.pc, log, w);
      Advance(m, call, env0, phase.pc, log, w);
      Progress(m, call, env, phase.pc, w);
      if phase.pc.up.DetachPc? {
        assert (log + [Detached(phase.pc.up.source)])[|log|] == Detached(phase.pc.up.source);
      } else {
        UnstageStays(m, call, env, phase.pc.up, w);
        var o := Exec(m, call, env, phase.pc, w);
        DetachDecides(m, call, env, o.phase, log + o.effects, o.w);
      }
    }
  }

  lemma UnstageStays(m: Manager, call: Call, env: Env, pc: UnstagePc, w: World)
    requires !pc.DetachPc?
    ensures var o := ExecUnstage(m, call, env, pc, w);
            && o == ExecUnstage(m, call, env.(detachError := None), pc, w)
            && (o.phase.Active? ==> o.phase.pc.InUnstage?) && forall s :: Detached(s) !in o.effects
  {
  }

  lemma ServesUnstage(m: Manager, q: Request, w: World)
    requires UnstageOf(q)
    ensures Serve(m, q, w) == Finish(m, q.call, q.env, Active(InUnstage(UnstageEvalPc)), [], w)
  {
  }

  /**
   * A failing DetachBlock is always reported: an unstage that called it and answers OK had it succeed. With the failure
   * the answer is that error, and everything else is as without it.
   */
  lemma DetachErrorReported(m: Manager, q: Request, w: World)
    requires UnstageOf(q)
    ensures var c, c0 := Serve(m, q, w), Serve(m, q.(env := q.env.(detachError := None)), w);
            && c.w == c0.w && c.log == c0.log
            && (if exists s :: Detached(s) in c0.log then c0.reply == Ok && DetachReply(q.env, c.reply)
                else c.reply == c0.reply)
            && (c.reply == Ok && (exists s :: Detached(s) in c.log) ==> q.env.detachError == None)
  {
    ServesUnstage(m, q, w);
    ServesUnstage(m, q.(env := q.env.(detachError := None)), w);
    DetachDecides(m, q.call, q.env, Active(InUnstage(UnstageEvalPc)), [], w);
    if q.env.detachError.Some? && q.env.detachError.value.StatusError? {
      assert q.env.detachError == Some(StatusError(q.env.detachError.value.code));
    }
  }

  // Stage

  /** An error of the manager as the caller gets it: a status keeps its code, anything else is Internal. */
  ghost predicate Reported(e: ManagerError, reply: Reply) {
    && (e == PlainError ==> reply == Error(Internal))
    && forall code | e == StatusError(code) :: reply == Error(code)
  }

  /** A stage past its checks, with mount access. */
  ghost predicate MountStageOf(q: Request) {
    && q.call.kind == Stage && PreLock(q.call, q.env) == None
    && q.call.cap.Some? && q.call.cap.value.access.MountAccess?
  }

  /** What is logged of attaching, which only a block manager does. */
  ghost predicate AttachLog(m: Manager, q: Request, log: seq<Effect>) {
    if m.block then q.env.attach.Success? && log == [Attached(q.env.attach.value)] else log == []
  }

  /** A block manager that cannot attach ends the stage, whatever the access. */
  lemma StageAttachFails(m: Manager, q: Request, w: World)
    requires q.call.kind == Stage && PreLock(q.call, q.env) == None && m.block && q.env.attach.Failure?
    ensures var c := Serve(m, q, w); c.w == w && c.log == [] && Reported(q.env.attach.error, c.reply)
  {
    Advance(m, q.call, q.env, InStage(AttachPc), [], w);
  }

  /** Every other answer of a block-access stage. */
  lemma BlockStageAnswers(m: Manager, q: Request, w: World, log: seq<Effect>)
    requires q.call.kind == Stage && PreLock(q.call, q.env) == None && AttachLog(m, q, log)
    requires q.call.cap.Some? && q.call.cap.value.access.BlockAccess?
    ensures var c, p := Serve(m, q, w), q.call.staging;
            if !m.block || q.env.attach.value == [] then c == Completion(w, Error(Unimplemented), log)
            else if AtSymlink in q.env.fails || !CanLink(w.tree, q.env.attach.value, p) then
              c == Completion(w, Error(Internal), log)
            else c == Completion(w.(tree := w.tree[p := Link(q.env.attach.value)]), Ok, log)
  {
    if m.block {
      var d := q.env.attach.value;
      assert [] + log == log && log + [] == log;
      Advance(m, q.call, q.env, InStage(AttachPc), [], w);
      SymlinkIs(w, d, q.call.staging);
      if d != [] {
        Advance(m, q.call, q.env, InStage(StageLinkPc(d)), log, w);
      }
    }
  }

  lemma StageAttached(m: Manager, q: Request, w: World, log: seq<Effect>)
    requires MountStageOf(q) && AttachLog(m, q, log)
    ensures var next := if m.mount then Active(InStage(ManagerMountPc)) else AfterMount(m, false);
            InFlight(next) && Serve(m, q, w) == Finish(m, q.call, q.env, next, log, w)
  {
    if m.block {
      assert [] + log == log;
      Advance(m, q.call, q.env, InStage(AttachPc), [], w);
    }
  }

  /** How a stage ends whose manager may still have files to add. */
  ghost predicate Filled(m: Manager, q: Request, w: World, mounted: bool, log: seq<Effect>, c: Completion) {
    if m.populate then
      && c.w.mounts == w.mounts
      && (forall x :: Lookup(c.w.tree, x) == if Fills(w, q, x) then Some(q.env.populated[x]) else Lookup(w.tree, x))
      && c.log == log + [Populated(q.call.staging, q.env.populateError == None)]
      && (q.env.populateError == None ==> c.reply == Ok)
      && (q.env.populateError.Some? ==> Reported(q.env.populateError.value, c.reply))
    else c == Completion(w, if mounted then Ok else Error(Unimplemented), log)
  }

  /** The manager's files go below the directory that staging leads to; under a mount they are out of sight. */
  ghost predicate Fills(w: World, q: Request, x: Path) {
    x in q.env.populated && exists to ::
      && Resolve(w.tree, q.call.staging, KERNEL_LINKS) == Some(to) && Lookup(w.tree, to) == Some(Dir)
      && !MountAt(w.mounts, to) && to < x
  }

  lemma FillIs(m: Manager, q: Request, w: World, mounted: bool, log: seq<Effect>)
    requires q.call.kind == Stage
    ensures InFlight(AfterMount(m, mounted))
    ensures Filled(m, q, w, mounted, log, Finish(m, q.call, q.env, AfterMount(m, mounted), log, w))
  {
    if m.populate {
      var to := Resolve(w.tree, q.call.staging, KERNEL_LINKS);
      if to.Some? {
        MountAtIs(w.mounts, to.value);
      }
      Advance(m, q.call, q.env, InStage(PopulatePc), log, w);
    }
  }

  /** A manager that mounts nothing, by not implementing it or by answering nil. */
  lemma StageFills(m: Manager, q: Request, w: World, log: seq<Effect>)
    requires MountStageOf(q) && AttachLog(m, q, log) && (m.mount ==> q.env.response == Success(None))
    ensures Filled(m, q, w, false, log, Serve(m, q, w))
  {
    StageAttached(m, q, w, log);
    FillIs(m, q, w, false, log);
    if m.mount {
      assert log + [] == log;
      Advance(m, q.call, q.env, InStage(ManagerMountPc), log, w);
    }
  }

  /** A manager whose own Mount call fails. */
  lemma StageMountFails(m: Manager, q: Request, w: World, log: seq<Effect>)
    requires MountStageOf(q) && AttachLog(m, q, log) && m.mount && q.env.response.Failure?
    ensures var c := Serve(m, q, w); c.w == w && c.log == log && Reported(q.env.response.error, c.reply)
  {
    StageAttached(m, q, w, log);
    assert log + [] == log;
    Advance(m, q.call, q.env, InStage(ManagerMountPc), log, w);
  }

  /** The request asks for xfs, or leaves the choice to a manager that names xfs. */
  predicate AsksXfs(access: Access, r: MountResponse) {
    access.MountAccess? && (access.fsType == "xfs" || (access.fsType == "" && r.fsType == "xfs"))
  }

  /** All plain options in the order they are considered, the manager's last. */
  ghost predicate Wanted(cap: Capability, r: MountResponse, own: seq<string>) {
    && cap.access.MountAccess?
    && own == cap.access.flags
              + (if AsksXfs(cap.access, r) then ["nouuid"] else [])
              + (if cap.mode == Some(MultiNodeReaderOnly) || cap.mode == Some(SingleNodeReaderOnly) then ["ro"] else [])
  }

  /** The line a stage adds for the manager's answer `r`. */
  ghost predicate StageLine(q: Request, r: MountResponse, e: MountEntry) {
    && e.device == r.source && q.call.cap.Some? && q.call.cap.value.access.MountAccess?
    && e.fsType == (if r.format then r.fsType
                    else if q.call.cap.value.access.fsType != "" then q.call.cap.value.access.fsType
                    else if r.fsType != "" then r.fsType else "ext4")
    && exists own :: Wanted(q.call.cap.value, r, own)
         && MountOptions.FirstOccurrences(e.options, own + r.options)
         && exists at :: MountOptions.Remainder(e.sensitive, r.sensitive, own, at)
  }

  /** What is plain before the merge, as the option assembly considers it. */
  function Own(cap: Capability, r: MountResponse): seq<string>
    requires cap.access.MountAccess?
  {
    cap.access.flags
    + (if AsksXfs(cap.access, r) then ["nouuid"] else [])
    + (if cap.mode == Some(MultiNodeReaderOnly) || cap.mode == Some(SingleNodeReaderOnly) then ["ro"] else [])
  }

  lemma StageSensitiveIs(q: Request, r: MountResponse, path: Path)
    requires q.call.cap.Some? && q.call.cap.value.access.MountAccess?
    ensures var own := Own(q.call.cap.value, r);
            exists at :: MountOptions.Remainder(StageEntry(q.call, r, path).sensitive, r.sensitive, own, at)
  {
    var cap := q.call.cap.value;
    var fsType := MountOptions.ResolveFsType(cap.access.fsType, r.fsType);
    var base := MountOptions.BaseOptions(cap.access.flags, fsType, ReaderOnly(q.call));
    MountOptions.BaseMembers(cap.access.flags, fsType, ReaderOnly(q.call));
    assert forall x :: x in base <==> x in Own(cap, r);
    var at := MountOptions.SensitiveOptions(r.sensitive, base);
    assert MountOptions.Remainder(StageEntry(q.call, r, path).sensitive, r.sensitive, Own(cap, r), at);
  }

  lemma StageOptionsAre(q: Request, r: MountResponse, path: Path)
    requires q.call.cap.Some? && q.call.cap.value.access.MountAccess?
    ensures MountOptions.FirstOccurrences(StageEntry(q.call, r, path).options, Own(q.call.cap.value, r) + r.options)
  {
    var cap := q.call.cap.value;
    var fsType := MountOptions.ResolveFsType(cap.access.fsType, r.fsType);
    MountOptions.MergedOptions(cap.access.flags, fsType, ReaderOnly(q.call), r.options);
    assert MountOptions.Considered(cap.access.flags, fsType, ReaderOnly(q.call), r.options) == Own(cap, r) + r.options;
  }

  lemma StageEntryIs(q: Request, r: MountResponse, path: Path)
    requires q.call.cap.Some? && q.call.cap.value.access.MountAccess?
    ensures StageLine(q, r, StageEntry(q.call, r, path)) && StageEntry(q.call, r, path).path == path
  {
    assert Wanted(q.call.cap.value, r, Own(q.call.cap.value, r));
    StageOptionsAre(q, r, path);
    StageSensitiveIs(q, r, path);
  }

  lemma MounterIs(q: Request, w: World, r: MountResponse)
    requires q.call.cap.Some? && q.call.cap.value.access.MountAccess?
    ensures StageMount(w, q.call, r).Some? <==> DirAt(w, q.call.staging)
    ensures DirAt(w, q.call.staging) ==>
              var to := Resolve(w.tree, q.call.staging, KERNEL_LINKS);
              to.Some? && StageMount(w, q.call, r) == Some(w.(mounts := w.mounts + [StageEntry(q.call, r, to.value)]))
  {
  }

  lemma StageMounter(m: Manager, q: Request, w: World, log: seq<Effect>, r: MountResponse)
    requires q.call.kind == Stage && q.call.cap.Some? && q.call.cap.value.access.MountAccess?
    ensures var c := Finish(m, q.call, q.env, Active(InStage(MounterPc(r))), log, w);
            if AtMount in q.env.fails || !DirAt(w, q.call.staging) then c == Completion(w, Error(Internal), log)
            else exists e ::
              && StageLine(q, r, e) && Resolve(w.tree, q.call.staging, KERNEL_LINKS) == Some(e.path)
              && Filled(m, q, w.(mounts := w.mounts + [e]), true, log + [DidMount(e)], c)
  {
    assert log + [] == log;
    MounterIs(q, w, r);
    Advance(m, q.call, q.env, InStage(MounterPc(r)), log, w);
    if AtMount !in q.env.fails && DirAt(w, q.call.staging) {
      var to := Resolve(w.tree, q.call.staging, KERNEL_LINKS).value;
      var e := StageEntry(q.call, r, to);
      StageEntryIs(q, r, to);
      FillIs(m, q, w.(mounts := w.mounts + [e]), true, log + [DidMount(e)]);
    }
  }

  /** A manager that answers with something to mount. */
  lemma StageMounts(m: Manager, q: Request, w: World, log: seq<Effect>, r: MountResponse)
    requires MountStageOf(q) && AttachLog(m, q, log) && m.mount && q.env.response == Success(Some(r))
    ensures var c := Serve(m, q, w);
            if AtMount in q.env.fails || !DirAt(w, q.call.staging) then c == Completion(w, Error(Internal), log)
            else exists e ::
              && StageLine(q, r, e) && Resolve(w.tree, q.call.staging, KERNEL_LINKS) == Some(e.path)
              && Filled(m, q, w.(mounts := w.mounts + [e]), true, log + [DidMount(e)], c)
  {
    StageAttached(m, q, w, log);
    assert log + [] == log;
    Advance(m, q.call, q.env, InStage(ManagerMountPc), log, w);
    StageMounter(m, q, w, log, r);
  }

  /** What a successfully staged volume is mounted with, and that its manager's Populate has been called as well. */
  lemma StagedOptions(m: Manager, q: Request, w: World, r: MountResponse)
    requires q.call.kind == Stage && q.call.cap.Some? && q.call.cap.value.access.MountAccess?
    requires m.mount && q.env.response == Success(Some(r)) && Serve(m, q, w).reply == Ok
    ensures var c := Serve(m, q, w);
            && |c.w.mounts| == |w.mounts| + 1 && c.w.mounts[..|w.mounts|] == w.mounts
            && StageLine(q, r, c.w.mounts[|w.mounts|])
            && Resolve(w.tree, q.call.staging, KERNEL_LINKS) == Some(c.w.mounts[|w.mounts|].path)
            && (m.populate ==> Populated(q.call.staging, true) in c.log)
  {
    if m.block && q.env.attach.Failure? {
      if PreLock(q.call, q.env) == None {
        StageAttachFails(m, q, w);
      }
    } else {
      var log := if m.block then [Attached(q.env.attach.value)] else [];
      StageMounts(m, q, w, log, r);
      var e :| StageLine(q, r, e) && Resolve(w.tree, q.call.staging, KERNEL_LINKS) == Some(e.path)
        && Filled(m, q, w.(mounts := w.mounts + [e]), true, log + [DidMount(e)], Serve(m, q, w));
      if m.populate {
        assert Serve(m, q, w).log[|log| + 1] == Populated(q.call.staging, true);
      }
    }
  }
}
