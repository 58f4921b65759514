/** What sequences of whole requests amount to: retries, round trips, stacks. */
module Lifecycle {
  import opened Wrappers
  import opened PathTree
  import opened Kernel
  import opened NodeMachine
  import opened Accounting

  /** How a node answers requests when no other is in flight. */
  type Service = (Request, World) -> Completion

  function ServiceOf(m: Manager): Service {
    (q: Request, w: World) => Serve(m, q, w)
  }

  /** The world after serving requests one after the other. */
  function RunOf(f: Service, qs: seq<Request>, w: World): World {
    if qs == [] then w else RunOf(f, qs[1..], f(qs[0], w).w)
  }

  predicate OkThroughout(f: Service, qs: seq<Request>, w: World) {
    qs == [] || (f(qs[0], w).reply == Ok && OkThroughout(f, qs[1..], f(qs[0], w).w))
  }

  function ServeAll(m: Manager, qs: seq<Request>, w: World): World {
    RunOf(ServiceOf(m), qs, w)
  }

  predicate AllOk(m: Manager, qs: seq<Request>, w: World) {
    OkThroughout(ServiceOf(m), qs, w)
  }

  predicate SomeOk(m: Manager, qs: seq<Request>, w: World) {
    qs != [] && (Serve(m, qs[0], w).reply == Ok || SomeOk(m, qs[1..], Serve(m, qs[0], w).w))
  }

  lemma Advance(m: Manager, call: Call, env: Env, pc: Pc, log: seq<Effect>, w: World)
    ensures var o := Exec(m, call, env, pc, w);
            InFlight(o.phase) && Finish(m, call, env, Active(pc), log, w)
              == Finish(m, call, env, o.phase, log + o.effects, o.w)
  {
    Progress(m, call, env, pc, w);
  }

  lemma {:induction false} MoreHops(t: Tree, p: Path, h: nat, k: nat)
    requires h <= k && Resolve(t, p, h).Some?
    ensures Resolve(t, p, k) == Resolve(t, p, h)
    decreases h
  {
    if p in t && t[p].Link? {
      MoreHops(t, t[p].dest, h - 1, k - 1);
    }
  }

  // Publishing

  predicate MountPublish(q: Request) {
    q.call.kind == Publish && AccessOf(q.call).MountAccess? && q.env.check == Exact
  }

  /** The bind mount a publish asks for, as the table will show it. */
  function BindEntry(q: Request, w: World): MountEntry
    requires BindDevice(w, q.call.staging, q.env.backing).Some? && Resolve(w.tree, q.call.target, KERNEL_LINKS).Some?
  {
    MountEntry(BindDevice(w, q.call.staging, q.env.backing).value,
               Resolve(w.tree, q.call.target, KERNEL_LINKS).value, "", BindOptions(q.call.readOnly), [])
  }

  /** A publish binds a target that is not a mount point, or does nothing. */
  lemma PublishServed(m: Manager, q: Request, w: World)
    requires MountPublish(q)
    ensures var to, c := Resolve(w.tree, q.call.target, KERNEL_LINKS), Serve(m, q, w);
            if to.Some? && Mounted(w, to.value) then c.w == w
            else if c.reply == Ok then
              && to.Some? && BindDevice(w, q.call.staging, q.env.backing).Some?
              && c.w == w.(mounts := w.mounts + [BindEntry(q, w)])
            else c.w == w
    ensures var to := Resolve(w.tree, q.call.target, KERNEL_LINKS);
            to.Some? && Mounted(w, to.value) && PreLock(q.call, q.env) == None ==> Serve(m, q, w).reply == Ok
  {
    if PreLock(q.call, q.env) == None {
      Advance(m, q.call, q.env, InPublish(PublishCheckPc), [], w);
      Advance(m, q.call, q.env, InPublish(PublishStatStagingPc), [], w);
      Advance(m, q.call, q.env, InPublish(BindPc), [], w);
    }
  }

  lemma {:induction false} PublishedStays(m: Manager, qs: seq<Request>, w: World, to: Path)
    requires forall q | q in qs :: MountPublish(q) && Resolve(w.tree, q.call.target, KERNEL_LINKS) == Some(to)
    requires Mounted(w, to)
    ensures ServeAll(m, qs, w) == w
  {
    if qs != [] {
      PublishServed(m, qs[0], w);
      PublishedStays(m, qs[1..], w, to);
    }
  }

  /**
   * However often the same publish is retried and wherever it fails, the world ends as one successful publish would
   * have left it if any attempt answered OK, and untouched otherwise.
   */
  lemma {:induction false} PublishRetry(m: Manager, call: Call, qs: seq<Request>, w: World, to: Path, backing: string)
    requires forall q | q in qs :: q.call == call && MountPublish(q) && q.env.backing == backing
    requires Resolve(w.tree, call.target, KERNEL_LINKS) == Some(to) && !Mounted(w, to)
    ensures ServeAll(m, qs, w) ==
              if SomeOk(m, qs, w) && BindDevice(w, call.staging, backing).Some? then
                w.(mounts := w.mounts + [MountEntry(BindDevice(w, call.staging, backing).value, to, "",
                  BindOptions(call.readOnly), [])])
              else w
    ensures SomeOk(m, qs, w) ==> BindDevice(w, call.staging, backing).Some? && Depth(ServeAll(m, qs, w), to) == 1
  {
    if qs != [] {
      PublishServed(m, qs[0], w);
      if Serve(m, qs[0], w).reply == Ok {
        var e := BindEntry(qs[0], w);
        StackAppend(w.mounts, e, to);
        PublishedStays(m, qs[1..], Serve(m, qs[0], w).w, to);
      } else {
        PublishRetry(m, call, qs[1..], w, to, backing);
      }
    }
  }

  // Publishing whatever the mount-point check says

  predicate MountAccessPublish(q: Request) {
    q.call.kind == Publish && AccessOf(q.call).MountAccess?
  }

  /** The check says that the target is a mount point already. */
  predicate ToldMounted(q: Request, w: World) {
    NotMountPoint(w, q.call.target, q.env.check) == Some(false)
  }

  /** A publish changes the world if and only if it answers OK without having been told so: it adds its bind mount. */
  lemma PublishBindsIff(m: Manager, q: Request, w: World)
    requires MountAccessPublish(q)
    ensures var c := Serve(m, q, w);
            if c.reply == Ok && !ToldMounted(q, w) then
              && Resolve(w.tree, q.call.target, KERNEL_LINKS).Some?
              && BindDevice(w, q.call.staging, q.env.backing).Some?
              && c.w == w.(mounts := w.mounts + [BindEntry(q, w)])
            else c.w == w
    ensures Serve(m, q, w).w.mounts == w.mounts <==> !(Serve(m, q, w).reply == Ok && !ToldMounted(q, w))
  {
    if PreLock(q.call, q.env) == None {
      Advance(m, q.call, q.env, InPublish(PublishCheckPc), [], w);
      Advance(m, q.call, q.env, InPublish(PublishStatStagingPc), [], w);
      Advance(m, q.call, q.env, InPublish(BindPc), [], w);
    }
  }

  /** How many of a series answer OK without having been told that the target is a mount point. */
  function BindsMade(f: Service, qs: seq<Request>, w: World): nat {
    if qs == [] then 0
    else
      var c := f(qs[0], w);
      (if c.reply == Ok && !ToldMounted(qs[0], w) then 1 else 0) + BindsMade(f, qs[1..], c.w)
  }

  ghost predicate BindsWhenUntold(f: Service, to: Path) {
    forall q: Request, w: World | MountAccessPublish(q) && Resolve(w.tree, q.call.target, KERNEL_LINKS) == Some(to) ::
      var w' := f(q, w).w;
      && w'.tree == w.tree
      && if f(q, w).reply == Ok && !ToldMounted(q, w) then
           && |w'.mounts| == |w.mounts| + 1 && w'.mounts[..|w.mounts|] == w.mounts
           && w'.mounts[|w.mounts|].path == to
         else w'.mounts == w.mounts
  }

  lemma ServiceBinds(m: Manager, to: Path)
    ensures BindsWhenUntold(ServiceOf(m), to)
  {
    forall q: Request, w: World | MountAccessPublish(q) && Resolve(w.tree, q.call.target, KERNEL_LINKS) == Some(to)
      ensures var w' := Serve(m, q, w).w;
              && w'.tree == w.tree
              && if Serve(m, q, w).reply == Ok && !ToldMounted(q, w) then
                   && |w'.mounts| == |w.mounts| + 1 && w'.mounts[..|w.mounts|] == w.mounts
                   && w'.mounts[|w.mounts|].path == to
                 else w'.mounts == w.mounts
    {
      PublishBindsIff(m, q, w);
    }
  }

  lemma BindsOne(f: Service, q: Request, w: World, w': World, to: Path)
    requires BindsWhenUntold(f, to) && MountAccessPublish(q) && w' == f(q, w).w
    requires Resolve(w.tree, q.call.target, KERNEL_LINKS) == Some(to)
    ensures var n := if f(q, w).reply == Ok && !ToldMounted(q, w) then 1 else 0;
            && w'.tree == w.tree && w.mounts <= w'.mounts
            && |w'.mounts| == |w.mounts| + n && Depth(w', to) == Depth(w, to) + n
  {
    if |w'.mounts| > |w.mounts| {
      var e := w'.mounts[|w.mounts|];
      assert w'.mounts == w.mounts + [e];
      StackAppend(w.mounts, e, to);
    }
  }

  lemma {:induction false} BindsCount(f: Service, qs: seq<Request>, w: World, to: Path)
    requires BindsWhenUntold(f, to) && forall q | q in qs :: MountAccessPublish(q)
    requires forall q | q in qs :: Resolve(w.tree, q.call.target, KERNEL_LINKS) == Some(to)
    ensures RunOf(f, qs, w).tree == w.tree && w.mounts <= RunOf(f, qs, w).mounts
    ensures |RunOf(f, qs, w).mounts| == |w.mounts| + BindsMade(f, qs, w)
    ensures Depth(RunOf(f, qs, w), to) == Depth(w, to) + BindsMade(f, qs, w)
  {
    if qs != [] {
      var w' := f(qs[0], w).w;
      assert qs[0] in qs;
      BindsOne(f, qs[0], w, w', to);
      BindsCount(f, qs[1..], w', to);
    }
  }

  /**
   * However the checks turn out: a series of publishes on one target stacks as many bind mounts on it as there are
   * answers of OK that were not told of a mount, and leaves the table alone if and only if there is none.
   */
  lemma PublishesAddUp(m: Manager, qs: seq<Request>, w: World, to: Path)
    requires forall q | q in qs :: MountAccessPublish(q)
    requires forall q | q in qs :: Resolve(w.tree, q.call.target, KERNEL_LINKS) == Some(to)
    ensures Depth(ServeAll(m, qs, w), to) == Depth(w, to) + BindsMade(ServiceOf(m), qs, w)
    ensures ServeAll(m, qs, w).mounts == w.mounts <==> BindsMade(ServiceOf(m), qs, w) == 0
    ensures ServeAll(m, qs, w).tree == w.tree && w.mounts <= ServeAll(m, qs, w).mounts
  {
    ServiceBinds(m, to);
    BindsCount(ServiceOf(m), qs, w, to);
  }

  // Staging

  /** A stage with mount access. */
  predicate MountAccessStage(q: Request) {
    q.call.kind == Stage && AccessOf(q.call).MountAccess?
  }

  /** The manager answers this stage with something to mount. */
  predicate Mounting(m: Manager, q: Request) {
    m.mount && q.env.response.Success? && q.env.response.value.Some?
  }

  /** What a successful mount stage leaves: one more mount on the directory that staging leads to. */
  lemma StageServed(m: Manager, q: Request, w: World)
    requires MountAccessStage(q) && Mounting(m, q)
    requires Serve(m, q, w).reply == Ok
    ensures var to := Resolve(w.tree, q.call.staging, KERNEL_LINKS);
            && to.Some? && Lookup(w.tree, to.value) == Some(Dir)
            && Serve(m, q, w).w == w.(mounts := w.mounts + [StageEntry(q.call, q.env.response.value.value, to.value)])
  {
    var call, env, r := q.call, q.env, q.env.response.value.value;
    var log: seq<Effect> := [];
    if m.block {
      Advance(m, call, env, InStage(AttachPc), log, w);
      log := log + Exec(m, call, env, InStage(AttachPc), w).effects;
    }
    Advance(m, call, env, InStage(ManagerMountPc), log, w);
    assert log + [] == log;
    Advance(m, call, env, InStage(MounterPc(r)), log, w);
    var w' := StageMount(w, call, r);
    if w'.Some? && AtMount !in env.fails {
      log := log + MountEffect(w'.value);
      if m.populate {
        Advance(m, call, env, InStage(PopulatePc), log, w'.value);
        var to := Resolve(w.tree, call.staging, KERNEL_LINKS).value;
        StackAppend(w.mounts, StageEntry(call, r, to), to);
      }
    }
  }

  /** What any other successful stage leaves: the manager's files below the staging directory. */
  lemma PopulateServed(m: Manager, q: Request, w: World)
    requires MountAccessStage(q) && !Mounting(m, q)
    requires Serve(m, q, w).reply == Ok
    ensures m.populate && Serve(m, q, w).w == Fill(w, q.call.staging, q.env.populated)
  {
    var log: seq<Effect> := [];
    if m.block {
      Advance(m, q.call, q.env, InStage(AttachPc), log, w);
      log := log + Exec(m, q.call, q.env, InStage(AttachPc), w).effects;
    }
    if m.mount {
      Advance(m, q.call, q.env, InStage(ManagerMountPc), log, w);
      assert log + [] == log;
    }
    if m.populate {
      Advance(m, q.call, q.env, InStage(PopulatePc), log, w);
    }
  }

  /** A successful stage leaves the mount table alone if and only if the manager offered nothing to mount. */
  lemma StageMountsIff(m: Manager, q: Request, w: World)
    requires MountAccessStage(q) && Serve(m, q, w).reply == Ok
    ensures Serve(m, q, w).w.mounts == w.mounts <==> !Mounting(m, q)
    ensures w.mounts <= Serve(m, q, w).w.mounts
    ensures |Serve(m, q, w).w.mounts| == |w.mounts| + if Mounting(m, q) then 1 else 0
  {
    if Mounting(m, q) {
      StageServed(m, q, w);
    } else {
      PopulateServed(m, q, w);
    }
  }

  /** How many of a series of stages the manager answers with something to mount. */
  function Mountings(m: Manager, qs: seq<Request>): nat {
    if qs == [] then 0 else (if Mounting(m, qs[0]) then 1 else 0) + Mountings(m, qs[1..])
  }

  /** A series of successful stages keeps the table and adds just those mounts: none if and only if none was offered. */
  lemma {:induction false} StagesMountIff(m: Manager, qs: seq<Request>, w: World)
    requires (forall q | q in qs :: MountAccessStage(q)) && AllOk(m, qs, w)
    ensures w.mounts <= ServeAll(m, qs, w).mounts
    ensures |ServeAll(m, qs, w).mounts| == |w.mounts| + Mountings(m, qs)
    ensures ServeAll(m, qs, w).mounts == w.mounts <==> forall q | q in qs :: !Mounting(m, q)
  {
    if qs != [] {
      StageMountsIff(m, qs[0], w);
      StagesMountIff(m, qs[1..], Serve(m, qs[0], w).w);
      assert forall q | q in qs :: q == qs[0] || q in qs[1..];
    }
  }

  // Unstaging

  /** An unstage whose checks tell the truth and whose calls do not fail by themselves. */
  predicate CleanUnstage(q: Request) {
    q.call.kind == Unstage && q.call.volume != "" && q.call.staging != [] && q.env.check == Exact &&
      q.env.fails == {} && q.env.detachError == None
  }

  /** A call that changes nothing and leads to another call. */
  lemma Looks(m: Manager, call: Call, env: Env, pc: Pc, next: Pc, w: World)
    requires Exec(m, call, env, pc, w) == Outcome(w, Active(next), [])
    ensures Finish(m, call, env, Active(pc), [], w) == Finish(m, call, env, Active(next), [], w)
  {
    var none: seq<Effect> := [];
    assert none + none == none;
    Advance(m, call, env, pc, none, w);
  }

  /** The first calls of an unstage only look; they lead to the list or straight to RemoveAll. */
  lemma UnstageLooks(m: Manager, q: Request, w: World, to: Path)
    requires CleanUnstage(q) && Resolve(w.tree, q.call.staging, KERNEL_LINKS) == Some(to) && !IsBareDevice(w, to)
    ensures Serve(m, q, w) == Finish(m, q.call, q.env,
            Active(InUnstage(if Mounted(w, to) then UnstageListPc(to) else RemoveAllPc)), [], w)
  {
    MoreHops(w.tree, q.call.staging, KERNEL_LINKS, EVAL_LINKS);
    ResolveEnds(w.tree, q.call.staging, KERNEL_LINKS);
    var next := if Mounted(w, to) then UnstageListPc(to) else RemoveAllPc;
    Looks(m, q.call, q.env, InUnstage(UnstageEvalPc), InUnstage(UnstageStatPc(to)), w);
    Looks(m, q.call, q.env, InUnstage(UnstageStatPc(to)), InUnstage(UnstageEvalAgainPc), w);
    Looks(m, q.call, q.env, InUnstage(UnstageEvalAgainPc), InUnstage(UnstageCheckPc(to)), w);
    Looks(m, q.call, q.env, InUnstage(UnstageCheckPc(to)), InUnstage(next), w);
  }

  /** The last call of an unstage. */
  lemma Detaches(m: Manager, q: Request, w: World, source: string, log: seq<Effect>)
    requires CleanUnstage(q)
    ensures InFlight(AfterUnstage(m, source))
    ensures Finish(m, q.call, q.env, AfterUnstage(m, source), log, w)
         == Completion(w, Ok, log + if m.block then [Detached(source)] else [])
  {
    if m.block {
      Advance(m, q.call, q.env, InUnstage(DetachPc(source)), log, w);
    } else {
      assert log + [] == log;
    }
  }

  /** The second half of such an unstage. */
  lemma UnmountsAndDetaches(m: Manager, q: Request, w: World, to: Path, source: string)
    requires CleanUnstage(q) && Resolve(w.tree, q.call.staging, KERNEL_LINKS) == Some(to) && Mounted(w, to)
    ensures Finish(m, q.call, q.env, Active(InUnstage(UnstageUnmountPc(source))), [], w) ==
              if Pinned(w.mounts, to) then Completion(w, Error(Unknown), [])
              else Completion(w.(mounts := PopTop(w.mounts, to)), Ok,
                              [DidUnmount(to)] + if m.block then [Detached(source)] else [])
  {
    Detaches(m, q, w.(mounts := PopTop(w.mounts, to)), source, [DidUnmount(to)]);
    Advance(m, q.call, q.env, InUnstage(UnstageUnmountPc(source)), [], w);
  }

  /**
   * On a mounted staging path: the newest mount goes, and the device of the oldest is detached. If a mount made inside
   * the newest is still there, nothing happens and the answer is an error.
   */
  lemma UnstageMounted(m: Manager, q: Request, w: World, to: Path)
    requires CleanUnstage(q) && Resolve(w.tree, q.call.staging, KERNEL_LINKS) == Some(to) && !IsBareDevice(w, to)
    requires Mounted(w, to) && FirstDevice(w.mounts, to) != ""
    ensures Serve(m, q, w) ==
              if Pinned(w.mounts, to) then Completion(w, Error(Unknown), [])
              else Completion(w.(mounts := PopTop(w.mounts, to)), Ok,
                              [DidUnmount(to)] + if m.block then [Detached(FirstDevice(w.mounts, to))] else [])
  {
    var source := FirstDevice(w.mounts, to);
    UnstageLooks(m, q, w, to);
    Looks(m, q.call, q.env, InUnstage(UnstageListPc(to)), InUnstage(UnstageUnmountPc(source)), w);
    UnmountsAndDetaches(m, q, w, to, source);
  }

  /**
   * Where nothing is mounted on what staging leads to: everything below the staging path goes that can, and that is all
   * of it, with an answer of OK, if and only if no mount sits at or below that path. Nothing is known to detach.
   */
  lemma UnstagePopulated(m: Manager, q: Request, w: World, to: Path)
    requires CleanUnstage(q) && Resolve(w.tree, q.call.staging, KERNEL_LINKS) == Some(to) && !IsBareDevice(w, to)
    requires !Mounted(w, to)
    ensures Serve(m, q, w).reply == Ok <==> !Busy(w.mounts, q.call.staging)
    ensures Serve(m, q, w).w == RemoveAll(w, q.call.staging).0
    ensures Serve(m, q, w).reply == Ok ==> forall p | q.call.staging <= p :: p !in Serve(m, q, w).w.tree
    ensures Serve(m, q, w).log ==
              [DidRemoveAll(q.call.staging)] + if !Busy(w.mounts, q.call.staging) && m.block then [Detached("")] else []
  {
    var after := RemoveAll(w, q.call.staging).0;
    UnstageLooks(m, q, w, to);
    Advance(m, q.call, q.env, InUnstage(RemoveAllPc), [], w);
    if m.block && !Busy(w.mounts, q.call.staging) {
      Advance(m, q.call, q.env, InUnstage(DetachPc("")), [DidRemoveAll(q.call.staging)], after);
    }
    assert forall p | !Busy(w.mounts, q.call.staging) && q.call.staging <= p :: Deletable(w, q.call.staging, p);
  }

  /** What an unstage of a mounted staging directory does to the world. */
  ghost predicate Unmounts(f: Service, to: Path) {
    forall q: Request, w: World |
      && CleanUnstage(q) && Resolve(w.tree, q.call.staging, KERNEL_LINKS) == Some(to) && !IsBareDevice(w, to)
      && Mounted(w, to) && FirstDevice(w.mounts, to) != "" ::
        && (f(q, w).reply == Ok <==> !Pinned(w.mounts, to))
        && f(q, w).w == if Pinned(w.mounts, to) then w else w.(mounts := PopTop(w.mounts, to))
  }

  lemma ServiceUnmounts(m: Manager, to: Path)
    ensures Unmounts(ServiceOf(m), to)
  {
    forall q: Request, w: World |
      && CleanUnstage(q) && Resolve(w.tree, q.call.staging, KERNEL_LINKS) == Some(to) && !IsBareDevice(w, to)
      && Mounted(w, to) && FirstDevice(w.mounts, to) != ""
      ensures Serve(m, q, w).reply == Ok <==> !Pinned(w.mounts, to)
      ensures Serve(m, q, w).w == if Pinned(w.mounts, to) then w else w.(mounts := PopTop(w.mounts, to))
    {
      UnstageMounted(m, q, w, to);
    }
  }

  lemma DrainsOne(f: Service, q: Request, w: World, w': World, to: Path, n: nat)
    requires Unmounts(f, to) && CleanUnstage(q) && w' == f(q, w).w
    requires Resolve(w.tree, q.call.staging, KERNEL_LINKS) == Some(to) && !IsBareDevice(w, to)
    requires StackAt(w.mounts, to) != [] && forall e | e in StackAt(w.mounts, to) :: e.device != ""
    ensures f(q, w).reply == Ok <==> !Pinned(w.mounts, to)
    ensures PinnedWithin(w.mounts, to, n + 1) <==> Pinned(w.mounts, to) || PinnedWithin(w'.mounts, to, n)
    ensures !Pinned(w.mounts, to) ==>
              && w'.tree == w.tree
              && StackAt(w'.mounts, to) == StackAt(w.mounts, to)[..Depth(w, to) - 1]
              && forall p | p != to :: StackAt(w'.mounts, p) == StackAt(w.mounts, p)
  {
    var s := StackAt(w.mounts, to);
    assert s[0] in s;
    PinnedPop(w.mounts, to, n);
    forall p ensures StackAt(PopTop(w.mounts, to), p) == if p == to then s[..|s| - 1] else StackAt(w.mounts, p) {
      StackPop(w.mounts, to, p);
    }
  }

  lemma {:induction false} Drains(f: Service, qs: seq<Request>, w: World, staging: Path, to: Path)
    requires Unmounts(f, to) && forall q | q in qs :: CleanUnstage(q) && q.call.staging == staging
    requires Resolve(w.tree, staging, KERNEL_LINKS) == Some(to) && !IsBareDevice(w, to)
    requires forall e | e in StackAt(w.mounts, to) :: e.device != ""
    requires |qs| <= Depth(w, to)
    ensures OkThroughout(f, qs, w) <==> !PinnedWithin(w.mounts, to, |qs|)
    ensures OkThroughout(f, qs, w) ==>
              && RunOf(f, qs, w).tree == w.tree
              && StackAt(RunOf(f, qs, w).mounts, to) == StackAt(w.mounts, to)[..Depth(w, to) - |qs|]
              && forall p | p != to :: StackAt(RunOf(f, qs, w).mounts, p) == StackAt(w.mounts, p)
  {
    if qs != [] {
      var w' := f(qs[0], w).w;
      assert qs[0] in qs;
      DrainsOne(f, qs[0], w, w', to, |qs| - 1);
      if !Pinned(w.mounts, to) {
        Drains(f, qs[1..], w', staging, to);
      }
    }
  }

  /**
   * n unstages on a stack of at least n mounts all succeed if and only if no mount below is newer than the n-th newest
   * of them. Then each has taken exactly one away, and nothing else.
   */
  lemma UnstagesDrain(m: Manager, qs: seq<Request>, w: World, staging: Path, to: Path)
    requires forall q | q in qs :: CleanUnstage(q) && q.call.staging == staging
    requires Resolve(w.tree, staging, KERNEL_LINKS) == Some(to) && !IsBareDevice(w, to)
    requires forall e | e in StackAt(w.mounts, to) :: e.device != ""
    requires |qs| <= Depth(w, to)
    ensures AllOk(m, qs, w) <==> !PinnedWithin(w.mounts, to, |qs|)
    ensures AllOk(m, qs, w) ==>
              && ServeAll(m, qs, w).tree == w.tree
              && StackAt(ServeAll(m, qs, w).mounts, to) == StackAt(w.mounts, to)[..Depth(w, to) - |qs|]
              && forall p | p != to :: StackAt(ServeAll(m, qs, w).mounts, p) == StackAt(w.mounts, p)
  {
    ServiceUnmounts(m, to);
    Drains(ServiceOf(m), qs, w, staging, to);
  }

  lemma {:induction false} OkAppend(f: Service, qs: seq<Request>, q: Request, w: World)
    ensures OkThroughout(f, qs + [q], w) <==> OkThroughout(f, qs, w) && f(q, RunOf(f, qs, w)).reply == Ok
  {
    if qs == [] {
      assert qs + [q] == [q] && [q][1..] == [];
    } else {
      assert (qs + [q])[1..] == qs[1..] + [q];
      OkAppend(f, qs[1..], q, f(qs[0], w).w);
    }
  }

  /**
   * As many unstages as there are mounts, and one more, which calls RemoveAll on the staging path: all of them succeed
   * if and only if no mount below is in the way of the unmounts, and none at or below the staging path but those
   * unmounted is in the way of RemoveAll. Nothing is then left of the staging path, and the rest of the tree is as
   * it was.
   */
  lemma UnstageAfterDrain(m: Manager, qs: seq<Request>, last: Request, w: World, staging: Path, to: Path)
    requires forall q | q in qs + [last] :: CleanUnstage(q) && q.call.staging == staging
    requires Resolve(w.tree, staging, KERNEL_LINKS) == Some(to) && !IsBareDevice(w, to)
    requires forall e | e in StackAt(w.mounts, to) :: e.device != ""
    requires |qs| == Depth(w, to)
    ensures AllOk(m, qs + [last], w) <==>
              && !PinnedWithin(w.mounts, to, |qs|)
              && forall e | e in w.mounts && staging <= e.path :: e.path == to
    ensures AllOk(m, qs, w) ==> DidRemoveAll(staging) in Serve(m, last, ServeAll(m, qs, w)).log
    ensures AllOk(m, qs + [last], w) ==> forall p ::
              Lookup(Serve(m, last, ServeAll(m, qs, w)).w.tree, p) == if staging <= p then None else Lookup(w.tree, p)
  {
    assert last in qs + [last] && forall q | q in qs :: q in qs + [last];
    UnstagesDrain(m, qs, w, staging, to);
    OkAppend(ServiceOf(m), qs, last, w);
    var w' := ServeAll(m, qs, w);
    if AllOk(m, qs, w) {
      UnstagePopulated(m, last, w', to);
      assert [DidRemoveAll(staging)][0] == DidRemoveAll(staging);
      BusyElsewhere(w.mounts, w'.mounts, staging, to);
    }
  }

  /** When only the stack at `to` is gone, a path is busy if and only if some other mount made it so before. */
  lemma BusyElsewhere(ms: seq<MountEntry>, ms': seq<MountEntry>, staging: Path, to: Path)
    requires StackAt(ms', to) == [] && forall p | p != to :: StackAt(ms', p) == StackAt(ms, p)
    ensures !Busy(ms', staging) <==> forall e | e in ms && staging <= e.path :: e.path == to
  {
    StackMembers(ms', to);
    forall e ensures e in ms' <==> e in ms && e.path != to {
      StackMembers(ms, e.path);
      StackMembers(ms', e.path);
    }
  }
}
