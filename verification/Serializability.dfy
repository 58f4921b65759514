/** Interleaved requests behave as if each ran its critical section alone, in the order they got their locks. */
module Serializability {
  import opened Wrappers
  import opened PathTree
  import opened Kernel
  import opened NodeMachine
  import opened Locality
  import opened LockProtocol

  /** The requests that got their lock, in that order. */
  function Order(m: Manager, c: Config, schedule: seq<nat>): (order: seq<nat>)
    requires forall k | 0 <= k < |schedule| :: schedule[k] < |c.rpcs|
    ensures forall k | 0 <= k < |order| :: order[k] < |c.rpcs|
  {
    if schedule == [] then []
    else
      var n := |schedule| - 1;
      var before := Run(m, c, schedule[..n]);
      var i := schedule[n];
      Order(m, c, schedule[..n]) + if Acquires(before, i) then [i] else []
  }

  predicate Acquires(c: Config, i: nat)
    requires i < |c.rpcs|
  {
    var r := c.rpcs[i];
    r.phase == Waiting && PreLock(r.call, r.env) == None && r.call.volume !in c.locks
  }

  /** The world after running whole critical sections one at a time. */
  function SerialWorld(m: Manager, rpcs: seq<Rpc>, order: seq<nat>, w: World): World
    requires forall k | 0 <= k < |order| :: order[k] < |rpcs|
  {
    if order == [] then w
    else
      var n := |order| - 1;
      Critical(m, rpcs[order[n]], SerialWorld(m, rpcs, order[..n], w)).w
  }

  /** What the k-th of them returned. */
  function SerialOutcome(m: Manager, rpcs: seq<Rpc>, order: seq<nat>, w: World, k: nat): Completion
    requires k < |order| && forall k | 0 <= k < |order| :: order[k] < |rpcs|
  {
    Critical(m, rpcs[order[k]], SerialWorld(m, rpcs, order[..k], w))
  }

  ghost predicate Placed(l: Layout, r: Rpc) {
    && Scoped(l, r) && (InFlight(r.phase) ==> InScope(l, r))
    && Fits(r.call.kind, r.phase) && ScopedPc(l, r.call.volume, r.phase)
  }

  lemma BeginPlaced(l: Layout, m: Manager, r: Rpc)
    requires InScope(l, r)
    ensures Placed(l, r.(phase := Begin(m, r.call)))
  {
  }

  /** Left to itself, a request ends the same way in all worlds its volume cannot tell apart. */
  lemma {:induction false} FinishLocal(l: Layout, m: Manager, r: Rpc, w: World, w': World)
    requires Twin(l, r.call.volume, w, w') && Placed(l, r) && InFlight(r.phase)
    ensures var f, f' := Finish(m, r.call, r.env, r.phase, r.log, w), Finish(m, r.call, r.env, r.phase, r.log, w');
            f.reply == f'.reply && f.log == f'.log && Local(l, r.call.volume, w, w', Some(f.w), Some(f'.w))
    decreases Rank(r.phase)
  {
    var v := r.call.volume;
    if r.phase.Exiting? {
      StillLocal(l, v, w, w');
    } else {
      var pc := r.phase.pc;
      Progress(m, r.call, r.env, pc, w);
      ExecLocal(l, m, r, pc, w, w');
      var o, o' := Exec(m, r.call, r.env, pc, w), Exec(m, r.call, r.env, pc, w');
      var next := r.(phase := o.phase, log := r.log + o.effects);
      FinishLocal(l, m, next, o.w, o'.w);
      var f, f' := Finish(m, r.call, r.env, o.phase, next.log, o.w), Finish(m, r.call, r.env, o.phase, next.log, o'.w);
      TouchTwice(l, v, w, o.w, f.w);
      TouchTwice(l, v, w', o'.w, f'.w);
    }
  }

  lemma TouchTwice(l: Layout, v: string, w0: World, w1: World, w2: World)
    requires OnlyTouches(l, v, w0, w1) && OnlyTouches(l, v, w1, w2)
    ensures OnlyTouches(l, v, w0, w2)
  {
    forall u | u != v ensures SameTable(l, u, w0, w2) {
      assert SameTable(l, u, w0, w1) && SameTable(l, u, w1, w2);
    }
    forall p | l.owner(p) != Some(v) ensures SameAt(w0, w2, p) {
      assert SameAt(w0, w1, p) && SameAt(w1, w2, p);
    }
  }

  lemma OthersKeepView(l: Layout, v: string, w: World, w': World, u: string)
    requires OnlyTouches(l, v, w, w') && u != v
    ensures SameView(l, u, w, w')
  {
  }

  lemma ViewTwice(l: Layout, v: string, w0: World, w1: World, w2: World)
    requires SameView(l, v, w0, w1) && SameView(l, v, w1, w2)
    ensures SameView(l, v, w0, w2)
  {
    forall p | l.owner(p) == Some(v) ensures SameAt(w0, w2, p) {
      assert SameAt(w0, w1, p) && SameAt(w1, w2, p);
    }
  }

  lemma ViewBack(l: Layout, v: string, w0: World, w1: World)
    requires SameView(l, v, w0, w1)
    ensures SameView(l, v, w1, w0)
  {
  }

  /** A request that has its lock is on the way to its serial outcome, in world `w` as in the serial world `sw`. */
  ghost predicate OnTrack(l: Layout, m: Manager, r: Rpc, w: World, sw: World, o: Completion) {
    if r.phase.Done? then r.phase.reply == o.reply && r.log == o.log
    else
      InFlight(r.phase) &&
      var f := Finish(m, r.call, r.env, r.phase, r.log, w);
      f.reply == o.reply && f.log == o.log && SameView(l, r.call.volume, f.w, sw)
  }

  /** The configuration is sound: everything stays where it belongs. */
  ghost predicate Sound(l: Layout, c: Config) {
    && Good(l, c.w) && LockExact(c)
    && forall i | 0 <= i < |c.rpcs| :: Placed(l, c.rpcs[i])
  }

  ghost predicate Good(l: Layout, w: World) {
    Hereditary(l) && Confined(l, w)
  }

  /** The same requests, further along. */
  ghost predicate Continues(c0: Config, c: Config) {
    && |c.rpcs| == |c0.rpcs|
    && forall i | 0 <= i < |c.rpcs| ::
         && c.rpcs[i].call == c0.rpcs[i].call && c.rpcs[i].env == c0.rpcs[i].env
         && (c.rpcs[i].phase == Waiting ==> c.rpcs[i] == c0.rpcs[i])
  }

  ghost predicate OrderOf(c: Config, order: seq<nat>) {
    && (forall k | 0 <= k < |order| :: order[k] < |c.rpcs| && Acquired(c.rpcs[order[k]].phase))
    && (forall i | 0 <= i < |c.rpcs| && Acquired(c.rpcs[i].phase) :: i in order)
    && (forall j, k | 0 <= j < k < |order| :: order[j] != order[k])
  }

  /** The interleaved configuration `c` simulates the serial run of `order`. */
  ghost predicate Simulates(l: Layout, m: Manager, c0: Config, c: Config, order: seq<nat>) {
    && Sound(l, c) && Continues(c0, c) && OrderOf(c, order)
    && var sw := SerialWorld(m, c0.rpcs, order, c0.w);
       && Confined(l, sw)
       && (forall v | v !in c.locks :: SameView(l, v, c.w, sw))
       && (forall k | 0 <= k < |order| :: OnTrack(l, m, c.rpcs[order[k]], c.w, sw,
            SerialOutcome(m, c0.rpcs, order, c0.w, k)))
  }

  lemma InFlightLocked(c: Config, i: nat)
    requires LockExact(c) && i < |c.rpcs| && InFlight(c.rpcs[i].phase)
    ensures c.rpcs[i].call.volume in c.locks
  {
    assert c.rpcs[i].call.volume in Holders(c);
  }

  /** A change to another volume, here and in the serial world, keeps a request on track. */
  lemma StaysOnTrack(l: Layout, m: Manager, r: Rpc, w: World, sw: World, w': World, sw': World, o: Completion)
    requires Placed(l, r) && OnTrack(l, m, r, w, sw, o)
    requires Good(l, w) && Good(l, w')
    requires SameView(l, r.call.volume, w, w') && SameView(l, r.call.volume, sw, sw')
    ensures OnTrack(l, m, r, w', sw', o)
  {
    if !r.phase.Done? {
      var v := r.call.volume;
      FinishLocal(l, m, r, w, w');
      var f, f' := Finish(m, r.call, r.env, r.phase, r.log, w), Finish(m, r.call, r.env, r.phase, r.log, w');
      ViewBack(l, v, f.w, f'.w);
      ViewTwice(l, v, f'.w, f.w, sw);
      ViewTwice(l, v, f'.w, sw, sw');
    }
  }

  lemma SerialPrefix(m: Manager, rpcs: seq<Rpc>, order: seq<nat>, i: nat, w: World)
    requires i < |rpcs| && forall k | 0 <= k < |order| :: order[k] < |rpcs|
    ensures SerialWorld(m, rpcs, order + [i], w) == Critical(m, rpcs[i], SerialWorld(m, rpcs, order, w)).w
    ensures SerialOutcome(m, rpcs, order + [i], w, |order|) == Critical(m, rpcs[i], SerialWorld(m, rpcs, order, w))
    ensures forall k | 0 <= k < |order| ::
              SerialOutcome(m, rpcs, order + [i], w, k) == SerialOutcome(m, rpcs, order, w, k)
  {
    assert (order + [i])[..|order|] == order;
    forall k | 0 <= k < |order|
      ensures SerialOutcome(m, rpcs, order + [i], w, k) == SerialOutcome(m, rpcs, order, w, k)
    {
      assert (order + [i])[..k] == order[..k];
    }
  }

  /** Every step keeps the configuration sound and changes only the volume of the request that takes it. */
  lemma SoundStep(l: Layout, m: Manager, c: Config, i: nat)
    requires Sound(l, c) && i < |c.rpcs|
    ensures Sound(l, Step(m, c, i))
    ensures OnlyTouches(l, c.rpcs[i].call.volume, c.w, Step(m, c, i).w)
  {
    var r, c' := c.rpcs[i], Step(m, c, i);
    LockStep(m, c, i);
    StepMoves(m, c, i);
    if r.phase.Active? {
      ExecLocal(l, m, r, r.phase.pc, c.w, c.w);
    } else if Acquires(c, i) {
      BeginPlaced(l, m, r);
    }
    assert Placed(l, c'.rpcs[i]);
  }

  lemma ContinuesStep(m: Manager, c0: Config, c: Config, i: nat)
    requires Continues(c0, c) && i < |c.rpcs|
    ensures Continues(c0, Step(m, c, i))
  {
    StepMoves(m, c, i);
    StepPhases(m, c, i);
    BeginInFlight(m, c.rpcs[i].call);
  }

  /** Only taking the lock makes a request one that has had it. */
  lemma AcquiredStep(m: Manager, c: Config, i: nat)
    requires i < |c.rpcs|
    ensures var p, p' := c.rpcs[i].phase, Step(m, c, i).rpcs[i].phase;
            if Acquires(c, i) then !Acquired(p) && Acquired(p') else Acquired(p') == Acquired(p)
  {
    StepPhases(m, c, i);
    BeginInFlight(m, c.rpcs[i].call);
  }

  lemma OrderStep(m: Manager, c: Config, i: nat, order: seq<nat>)
    requires OrderOf(c, order) && i < |c.rpcs|
    ensures OrderOf(Step(m, c, i), if Acquires(c, i) then order + [i] else order)
  {
    StepMoves(m, c, i);
    AcquiredStep(m, c, i);
    OrderKeeps(c, Step(m, c, i), i, order, Acquires(c, i));
  }

  lemma OrderKeeps(c: Config, c': Config, i: nat, order: seq<nat>, grows: bool)
    requires OrderOf(c, order) && i < |c.rpcs| && OnlyMoves(c, c', i)
    requires if grows then !Acquired(c.rpcs[i].phase) && Acquired(c'.rpcs[i].phase)
             else Acquired(c'.rpcs[i].phase) == Acquired(c.rpcs[i].phase)
    ensures OrderOf(c', if grows then order + [i] else order)
  {
    var order' := if grows then order + [i] else order;
    forall j | 0 <= j < |c'.rpcs| && Acquired(c'.rpcs[j].phase)
      ensures j in order'
    {
      if j == i && grows {
        assert order'[|order|] == i;
      } else {
        assert j in order;
      }
    }
  }

  /** A request that goes on inside its critical section. */
  lemma ActiveOnTrack(l: Layout, m: Manager, c: Config, i: nat, sw: World, o: Completion)
    requires i < |c.rpcs| && c.rpcs[i].phase.Active?
    requires OnTrack(l, m, c.rpcs[i], c.w, sw, o)
    ensures OnTrack(l, m, Step(m, c, i).rpcs[i], Step(m, c, i).w, sw, o)
  {
    var r := c.rpcs[i];
    Progress(m, r.call, r.env, r.phase.pc, c.w);
  }

  /** A request that enters its critical section: the serial world runs all of it at once. */
  lemma AcquireOnTrack(l: Layout, m: Manager, r: Rpc, w: World, sw: World)
    requires InScope(l, r) && r.log == []
    requires Twin(l, r.call.volume, w, sw)
    ensures var c := Critical(m, r, sw);
            && OnTrack(l, m, r.(phase := Begin(m, r.call)), w, c.w, c)
            && OnlyTouches(l, r.call.volume, sw, c.w) && Confined(l, c.w)
  {
    BeginInFlight(m, r.call);
    BeginPlaced(l, m, r);
    FinishLocal(l, m, r.(phase := Begin(m, r.call)), w, sw);
  }

  lemma AcquireTracks(l: Layout, m: Manager, c0: Config, c: Config, order: seq<nat>, i: nat, k: nat)
    requires Initial(c0) && Simulates(l, m, c0, c, order) && i < |c.rpcs| && Acquires(c, i) && k <= |order|
    ensures var order' := order + [i];
            OnTrack(l, m, Step(m, c, i).rpcs[order'[k]], c.w, SerialWorld(m, c0.rpcs, order', c0.w),
              SerialOutcome(m, c0.rpcs, order', c0.w, k))
  {
    var c', r := Step(m, c, i), c.rpcs[i];
    var sw := SerialWorld(m, c0.rpcs, order, c0.w);
    SerialPrefix(m, c0.rpcs, order, i, c0.w);
    AcquireOnTrack(l, m, r, c.w, sw);
    if k < |order| {
      SoundStep(l, m, c, i);
      StepMoves(m, c, i);
      BeginInFlight(m, r.call);
      OtherOnTrack(l, m, c, c', i, order[k], sw, Critical(m, r, sw).w, SerialOutcome(m, c0.rpcs, order, c0.w, k));
    }
  }

  lemma AcquireViews(l: Layout, m: Manager, c0: Config, c: Config, order: seq<nat>, i: nat)
    requires Initial(c0) && Simulates(l, m, c0, c, order) && i < |c.rpcs| && Acquires(c, i)
    ensures var sw' := SerialWorld(m, c0.rpcs, order + [i], c0.w);
            Confined(l, sw') && forall u | u !in Step(m, c, i).locks :: SameView(l, u, c.w, sw')
  {
    var r := c.rpcs[i];
    var sw := SerialWorld(m, c0.rpcs, order, c0.w);
    SerialPrefix(m, c0.rpcs, order, i, c0.w);
    AcquireOnTrack(l, m, r, c.w, sw);
    var sw' := Critical(m, r, sw).w;
    forall u | u !in c.locks && u != r.call.volume
      ensures SameView(l, u, c.w, sw')
    {
      OthersKeepView(l, r.call.volume, sw, sw', u);
      ViewTwice(l, u, c.w, sw, sw');
    }
  }

  lemma SimulateAcquire(l: Layout, m: Manager, c0: Config, c: Config, order: seq<nat>, i: nat)
    requires Initial(c0) && Simulates(l, m, c0, c, order) && i < |c.rpcs| && Acquires(c, i)
    ensures Simulates(l, m, c0, Step(m, c, i), order + [i])
  {
    SoundStep(l, m, c, i);
    ContinuesStep(m, c0, c, i);
    OrderStep(m, c, i, order);
    AcquireViews(l, m, c0, c, order, i);
    forall k | 0 <= k <= |order| {
      AcquireTracks(l, m, c0, c, order, i, k);
    }
  }

  /** A request other than the one that moves: finished, or of another volume. */
  lemma OtherOnTrack(l: Layout, m: Manager, c: Config, c': Config, i: nat, j: nat, sw: World, sw': World, o: Completion)
    requires i < |c.rpcs| && j < |c.rpcs| && i != j
    requires Sound(l, c) && Good(l, c'.w) && LockExact(c') && OnlyMoves(c, c', i)
    requires InFlight(c.rpcs[i].phase) || InFlight(c'.rpcs[i].phase)
    requires OnlyTouches(l, c.rpcs[i].call.volume, c.w, c'.w) && OnlyTouches(l, c.rpcs[i].call.volume, sw, sw')
    requires OnTrack(l, m, c.rpcs[j], c.w, sw, o)
    ensures OnTrack(l, m, c'.rpcs[j], c'.w, sw', o)
  {
    var u, v := c.rpcs[j].call.volume, c.rpcs[i].call.volume;
    if InFlight(c.rpcs[j].phase) {
      assert u != v;
      OthersKeepView(l, v, c.w, c'.w, u);
      OthersKeepView(l, v, sw, sw', u);
      StaysOnTrack(l, m, c.rpcs[j], c.w, sw, c'.w, sw', o);
    }
  }

  /** Any step of a request that holds its lock: inside the critical section or leaving it. */
  lemma SimulateHolder(l: Layout, m: Manager, c0: Config, c: Config, order: seq<nat>, i: nat)
    requires Simulates(l, m, c0, c, order) && i < |c.rpcs| && InFlight(c.rpcs[i].phase)
    ensures Simulates(l, m, c0, Step(m, c, i), order)
  {
    var c', v := Step(m, c, i), c.rpcs[i].call.volume;
    var sw := SerialWorld(m, c0.rpcs, order, c0.w);
    SoundStep(l, m, c, i);
    StepMoves(m, c, i);
    ContinuesStep(m, c0, c, i);
    OrderStep(m, c, i, order);
    forall k | 0 <= k < |order|
      ensures OnTrack(l, m, c'.rpcs[order[k]], c'.w, sw, SerialOutcome(m, c0.rpcs, order, c0.w, k))
    {
      var o := SerialOutcome(m, c0.rpcs, order, c0.w, k);
      if order[k] != i {
        OtherOnTrack(l, m, c, c', i, order[k], sw, sw, o);
      } else if c.rpcs[i].phase.Active? {
        ActiveOnTrack(l, m, c, i, sw, o);
      }
    }
    forall u | u !in c'.locks ensures SameView(l, u, c'.w, sw) {
      HolderViews(l, m, c0, c, order, i, u);
    }
  }

  /** What such a step does to the volumes that are unlocked after it. */
  lemma HolderViews(l: Layout, m: Manager, c0: Config, c: Config, order: seq<nat>, i: nat, u: string)
    requires Simulates(l, m, c0, c, order) && i < |c.rpcs| && InFlight(c.rpcs[i].phase)
    requires u !in Step(m, c, i).locks
    ensures SameView(l, u, Step(m, c, i).w, SerialWorld(m, c0.rpcs, order, c0.w))
  {
    var w', v, sw := Step(m, c, i).w, c.rpcs[i].call.volume, SerialWorld(m, c0.rpcs, order, c0.w);
    if u != v {
      SoundStep(l, m, c, i);
      OthersKeepView(l, v, c.w, w', u);
      ViewBack(l, u, c.w, w');
      ViewTwice(l, u, w', c.w, sw);
    } else {
      HolderLeaves(l, m, c0, c, order, i);
    }
  }

  /** A volume is unlocked only when its request is done, and then it looks as in the serial world. */
  lemma HolderLeaves(l: Layout, m: Manager, c0: Config, c: Config, order: seq<nat>, i: nat)
    requires Simulates(l, m, c0, c, order) && i < |c.rpcs| && InFlight(c.rpcs[i].phase)
    requires c.rpcs[i].call.volume !in Step(m, c, i).locks
    ensures SameView(l, c.rpcs[i].call.volume, Step(m, c, i).w, SerialWorld(m, c0.rpcs, order, c0.w))
  {
    InFlightLocked(c, i);
    assert c.rpcs[i].phase.Exiting?;
    var k :| 0 <= k < |order| && order[k] == i;
    assert OnTrack(l, m, c.rpcs[order[k]], c.w, SerialWorld(m, c0.rpcs, order, c0.w),
      SerialOutcome(m, c0.rpcs, order, c0.w, k));
  }

  /** A request that is refused, or that has already returned. */
  lemma SimulateRefused(l: Layout, m: Manager, c0: Config, c: Config, order: seq<nat>, i: nat)
    requires Simulates(l, m, c0, c, order) && i < |c.rpcs| && !InFlight(c.rpcs[i].phase) && !Acquires(c, i)
    ensures Simulates(l, m, c0, Step(m, c, i), order)
  {
    SoundStep(l, m, c, i);
    ContinuesStep(m, c0, c, i);
    OrderStep(m, c, i, order);
    StepMoves(m, c, i);
  }

  lemma SimulateStep(l: Layout, m: Manager, c0: Config, c: Config, order: seq<nat>, i: nat)
    requires Initial(c0) && Simulates(l, m, c0, c, order) && i < |c.rpcs|
    ensures Simulates(l, m, c0, Step(m, c, i), order + if Acquires(c, i) then [i] else [])
  {
    if Acquires(c, i) {
      SimulateAcquire(l, m, c0, c, order, i);
    } else {
      assert order + [] == order;
      if InFlight(c.rpcs[i].phase) {
        SimulateHolder(l, m, c0, c, order, i);
      } else {
        SimulateRefused(l, m, c0, c, order, i);
      }
    }
  }

  lemma SimulateStart(l: Layout, m: Manager, c0: Config)
    requires Initial(c0) && Good(l, c0.w) && forall i | 0 <= i < |c0.rpcs| :: Scoped(l, c0.rpcs[i])
    ensures Simulates(l, m, c0, c0, [])
  {
    LocksAreExact(m, c0, []);
    assert Sound(l, c0);
  }

  lemma {:induction false} RunSimulates(l: Layout, m: Manager, c0: Config, schedule: seq<nat>)
    requires Initial(c0) && Good(l, c0.w) && forall i | 0 <= i < |c0.rpcs| :: Scoped(l, c0.rpcs[i])
    requires forall k | 0 <= k < |schedule| :: schedule[k] < |c0.rpcs|
    ensures Simulates(l, m, c0, Run(m, c0, schedule), Order(m, c0, schedule))
  {
    if schedule == [] {
      SimulateStart(l, m, c0);
    } else {
      var n := |schedule| - 1;
      RunSimulates(l, m, c0, schedule[..n]);
      SimulateStep(l, m, c0, Run(m, c0, schedule[..n]), Order(m, c0, schedule[..n]), schedule[n]);
    }
  }

  /** What it means for an interleaving to be explained by a serial order. */
  ghost predicate ExplainedBy(l: Layout, m: Manager, c0: Config, c: Config, order: seq<nat>) {
    && OrderOf(c, order) && |c.rpcs| == |c0.rpcs|
    && (forall k | 0 <= k < |order| && c.rpcs[order[k]].phase.Done? ::
          var o := SerialOutcome(m, c0.rpcs, order, c0.w, k);
          c.rpcs[order[k]].phase == Done(o.reply, true) && c.rpcs[order[k]].log == o.log)
    && (forall p | l.owner(p) == None || l.owner(p).value !in c.locks ::
          SameAt(c.w, SerialWorld(m, c0.rpcs, order, c0.w), p))
    && (forall v | v !in c.locks :: SameTable(l, v, c.w, SerialWorld(m, c0.rpcs, order, c0.w)))
  }

  /**
   * Take any number of requests in any interleaving of single calls, with any failures, volumes not sharing paths.
   * Each request that has returned after holding its lock gave the reply and logged the effects it would have given and
   * logged alone, critical sections run whole in the order of the locks; each path of a volume no longer locked, and
   * each path of no volume, has the node and the mounts of that serial run, a volume's mounts in the same order.
   */
  lemma Serializable(l: Layout, m: Manager, c0: Config, schedule: seq<nat>)
    requires Initial(c0) && Good(l, c0.w) && forall i | 0 <= i < |c0.rpcs| :: Scoped(l, c0.rpcs[i])
    requires forall k | 0 <= k < |schedule| :: schedule[k] < |c0.rpcs|
    ensures ExplainedBy(l, m, c0, Run(m, c0, schedule), Order(m, c0, schedule))
  {
    RunSimulates(l, m, c0, schedule);
    var c, order := Run(m, c0, schedule), Order(m, c0, schedule);
    var sw := SerialWorld(m, c0.rpcs, order, c0.w);
    forall p | l.owner(p) == None || l.owner(p).value !in c.locks
      ensures SameAt(c.w, sw, p)
    {
      if l.owner(p) == None {
        assert SameAt(c.w, l.base, p) && SameAt(sw, l.base, p);
      } else {
        assert SameView(l, l.owner(p).value, c.w, sw);
      }
    }
  }

  /** Once all requests have returned, the whole world is that of the serial run. */
  lemma SerializableWhole(l: Layout, m: Manager, c0: Config, schedule: seq<nat>)
    requires Initial(c0) && Good(l, c0.w) && forall i | 0 <= i < |c0.rpcs| :: Scoped(l, c0.rpcs[i])
    requires forall k | 0 <= k < |schedule| :: schedule[k] < |c0.rpcs|
    requires forall i | 0 <= i < |c0.rpcs| :: Run(m, c0, schedule).rpcs[i].phase.Done?
    ensures var order := Order(m, c0, schedule);
            && (forall k | 0 <= k < |order| :: order[k] < |c0.rpcs|)
            && (forall p :: SameAt(Run(m, c0, schedule).w, SerialWorld(m, c0.rpcs, order, c0.w), p))
  {
    Serializable(l, m, c0, schedule);
    QuietMeansUnlocked(m, c0, schedule);
  }

  /**
   * The same without a division given beforehand: it is enough that no admitted request names a path at or below one
   * that an admitted request of another volume names, that no link below those paths leads astray, and that the manager
   * keeps to each request's own volume.
   */
  lemma SerializableByPaths(m: Manager, c0: Config, schedule: seq<nat>)
    requires Initial(c0) && PathsApart(c0.rpcs) && LinksStay(PathLayout(c0.rpcs, c0.w))
    requires forall i | 0 <= i < |c0.rpcs| && Admitted(c0.rpcs[i]) ::
             ManagerStays(PathLayout(c0.rpcs, c0.w), c0.rpcs[i])
    requires forall k | 0 <= k < |schedule| :: schedule[k] < |c0.rpcs|
    ensures ExplainedBy(PathLayout(c0.rpcs, c0.w), m, c0, Run(m, c0, schedule), Order(m, c0, schedule))
  {
    PathsDivide(c0.rpcs, c0.w);
    StartsConfined(PathLayout(c0.rpcs, c0.w));
    Serializable(PathLayout(c0.rpcs, c0.w), m, c0, schedule);
  }
}
