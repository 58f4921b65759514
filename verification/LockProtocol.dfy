/** In every interleaving, a volume is locked exactly while one request of it is between acquire and release. */
module LockProtocol {
  import opened Wrappers
  import opened NodeMachine

  /** The volumes of the requests inside a critical section. */
  function Holders(c: Config): set<string> {
    set i | 0 <= i < |c.rpcs| && InFlight(c.rpcs[i].phase) :: c.rpcs[i].call.volume
  }

  ghost predicate LockExact(c: Config) {
    && c.locks == Holders(c)
    && forall i, j | 0 <= i < |c.rpcs| && 0 <= j < |c.rpcs| && InFlight(c.rpcs[i].phase) && InFlight(c.rpcs[j].phase) ::
         c.rpcs[i].call.volume == c.rpcs[j].call.volume ==> i == j
  }

  /** What a step leaves alone: all other requests, and the request itself as it was sent. */
  ghost predicate OnlyMoves(c: Config, c': Config, i: nat)
    requires i < |c.rpcs|
  {
    && |c'.rpcs| == |c.rpcs|
    && c'.rpcs[i].call == c.rpcs[i].call && c'.rpcs[i].env == c.rpcs[i].env
    && forall j | 0 <= j < |c.rpcs| && j != i :: c'.rpcs[j] == c.rpcs[j]
  }

  lemma StepMoves(m: Manager, c: Config, i: nat)
    requires i < |c.rpcs|
    ensures OnlyMoves(c, Step(m, c, i), i)
  {
  }

  lemma StepPhases(m: Manager, c: Config, i: nat)
    requires i < |c.rpcs|
    ensures var p, p' := c.rpcs[i].phase, Step(m, c, i).rpcs[i].phase;
            match p
            case Waiting => p' == Begin(m, c.rpcs[i].call) || (p'.Done? && !p'.acquired)
            case Active(_) => InFlight(p')
            case Exiting(reply) => p' == Done(reply, true)
            case Done(_, _) => p' == p
  {
    if c.rpcs[i].phase.Active? {
      Progress(m, c.rpcs[i].call, c.rpcs[i].env, c.rpcs[i].phase.pc, c.w);
    }
  }

  lemma LockStep(m: Manager, c: Config, i: nat)
    requires i < |c.rpcs| && LockExact(c)
    ensures LockExact(Step(m, c, i))
  {
    var c', r := Step(m, c, i), c.rpcs[i];
    var v := r.call.volume;
    StepMoves(m, c, i);
    StepPhases(m, c, i);
    BeginInFlight(m, r.call);
    assert forall j | 0 <= j < |c.rpcs| && InFlight(c.rpcs[j].phase) :: c.rpcs[j].call.volume in Holders(c);
    assert c'.locks == Holders(c') by {
      forall u ensures u in c'.locks <==> u in Holders(c') {
        if u in Holders(c) {
          var j :| 0 <= j < |c.rpcs| && InFlight(c.rpcs[j].phase) && c.rpcs[j].call.volume == u;
          assert j != i ==> c'.rpcs[j] == c.rpcs[j];
        }
        if InFlight(c'.rpcs[i].phase) {
          assert v in Holders(c');
        }
      }
    }
  }

  /**
   * Any number of requests, any interleaving, any failures: the lock set is exactly the volumes in flight, one request
   * each.
   */
  lemma {:induction false} LocksAreExact(m: Manager, c: Config, schedule: seq<nat>)
    requires Initial(c) && forall k | 0 <= k < |schedule| :: schedule[k] < |c.rpcs|
    ensures LockExact(Run(m, c, schedule))
  {
    if schedule == [] {
      assert Holders(c) == {};
    } else {
      var n := |schedule| - 1;
      LocksAreExact(m, c, schedule[..n]);
      LockStep(m, Run(m, c, schedule[..n]), schedule[n]);
    }
  }

  /**
   * A refused request answers Aborted, exactly when another request of its volume is in flight, and disturbs nothing.
   */
  lemma Refusal(m: Manager, c: Config, i: nat)
    requires i < |c.rpcs| && LockExact(c)
    requires c.rpcs[i].phase == Waiting && PreLock(c.rpcs[i].call, c.rpcs[i].env) == None
    ensures var c' := Step(m, c, i);
            && (c'.rpcs[i].phase == Done(Error(Aborted), false) <==>
                exists j :: 0 <= j < |c.rpcs| && InFlight(c.rpcs[j].phase) &&
                  c.rpcs[j].call.volume == c.rpcs[i].call.volume)
            && (c'.rpcs[i].phase == Done(Error(Aborted), false) ==>
                c'.locks == c.locks && c'.w == c.w && c'.rpcs[i].log == c.rpcs[i].log)
  {
    BeginInFlight(m, c.rpcs[i].call);
    assert forall j | 0 <= j < |c.rpcs| && InFlight(c.rpcs[j].phase) :: c.rpcs[j].call.volume in Holders(c);
  }

  /** Whichever exits were taken, no lock is left behind once nothing is in flight. */
  lemma QuietMeansUnlocked(m: Manager, c: Config, schedule: seq<nat>)
    requires Initial(c) && forall k | 0 <= k < |schedule| :: schedule[k] < |c.rpcs|
    ensures (forall i | 0 <= i < |c.rpcs| :: !InFlight(Run(m, c, schedule).rpcs[i].phase))
            <==> Run(m, c, schedule).locks == {}
  {
    LocksAreExact(m, c, schedule);
    var c' := Run(m, c, schedule);
    assert forall j | 0 <= j < |c'.rpcs| && InFlight(c'.rpcs[j].phase) :: c'.rpcs[j].call.volume in Holders(c');
  }

  /** The steps request `i` takes in a schedule. */
  function CountOf(schedule: seq<nat>, i: nat): nat {
    if schedule == [] then 0
    else CountOf(schedule[..|schedule| - 1], i) + if schedule[|schedule| - 1] == i then 1 else 0
  }

  /** Ranks only fall: ten steps of a request finish it, so no lock is held for ever. */
  lemma {:induction false} EveryRequestReturns(m: Manager, c: Config, schedule: seq<nat>, i: nat)
    requires Initial(c) && i < |c.rpcs| && forall k | 0 <= k < |schedule| :: schedule[k] < |c.rpcs|
    ensures Rank(Run(m, c, schedule).rpcs[i].phase) + CountOf(schedule, i) <= 10 ||
            Run(m, c, schedule).rpcs[i].phase.Done?
    ensures CountOf(schedule, i) >= 10 ==> Run(m, c, schedule).rpcs[i].phase.Done?
  {
    if schedule != [] {
      var n := |schedule| - 1;
      var c' := Run(m, c, schedule[..n]);
      EveryRequestReturns(m, c, schedule[..n], i);
      StepMoves(m, c', schedule[n]);
      StepPhases(m, c', schedule[n]);
      if schedule[n] == i {
        var p := c'.rpcs[i].phase;
        if p.Active? {
          Progress(m, c'.rpcs[i].call, c'.rpcs[i].env, p.pc, c'.w);
        }
      }
    }
  }
}
