/** A storage call that takes forever holds up the operations ordered after its own, and nothing else, as
    long as one worker is free; but everything when no worker is. */
module SlowCalls {
  import opened Operations
  import opened Hazards
  import opened WorkerPool
  import opened PoolInvariant
  import opened PoolSteps
  import opened PoolProgress
  import opened PoolTheorems

  /** Nothing is left to do until some storage call returns, short of a cancellation. */
  ghost predicate Waiting(c: Config, s: State) {
    forall step :: Enabled(c, s, step) ==> step.Cancel? || step.Execute?
  }

  /** In a waiting state no worker is in the middle of anything but a storage call. */
  lemma NoneBusy(c: Config, s: State, w: nat)
    requires c.Valid() && Inv(c, s) && Waiting(c, s) && s.Has(w)
    ensures s.At(w).Idle? || s.At(w).Exited? || s.At(w).Holding?
  {
    if s.At(w).Committing? {
      CommittingIsNew(c, s, w);
      assert !Enabled(c, s, LockAndStore(w));
      var step := LockFreeWorkerMoves(c, s, s.lock.value);
    } else if Busy(s.At(w)) {
      var step := LockFreeWorkerMoves(c, s, w);
    }
  }

  /** What is held up has not executed. */
  lemma HeldUpIsOpen(c: Config, s: State, x: nat)
    requires c.Valid() && Inv(c, s) && HeldUp(c, s, x)
    ensures x !in s.completed && x !in s.rob.accepted
  {
    var w :| 0 <= w < |s.workers| && Delays(c, s.workers[w], x);
    var i := s.workers[w].node;
    HeldIsReady(c, s, w);
    if x in s.completed && i != x {
      ExecutedIsClosed(c, s);
      ClosedUnderPath(c.Batch(), s.completed.Keys, i, x);
    }
  }

  lemma FreeWorkerDrains(c: Config, s: State, free: nat)
    requires c.Valid() && Inv(c, s) && !s.cancelled && Waiting(c, s) && s.Has(free) && !s.At(free).Holding?
    ensures s.workCh == []
  {
    NoneBusy(c, s, free);
    assert !Enabled(c, s, Recv(free));
  }

  lemma ExecutedIsCommitted(c: Config, s: State, x: nat)
    requires c.Valid() && Inv(c, s) && Waiting(c, s) && x in s.completed
    ensures x in s.rob.accepted
  {
    forall w | 0 <= w < |s.workers|
      ensures Share(c, Uncommitted, s.workers[w], x) == 0
    {
      NoneBusy(c, s, w);
    }
    TallyNone(c, Uncommitted, s.workers, x);
    assert Balanced(c, s, x);
  }

  /** With a free worker, all that is not held up is finished, and all that is finished is committed. */
  lemma RestIsFinished(c: Config, s: State, free: nat, x: nat)
    requires c.Valid() && Inv(c, s) && !s.cancelled && Waiting(c, s)
    requires s.Has(free) && !s.At(free).Holding? && x < c.N() && !HeldUp(c, s, x)
    ensures x in s.finished && x in s.completed && x in s.rob.accepted
  {
    FreeWorkerDrains(c, s, free);
    forall w | 0 <= w < |s.workers|
      ensures s.workers[w].Idle? || s.workers[w].Exited? || s.workers[w].Holding?
    {
      NoneBusy(c, s, w);
    }
    NoStall(c, s, x);
    ExecutedIsCommitted(c, s, x);
  }

  /** The output has stopped exactly at the first operation that is not committed. */
  lemma OutputStops(c: Config, s: State)
    requires c.Valid() && Inv(c, s) && !s.cancelled && Waiting(c, s)
    ensures |s.rob.out| !in s.rob.accepted && forall k :: 0 <= k < |s.rob.out| ==> k in s.rob.accepted
  {
    if s.lock.Some? {
      NoneBusy(c, s, s.lock.value);
    }
    assert !s.rob.HeadReady() && !s.rob.taken;
  }

  /** While storage calls hang and one worker is free: exactly the operations not ordered after a hanging
      one are executed and finished, and the output has got exactly to the first one that is held up. */
  lemma SlowCallsHoldUpOnlyDependents(c: Config, s: State, free: nat, x: nat)
    requires c.Valid() && Reachable(c, s) && !s.cancelled && Waiting(c, s)
    requires s.Has(free) && !s.At(free).Holding? && x < c.N()
    ensures x in s.completed <==> !HeldUp(c, s, x)
    ensures x in s.finished <==> !HeldUp(c, s, x)
    ensures x < |s.rob.out| <==> forall k :: 0 <= k <= x ==> !HeldUp(c, s, k)
  {
    ReachableHolds(c, s);
    assert Balanced(c, s, x);
    if HeldUp(c, s, x) {
      HeldUpIsOpen(c, s, x);
    } else {
      RestIsFinished(c, s, free, x);
    }
    OutputReaches(c, s, free, x);
  }

  lemma OutputReaches(c: Config, s: State, free: nat, x: nat)
    requires c.Valid() && Inv(c, s) && !s.cancelled && Waiting(c, s)
    requires s.Has(free) && !s.At(free).Holding? && x < c.N()
    ensures x < |s.rob.out| <==> forall k :: 0 <= k <= x ==> !HeldUp(c, s, k)
  {
    OutputStops(c, s);
    var n := |s.rob.out|;
    if x < n {
      forall k | 0 <= k <= x
        ensures !HeldUp(c, s, k)
      {
        if HeldUp(c, s, k) {
          HeldUpIsOpen(c, s, k);
        }
      }
    } else if !HeldUp(c, s, n) {
      RestIsFinished(c, s, free, n);
    }
  }

  // ----- such states are reached -----

  /** These workers are in the middle of a storage call. */
  predicate Slow(s: State, slow: set<nat>) {
    forall w :: w in slow ==> s.Has(w) && s.At(w).Holding?
  }

  /** No goroutine other than these workers can take a step, short of a cancellation. */
  ghost predicate Quiet(c: Config, s: State, slow: set<nat>) {
    forall step :: Enabled(c, s, step) ==> step.Cancel? || (step.Execute? && step.w in slow)
  }

  /** A step of a goroutine other than these workers, and no cancellation. */
  predicate ByOthers(step: Step, slow: set<nat>) {
    !step.Cancel? && !(step.Execute? && step.w in slow)
  }

  ghost predicate OnlyOthers(steps: seq<Step>, slow: set<nat>) {
    forall i :: 0 <= i < |steps| ==> ByOthers(steps[i], slow)
  }

  /** The workers in `slow` are in t where they are in s. */
  ghost predicate StandStill(s: State, t: State, slow: set<nat>) {
    Slow(s, slow) && Slow(t, slow) && forall w :: w in slow ==> t.At(w) == s.At(w)
  }

  lemma OthersStay(c: Config, s: State, step: Step, slow: set<nat>)
    requires Slow(s, slow) && Enabled(c, s, step) && ByOthers(step, slow)
    ensures StandStill(s, Next(c, s, step), slow) && Next(c, s, step).cancelled == s.cancelled
  {
  }

  /** A run of the others leaves the hanging workers where they are. */
  lemma {:induction false} OthersRunStays(c: Config, s: State, slow: set<nat>, steps: seq<Step>, t: State)
    requires c.Valid() && Reachable(c, s) && Slow(s, slow) && Run(c, s, steps, t) && OnlyOthers(steps, slow)
    ensures Reachable(c, t) && StandStill(s, t, slow) && t.cancelled == s.cancelled
    decreases |steps|
  {
    if steps != [] {
      assert ByOthers(steps[0], slow);
      StepIsReachable(c, s, steps[0]);
      OthersStay(c, s, steps[0], slow);
      OthersRunStays(c, Next(c, s, steps[0]), slow, steps[1..], t);
    }
  }

  /** While any workers hang in their storage calls, the others carry on until only those calls are left. */
  lemma {:induction false} OthersCarryOn(c: Config, s: State, slow: set<nat>) returns (steps: seq<Step>, t: State)
    requires c.Valid() && Reachable(c, s) && !s.cancelled && Slow(s, slow)
    ensures Run(c, s, steps, t) && OnlyOthers(steps, slow) && Quiet(c, t, slow)
    decreases Measure(c, s)
  {
    if Quiet(c, s, slow) {
      steps, t := [], s;
    } else {
      var step :| Enabled(c, s, step) && ByOthers(step, slow);
      ReachableHolds(c, s);
      StepLowers(c, s, step);
      StepIsReachable(c, s, step);
      OthersStay(c, s, step, slow);
      var rest;
      rest, t := OthersCarryOn(c, Next(c, s, step), slow);
      steps := [step] + rest;
      assert steps[1..] == rest;
    }
  }

  /** One of these workers delays x. */
  ghost predicate HeldUpBy(c: Config, s: State, slow: set<nat>, x: nat) {
    exists w :: w in slow && s.Has(w) && Delays(c, s.At(w), x)
  }

  /** With a free worker, every run of the others that goes as far as it can finishes every operation that
      no hanging one holds up. */
  lemma {:induction false} UnrelatedFinishes(c: Config, s: State, slow: set<nat>, free: nat,
                                             steps: seq<Step>, t: State, x: nat)
    requires c.Valid() && Reachable(c, s) && !s.cancelled && Slow(s, slow) && x < c.N() && !HeldUpBy(c, s, slow, x)
    requires free < c.workers && free !in slow
    requires Run(c, s, steps, t) && OnlyOthers(steps, slow) && Quiet(c, t, slow)
    ensures x in t.completed && x in t.finished
  {
    OthersRunStays(c, s, slow, steps, t);
    ReachableHolds(c, s);
    ReachableHolds(c, t);
    OnlySlowHold(c, t, slow);
    OnlySlowDelay(c, s, t, slow, x);
    RestIsFinished(c, t, free, x);
  }

  lemma OnlySlowHold(c: Config, s: State, slow: set<nat>)
    requires c.Valid() && Inv(c, s) && Quiet(c, s, slow)
    ensures Waiting(c, s)
    ensures forall w :: 0 <= w < |s.workers| && s.workers[w].Holding? ==> w in slow
  {
    forall w | 0 <= w < |s.workers| && s.workers[w].Holding?
      ensures w in slow
    {
      assert Enabled(c, s, Execute(w));
    }
  }

  lemma OnlySlowDelay(c: Config, s: State, t: State, slow: set<nat>, x: nat)
    requires StandStill(s, t, slow)
    requires forall w :: 0 <= w < |t.workers| && t.workers[w].Holding? ==> w in slow
    ensures HeldUp(c, t, x) ==> HeldUpBy(c, s, slow, x)
  {
    if HeldUp(c, t, x) {
      var w :| 0 <= w < |t.workers| && Delays(c, t.workers[w], x);
      assert s.Has(w) && Delays(c, s.At(w), x);
    }
  }

  ghost predicate HasFree(c: Config, slow: set<nat>) {
    exists free: nat :: free < c.workers && free !in slow
  }

  /** The others can execute x while these workers hang. */
  ghost predicate CanExecute(c: Config, s: State, slow: set<nat>, x: nat) {
    exists steps, t :: Run(c, s, steps, t) && OnlyOthers(steps, slow) && x in t.completed
  }

  /** Exactly when hanging storage calls do not block an operation that is not ordered after them: if and
      only if some worker is free. */
  lemma UnrelatedProceedsExactly(c: Config, s: State, slow: set<nat>, x: nat)
    requires c.Valid() && Reachable(c, s) && !s.cancelled && Slow(s, slow)
    requires x < c.N() && x !in s.completed && !HeldUpBy(c, s, slow, x)
    ensures CanExecute(c, s, slow, x) <==> HasFree(c, slow)
  {
    if HasFree(c, slow) {
      var free: nat :| free < c.workers && free !in slow;
      var steps, t := OthersCarryOn(c, s, slow);
      UnrelatedFinishes(c, s, slow, free, steps, t, x);
    } else {
      forall steps, t | Run(c, s, steps, t) && OnlyOthers(steps, slow)
        ensures t == s
      {
        NobodyElse(c, s, slow, steps, t);
      }
    }
  }

  lemma {:induction false} NobodyElse(c: Config, s: State, slow: set<nat>, steps: seq<Step>, t: State)
    requires c.Valid() && Reachable(c, s) && !s.cancelled && Slow(s, slow) && !HasFree(c, slow)
    requires Run(c, s, steps, t) && OnlyOthers(steps, slow)
    ensures steps == [] && t == s
  {
    ReachableHolds(c, s);
    forall w | 0 <= w < |s.workers|
      ensures w in slow && s.workers[w].Holding?
    {
    }
    NoFreeWorkerStallsAll(c, s);
    assert steps != [] ==> ByOthers(steps[0], slow);
  }

  // ----- without a free worker -----

  lemma HeldMeansUndelivered(c: Config, s: State, w: nat)
    requires c.Valid() && Inv(c, s) && !s.cancelled && s.Has(w) && s.At(w).Holding?
    ensures s.handler.Receiving? && !s.rob.closed
  {
    HeldIsReady(c, s, w);
    assert s.At(w).node !in s.rob.accepted;
  }

  /** When every worker hangs, nothing else moves either. */
  lemma NoFreeWorkerStallsAll(c: Config, s: State)
    requires c.Valid() && Reachable(c, s) && !s.cancelled
    requires forall w :: 0 <= w < |s.workers| ==> s.workers[w].Holding?
    ensures Waiting(c, s)
  {
    ReachableHolds(c, s);
    HeldMeansUndelivered(c, s, 0);
    OnlyExecutes(c, s);
  }

  lemma OnlyExecutes(c: Config, s: State)
    requires !s.cancelled && s.handler.Receiving? && !s.rob.closed && s.workers != []
    requires forall w :: 0 <= w < |s.workers| ==> s.workers[w].Holding?
    ensures Waiting(c, s)
  {
    assert !s.workers[0].Exited?;
  }

  /** One worker and two unrelated writes: while the first hangs, the second is stuck. */
  lemma UnrelatedWriteWaits(a: Key, b: Key, value: Value) returns (c: Config, s: State)
    requires a != b
    ensures c.Valid() && Reachable(c, s) && !s.cancelled && Waiting(c, s)
    ensures c.N() == 2 && !Path(c.Batch(), 0, 1) && s.workers == [Holding(0)] && 1 !in s.completed && !HeldUp(c, s, 1)
  {
    var batch := [Operation(0, a, OpWrite, value, Nil, None), Operation(1, b, OpWrite, value, Nil, None)];
    c := Config(Job(batch, map[], map[]), 1);
    StartIsReachable(c);
    assert Predecessors(batch, 0) == {} && Predecessors(batch, 1) == {};
    assert Roots(batch, 0) == [] && Roots(batch, 1) == [0] && Roots(batch, 2) == [0, 1];
    StepIsReachable(c, Init(c), Recv(0));
    s := Next(c, Init(c), Recv(0));
    NoFreeWorkerStallsAll(c, s);
    PathExact(batch, 0, 1);
  }
}
