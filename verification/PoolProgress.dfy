/** The pool never deadlocks, every run is finite, and an uncancelled run can only end with everything done. */
module PoolProgress {
  import opened Operations
  import opened Hazards
  import opened Reorder
  import opened WorkerPool
  import opened PoolInvariant
  import opened PoolSteps

  /** Nothing is left to do: all workers have exited, Run has returned, the handler has answered or given up. */
  predicate Terminal(s: State) {
    s.AllExited() && !s.run.Running? && !s.handler.Receiving? && !s.handler.AwaitingRun?
  }

  // ----- what the end of the work implies -----

  /** When the work channel is closed, every node is finished and nothing is left anywhere. */
  lemma {:induction false} ClosedMeansFinished(c: Config, s: State, x: nat)
    requires Typed(c, s) && Counted(c, s) && s.workClosed && x < c.N()
    ensures x in s.finished && x in s.completed && multiset(s.workCh)[x] == 0
    ensures Tally(c, Ready, s.workers, x) == 0 && Tally(c, Active, s.workers, x) == 0 && s.inDegree[x] == 0
  {
    if x !in s.finished {
      FinishedBound(c, s, x);
    }
    assert Balanced(c, s, x);
  }

  lemma ClosedMeansEmpty(c: Config, s: State)
    requires Typed(c, s) && Counted(c, s) && s.workClosed
    ensures s.workCh == []
  {
    if s.workCh != [] {
      ClosedMeansFinished(c, s, s.workCh[0]);
    }
  }

  /** All workers gone and the channel closed: everything has been committed. */
  lemma AllExitedMeansCommitted(c: Config, s: State, x: nat)
    requires Typed(c, s) && Counted(c, s) && s.AllExited() && s.workClosed && x < c.N()
    ensures x in s.rob.accepted
  {
    ClosedMeansFinished(c, s, x);
    TallyNone(c, Uncommitted, s.workers, x);
    assert Balanced(c, s, x);
  }

  lemma AllCommittedMeansClosed(c: Config, s: State)
    requires Locked(c, s) && s.AllExited() && !s.cancelled
    requires forall x :: 0 <= x < c.N() ==> x in s.rob.accepted
    ensures s.rob.closed
  {
    assert s.lock == None;
    assert s.rob.nextExpected !in s.rob.accepted;
  }

  /** All workers gone, not cancelled: every result has been delivered and the output is closed. */
  lemma AllExitedMeansDelivered(c: Config, s: State)
    requires c.Valid() && Inv(c, s) && s.AllExited() && !s.cancelled
    ensures s.workClosed && s.rob.closed
  {
    assert s.workers[0].Exited?;
    forall x | 0 <= x < c.N()
      ensures x in s.rob.accepted
    {
      AllExitedMeansCommitted(c, s, x);
    }
    AllCommittedMeansClosed(c, s);
  }

  // ----- deadlock freedom -----

  /** Worker pc has received x, or a node that x is ordered after, and not executed it. */
  ghost predicate Delays(c: Config, pc: Worker, x: nat) {
    pc.Holding? && (pc.node == x || Path(c.Batch(), pc.node, x))
  }

  ghost predicate HeldUp(c: Config, s: State, x: nat) {
    exists w :: 0 <= w < |s.workers| && Delays(c, s.workers[w], x)
  }

  lemma HeldUpPassesOn(c: Config, s: State, i: nat, x: nat)
    requires HeldUp(c, s, i) && Edge(c.Batch(), i, x)
    ensures HeldUp(c, s, x)
  {
    var w :| 0 <= w < |s.workers| && Delays(c, s.workers[w], i);
    var node := s.workers[w].node;
    PathExact(c.Batch(), node, i);
    PathExact(c.Batch(), node, x);
    assert Delays(c, s.workers[w], x);
  }

  /** When the channel is empty and no worker does anything but wait or execute, only nodes held up by an
      execution are unfinished. */
  lemma {:induction false} NoStall(c: Config, s: State, x: nat)
    requires Typed(c, s) && Counted(c, s)
    requires forall w :: 0 <= w < |s.workers| ==> s.workers[w].Idle? || s.workers[w].Exited? || s.workers[w].Holding?
    requires s.workCh == [] && x < c.N() && !HeldUp(c, s, x)
    ensures x in s.finished && x in s.completed
    decreases x
  {
    TallyNone(c, Active, s.workers, x);
    forall w | 0 <= w < |s.workers|
      ensures Share(c, Ready, s.workers[w], x) == 0
    {
      assert !Delays(c, s.workers[w], x);
    }
    TallyNone(c, Ready, s.workers, x);
    TallyNone(c, Owed, s.workers, x);
    assert Balanced(c, s, x);
    if x !in s.completed {
      var i := UnexecutedFrom(c, s.completed.Keys, c.N(), x);
      if HeldUp(c, s, i) {
        HeldUpPassesOn(c, s, i, x);
      }
      NoStall(c, s, i);
    }
  }

  lemma QueueWouldBeClosed(c: Config, s: State)
    requires Typed(c, s) && Counted(c, s)
    requires forall w :: 0 <= w < |s.workers| ==> s.workers[w].Idle? || s.workers[w].Exited?
    requires s.workCh == []
    ensures s.workClosed
  {
    forall x | x in Positions(c.N())
      ensures x in s.finished
    {
      NoStall(c, s, x);
    }
    SubsetCount(Positions(c.N()), s.finished);
    forall x | x in s.finished
      ensures x in Positions(c.N())
    {
      assert Balanced(c, s, x);
    }
    SubsetCount(s.finished, Positions(c.N()));
    TallyNone(c, Closers, s.workers, 0);
  }

  /** Distinct elements below n, one position missing: fewer than n of them. */
  lemma {:induction false} DistinctBelow(q: seq<nat>, s: set<nat>)
    requires forall x: nat :: multiset(q)[x] <= One(x in s)
    ensures |q| <= |s|
  {
    if q != [] {
      assert q == [q[0]] + q[1..];
      assert q[0] in multiset(q);
      forall x: nat
        ensures multiset(q[1..])[x] <= One(x in s - {q[0]})
      {
        assert multiset(q)[x] <= One(x in s);
      }
      DistinctBelow(q[1..], s - {q[0]});
    }
  }

  /** A worker about to push always finds room in the work channel. */
  lemma RoomToPush(c: Config, s: State, w: nat)
    requires Typed(c, s) && Counted(c, s) && s.Has(w) && s.At(w).Pushing?
    ensures |s.workCh| < c.N()
  {
    var i := s.At(w).node;
    forall x: nat
      ensures multiset(s.workCh)[x] <= One(x in Positions(c.N()) - {i})
    {
      assert Balanced(c, s, x);
      if x == i {
        TallyHas(c, Active, s.workers, w, i);
      }
    }
    DistinctBelow(s.workCh, Positions(c.N()) - {i});
  }

  predicate Busy(pc: Worker) {
    !pc.Idle? && !pc.Exited?
  }

  /** A worker that is not waiting for the lock can take a step; sending may need cancellation or the handler. */
  lemma LockFreeWorkerMoves(c: Config, s: State, w: nat) returns (step: Step)
    requires c.Valid() && Inv(c, s) && s.Has(w) && Busy(s.At(w)) && !s.At(w).Committing?
    ensures Enabled(c, s, step) && !step.Cancel?
    ensures step.ByWorker() && step.w == w
  {
    match s.At(w)
    case Holding(_) => step := Execute(w);
    case Releasing(node, next, _) => step := if next < |c.Deps(node)| then Decrement(w) else PublishDone(w);
    case Flushing(_, _) => step := if s.rob.HeadReady() then TakeHead(w) else Unlock(w);
    case Sending(_, _, _) => step := if s.handler.Receiving? then Send(w) else Abandon(w);
    case Pushing(_, newly) =>
      RoomToPush(c, s, w);
      step := if newly != [] then Push(w) else EndPushing(w);
    case Finishing(_) => step := CountDown(w);
    case ClosingWork => step := CloseWork(w);
  }

  lemma BusyWorkerMoves(c: Config, s: State, w: nat) returns (step: Step)
    requires c.Valid() && Inv(c, s) && s.Has(w) && Busy(s.At(w))
    ensures Enabled(c, s, step) && !step.Cancel?
  {
    if s.At(w).Committing? {
      CommittingIsNew(c, s, w);
      if s.lock == None {
        step := LockAndStore(w);
      } else {
        step := LockFreeWorkerMoves(c, s, s.lock.value);
      }
    } else {
      step := LockFreeWorkerMoves(c, s, w);
    }
  }

  /** Deadlock freedom: short of the end, some step other than cancellation is enabled. */
  lemma Progress(c: Config, s: State) returns (step: Step)
    requires c.Valid() && Inv(c, s) && !Terminal(s)
    ensures Enabled(c, s, step) && !step.Cancel?
  {
    if w: nat :| w < |s.workers| && Busy(s.workers[w]) {
      step := BusyWorkerMoves(c, s, w);
    } else if w: nat :| w < |s.workers| && s.workers[w].Idle? {
      if s.workCh != [] {
        step := Recv(w);
      } else {
        QueueWouldBeClosed(c, s);
        step := SeeWorkClosed(w);
      }
    } else {
      assert s.AllExited();
      if s.run.Running? {
        step := ReturnRun;
      } else if s.handler.AwaitingRun? {
        step := Respond;
      } else if s.cancelled {
        step := GiveUp;
      } else {
        AllExitedMeansDelivered(c, s);
        step := SeeOutClosed;
      }
    }
  }

  // ----- termination -----

  function NodeWork(c: Config, executed: set<nat>, n: nat): nat {
    if n == 0 then 0
    else NodeWork(c, executed, n - 1) + if n - 1 in executed then 0 else 8 + 4 * |c.Deps(n - 1)|
  }

  lemma {:induction false} NodeWorkDrops(c: Config, executed: set<nat>, n: nat, i: nat)
    requires i !in executed
    ensures NodeWork(c, executed + {i}, n) + (if i < n then 8 + 4 * |c.Deps(i)| else 0) == NodeWork(c, executed, n)
  {
    if n > 0 {
      NodeWorkDrops(c, executed, n - 1, i);
    }
  }

  function HandlerWork(h: Handler): nat {
    if h.Receiving? then 2 else if h.AwaitingRun? then 1 else 0
  }

  /** An upper bound on the number of steps still possible. */
  function Measure(c: Config, s: State): nat {
    NodeWork(c, s.completed.Keys, c.N()) + Tally(c, Potential, s.workers, 0)
    + 2 * |s.workCh| + 2 * |s.rob.pending|
    + One(!s.cancelled) + One(s.run.Running?) + HandlerWork(s.handler)
  }

  lemma AddingGrows(m: map<nat, Operation>, k: nat, op: Operation)
    ensures |m[k := op]| <= |m| + 1
  {
    assert m[k := op].Keys == m.Keys + {k};
    assert |m.Keys + {k}| <= |m.Keys| + 1;
  }

  lemma ExecutedLowers(c: Config, s: State, w: nat, i: nat, t: State)
    requires Executed(c, s, w, i, t) && i !in s.completed
    ensures Measure(c, t) < Measure(c, s)
  {
    TallyMoves(c, Potential, s.workers, w, Releasing(i, 0, []), 0);
    NodeWorkDrops(c, s.completed.Keys, c.N(), i);
  }

  lemma ExecuteLowers(c: Config, s: State, w: nat)
    requires Typed(c, s) && Counted(c, s) && Enabled(c, s, Execute(w))
    ensures Measure(c, Next(c, s, Execute(w))) < Measure(c, s)
  {
    var t := Next(c, s, Execute(w));
    HeldIsReady(c, s, w);
    assert t.completed.Keys == s.completed.Keys + {s.At(w).node};
    ExecutedLowers(c, s, w, s.At(w).node, t);
  }

  lemma MoveLowers(c: Config, s: State, t: State, w: nat, to: Worker)
    requires Moves(s, t, w, to) && t.completed.Keys == s.completed.Keys
    requires t.cancelled == s.cancelled && t.run == s.run && t.handler == s.handler
    requires Work(c, to) + 2 * |t.workCh| + 2 * |t.rob.pending|
               < Work(c, s.workers[w]) + 2 * |s.workCh| + 2 * |s.rob.pending|
    ensures Measure(c, t) < Measure(c, s)
  {
    TallyMoves(c, Potential, s.workers, w, to, 0);
  }

  lemma CommitStepLowers(c: Config, s: State, w: nat, step: Step)
    requires Enabled(c, s, step)
    requires step in {LockAndStore(w), TakeHead(w), Send(w), Abandon(w), Unlock(w)}
    ensures Measure(c, Next(c, s, step)) < Measure(c, s)
  {
    var t := Next(c, s, step);
    if step.LockAndStore? {
      AddingGrows(s.rob.pending, s.completed[s.At(w).node].seqId, s.completed[s.At(w).node]);
    } else if step.TakeHead? {
      RemovingShrinks(s.rob.pending, s.rob.nextExpected);
    }
    MoveLowers(c, s, t, w, t.workers[w]);
  }

  lemma WorkerStepLowers(c: Config, s: State, w: nat, step: Step)
    requires Enabled(c, s, step)
    requires step in {Recv(w), SeeWorkClosed(w), SeeCancelled(w), Decrement(w), PublishDone(w),
                      Push(w), EndPushing(w), CountDown(w), CloseWork(w)}
    ensures Measure(c, Next(c, s, step)) < Measure(c, s)
  {
    var t := Next(c, s, step);
    MoveLowers(c, s, t, w, t.workers[w]);
  }

  lemma OutsideStepLowers(c: Config, s: State, step: Step)
    requires Enabled(c, s, step)
    requires step.Cancel? || step.ReturnRun? || step.SeeOutClosed? || step.GiveUp? || step.Respond?
    ensures Measure(c, Next(c, s, step)) < Measure(c, s)
  {
  }

  /** Every step, cancellation included, lowers the measure. */
  lemma StepLowers(c: Config, s: State, step: Step)
    requires c.Valid() && Inv(c, s) && Enabled(c, s, step)
    ensures Measure(c, Next(c, s, step)) < Measure(c, s)
  {
    match step
    case Execute(w) => ExecuteLowers(c, s, w);
    case LockAndStore(w) => CommitStepLowers(c, s, w, step);
    case TakeHead(w) => CommitStepLowers(c, s, w, step);
    case Send(w) => CommitStepLowers(c, s, w, step);
    case Abandon(w) => CommitStepLowers(c, s, w, step);
    case Unlock(w) => CommitStepLowers(c, s, w, step);
    case Cancel => OutsideStepLowers(c, s, step);
    case ReturnRun => OutsideStepLowers(c, s, step);
    case SeeOutClosed => OutsideStepLowers(c, s, step);
    case GiveUp => OutsideStepLowers(c, s, step);
    case Respond => OutsideStepLowers(c, s, step);
    case _ => WorkerStepLowers(c, s, step.w, step);
  }

  lemma {:induction false} RunIsBounded(c: Config, s: State, steps: seq<Step>, t: State)
    requires c.Valid() && Inv(c, s) && Run(c, s, steps, t)
    ensures |steps| + Measure(c, t) <= Measure(c, s)
    decreases |steps|
  {
    if steps != [] {
      StepKeeps(c, s, steps[0]);
      StepLowers(c, s, steps[0]);
      RunIsBounded(c, Next(c, s, steps[0]), steps[1..], t);
    }
  }
}
