/** What holds of every run of the pool, for every batch, number of workers and interleaving. */
module PoolTheorems {
  import opened Operations
  import opened Hazards
  import opened WorkerPool
  import opened PoolInvariant
  import opened PoolSteps
  import opened PoolProgress

  // ----- serial equivalence -----

  /** In every reachable state, cancelled or not: the executed operations are closed under hazard
      predecessors, the store is that of the executed operations in SeqID order, every result written is
      the sequential one, and the output so far is a gap-free prefix of the sequential answers. */
  lemma SerialEquivalenceAlways(c: Config, s: State)
    requires c.Valid() && Reachable(c, s)
    ensures ClosedUnderPredecessors(c.Batch(), s.completed.Keys)
    ensures s.store == c.job.Partial(s.completed.Keys, c.N())
    ensures forall i :: i in s.completed ==> i < c.N() && s.completed[i] == c.job.SerialAnswer(i)
    ensures |s.rob.out| <= c.N() && forall k :: 0 <= k < |s.rob.out| ==> s.rob.out[k] == c.job.SerialAnswer(k)
  {
    ReachableHolds(c, s);
    ExecutedIsClosed(c, s);
  }

  /** If Run returns nil, every operation has its sequential result and the store is the sequential one. */
  lemma SerialEquivalenceAtEnd(c: Config, s: State)
    requires c.Valid() && Reachable(c, s) && s.run.ReturnedNil?
    ensures forall i :: 0 <= i < c.N() ==> i in s.completed && s.completed[i] == c.job.SerialAnswer(i)
    ensures s.store == c.job.Serial(c.N())
  {
    ReachableHolds(c, s);
    forall i | 0 <= i < c.N()
      ensures i in s.completed
    {
      ClosedMeansFinished(c, s, i);
    }
    FullIsSerial(c.job, s.completed.Keys, c.N());
  }

  /** Whenever the output channel is closed, cancelled or not, the whole batch has been executed and sent. */
  lemma ClosedOutputIsComplete(c: Config, s: State)
    requires c.Valid() && Reachable(c, s) && s.rob.closed
    ensures |s.rob.out| == c.N() && forall k :: 0 <= k < c.N() ==> s.rob.out[k] == c.job.SerialAnswer(k)
    ensures s.store == c.job.Serial(c.N())
  {
    ReachableHolds(c, s);
    FullIsSerial(c.job, s.completed.Keys, c.N());
  }

  /** When the handler is waiting for Run to return, and so also when it answers 500 because of Run's
      error, the whole batch has been executed and received all the same. */
  lemma DrainedIsComplete(c: Config, s: State)
    requires c.Valid() && Reachable(c, s) && (s.handler.AwaitingRun? || s.handler.Responded500?)
    ensures |s.rob.out| == c.N() && forall k :: 0 <= k < c.N() ==> s.rob.out[k] == c.job.SerialAnswer(k)
    ensures s.store == c.job.Serial(c.N())
  {
    ReachableHolds(c, s);
    ClosedOutputIsComplete(c, s);
  }

  /** Whenever the handler answers 200, it has received all answers in SeqID order, and they and the
      store are the sequential ones. */
  lemma Answer200(c: Config, s: State)
    requires c.Valid() && Reachable(c, s) && s.handler.Responded200?
    ensures |s.rob.out| == c.N() && forall k :: 0 <= k < c.N() ==> s.rob.out[k] == c.job.SerialAnswer(k)
    ensures s.store == c.job.Serial(c.N())
  {
    ReachableHolds(c, s);
    ClosedOutputIsComplete(c, s);
  }

  /** Results and store depend on neither the schedule nor the number of workers. */
  lemma ScheduleIrrelevant(c: Config, s: State, c': Config, s': State)
    requires c.Valid() && Reachable(c, s) && c'.Valid() && Reachable(c', s') && c.job == c'.job
    requires s.handler.Responded200? && s'.handler.Responded200?
    ensures s.rob.out == s'.rob.out && s.store == s'.store
  {
    Answer200(c, s);
    Answer200(c', s');
  }

  // ----- deadlock freedom and termination -----

  /** In every reachable state in which something is left to do, some step other than cancelling is enabled. */
  lemma DeadlockFree(c: Config, s: State)
    requires c.Valid() && Reachable(c, s) && !Terminal(s)
    ensures exists step :: Enabled(c, s, step) && !step.Cancel?
  {
    ReachableHolds(c, s);
    var step := Progress(c, s);
  }

  /** Only cancellation could still happen. */
  ghost predicate Stuck(c: Config, s: State) {
    forall step :: Enabled(c, s, step) ==> step.Cancel?
  }

  /** No run is longer than the measure of its first state. */
  lemma {:induction false} EveryRunIsFinite(c: Config, steps: seq<Step>, s: State)
    requires c.Valid() && Run(c, Init(c), steps, s)
    ensures |steps| <= Measure(c, Init(c))
  {
    InitHolds(c);
    RunIsBounded(c, Init(c), steps, s);
  }

  /** A run that can go no further has ended properly, cancelled or not: no goroutine is left. Uncancelled,
      every operation is finished, the work channel is closed and the handler has answered 200. */
  lemma EveryRunEnds(c: Config, s: State)
    requires c.Valid() && Reachable(c, s) && Stuck(c, s)
    ensures Terminal(s)
    ensures !s.cancelled ==> s.workClosed && s.handler.Responded200? && forall i :: 0 <= i < c.N() ==> i in s.finished
  {
    ReachableHolds(c, s);
    if !Terminal(s) {
      var step := Progress(c, s);
    }
    if !s.cancelled {
      AllExitedMeansDelivered(c, s);
      NilUnlessCancelled(c, s);
      forall i | 0 <= i < c.N()
        ensures i in s.finished
      {
        ClosedMeansFinished(c, s, i);
      }
    }
  }

  /** Run reports an error only after a cancellation. */
  lemma NilUnlessCancelled(c: Config, s: State)
    requires c.Valid() && Reachable(c, s)
    ensures s.run.ReturnedErr? || s.handler.Responded500? ==> s.cancelled
  {
    var steps :| Run(c, Init(c), steps, s);
    ErrorNeedsCancel(c, Init(c), steps, s);
  }

  /** There is no error without a cancellation. */
  ghost predicate ErrorsCancelled(s: State) {
    s.run.ReturnedErr? || s.handler.Responded500? ==> s.cancelled
  }

  lemma StepErrorsCancelled(c: Config, s: State, step: Step)
    requires ErrorsCancelled(s) && Enabled(c, s, step)
    ensures ErrorsCancelled(Next(c, s, step))
  {
  }

  lemma {:induction false} ErrorNeedsCancel(c: Config, s: State, steps: seq<Step>, t: State)
    requires Run(c, s, steps, t) && ErrorsCancelled(s)
    ensures ErrorsCancelled(t)
    decreases |steps|
  {
    if steps != [] {
      StepErrorsCancelled(c, s, steps[0]);
      ErrorNeedsCancel(c, Next(c, s, steps[0]), steps[1..], t);
    }
  }

  /** In these steps, starting with this cancelled flag, Run returns, and the context is done by then. */
  predicate ReturnsCancelled(steps: seq<Step>, cancelled: bool) {
    exists j :: 0 <= j < |steps| && steps[j].ReturnRun? && (cancelled || exists i :: 0 <= i < j && steps[i].Cancel?)
  }

  /** Run returns the context's error exactly if the context was done when it returned, and nil exactly if
      it returned before that; and the handler answers 200 or 500 accordingly. */
  lemma {:induction false} ReturnExactly(c: Config, steps: seq<Step>, s: State)
    requires c.Valid() && Run(c, Init(c), steps, s)
    ensures s.run.ReturnedErr? <==> ReturnsCancelled(steps, false)
    ensures s.run.Running? <==> forall j :: 0 <= j < |steps| ==> !steps[j].ReturnRun?
    ensures s.handler.Responded200? ==> s.run.ReturnedNil?
    ensures s.handler.Responded500? ==> s.run.ReturnedErr?
  {
    ReturnAlong(c, Init(c), steps, s);
  }

  ghost predicate AnswerFits(s: State) {
    && (s.handler.Responded200? ==> s.run.ReturnedNil?)
    && (s.handler.Responded500? ==> s.run.ReturnedErr?)
  }

  lemma ReturnStepFits(c: Config, s: State, step: Step)
    requires AnswerFits(s) && Enabled(c, s, step)
    ensures var t := Next(c, s, step);
            && AnswerFits(t) && (t.cancelled <==> s.cancelled || step.Cancel?)
            && (step.ReturnRun? ==> s.run.Running? && t.run == if s.cancelled then ReturnedErr else ReturnedNil)
            && (!step.ReturnRun? ==> t.run == s.run)
  {
  }

  lemma {:induction false} ReturnAlong(c: Config, s: State, steps: seq<Step>, t: State)
    requires Run(c, s, steps, t) && AnswerFits(s)
    ensures AnswerFits(t)
    ensures t.run.ReturnedErr? <==> s.run.ReturnedErr? || (s.run.Running? && ReturnsCancelled(steps, s.cancelled))
    ensures t.run.Running? <==> s.run.Running? && forall j :: 0 <= j < |steps| ==> !steps[j].ReturnRun?
    decreases |steps|
  {
    if steps != [] {
      var next, rest := Next(c, s, steps[0]), steps[1..];
      ReturnStepFits(c, s, steps[0]);
      ReturnAlong(c, next, rest, t);
      RestReturns(steps, s.cancelled);
      if steps[0].ReturnRun? && !s.cancelled {
        FirstReturn(c, next, rest, t);
      }
      assert forall j :: 0 <= j < |rest| ==> rest[j] == steps[j+1];
    }
  }

  /** Run returns only once. */
  lemma {:induction false} FirstReturn(c: Config, s: State, steps: seq<Step>, t: State)
    requires Run(c, s, steps, t) && !s.run.Running?
    ensures forall j :: 0 <= j < |steps| ==> !steps[j].ReturnRun?
    decreases |steps|
  {
    if steps != [] {
      RunStaysReturned(c, s, steps[0]);
      FirstReturn(c, Next(c, s, steps[0]), steps[1..], t);
    }
  }

  lemma RunStaysReturned(c: Config, s: State, step: Step)
    requires Enabled(c, s, step) && !s.run.Running?
    ensures !step.ReturnRun? && !Next(c, s, step).run.Running?
  {
  }

  lemma RestReturns(steps: seq<Step>, cancelled: bool)
    requires steps != []
    ensures ReturnsCancelled(steps, cancelled) <==>
            (steps[0].ReturnRun? && cancelled) || ReturnsCancelled(steps[1..], cancelled || steps[0].Cancel?)
  {
    var rest := steps[1..];
    if ReturnsCancelled(steps, cancelled) {
      var j :| 0 <= j < |steps| && steps[j].ReturnRun? &&
        (cancelled || exists i :: 0 <= i < j && steps[i].Cancel?);
      if j > 0 {
        assert rest[j-1] == steps[j];
        if i :| 0 < i < j && steps[i].Cancel? {
          assert rest[i-1] == steps[i];
        }
      }
    }
    if ReturnsCancelled(rest, cancelled || steps[0].Cancel?) {
      var j :| 0 <= j < |rest| && rest[j].ReturnRun? &&
        (cancelled || steps[0].Cancel? || exists i :: 0 <= i < j && rest[i].Cancel?);
      assert steps[j+1] == rest[j];
      if i :| 0 <= i < j && rest[i].Cancel? {
        assert steps[i+1] == rest[i];
      }
    }
  }

  lemma {:induction false} RunAppends(c: Config, s: State, first: seq<Step>, t: State, second: seq<Step>, u: State)
    requires Run(c, s, first, t) && Run(c, t, second, u)
    ensures Run(c, s, first + second, u)
    decreases |first|
  {
    if first == [] {
      assert first + second == second;
    } else {
      RunAppends(c, Next(c, s, first[0]), first[1..], t, second, u);
      assert (first + second)[0] == first[0] && (first + second)[1..] == first[1..] + second;
    }
  }

  lemma StartIsReachable(c: Config)
    ensures Reachable(c, Init(c))
  {
    assert Run(c, Init(c), [], Init(c));
  }

  lemma StepIsReachable(c: Config, s: State, step: Step)
    requires Reachable(c, s) && Enabled(c, s, step)
    ensures Reachable(c, Next(c, s, step))
  {
    var t := Next(c, s, step);
    var steps :| Run(c, Init(c), steps, s);
    assert Run(c, t, [], t);
    assert Run(c, s, [step], t) by {
      assert [step][1..] == [];
    }
    RunAppends(c, Init(c), steps, s, [step], t);
  }

  lemma {:induction false} RunToEnd(c: Config, s: State) returns (steps: seq<Step>, t: State)
    requires c.Valid() && Inv(c, s) && !s.cancelled
    ensures Run(c, s, steps, t) && Terminal(t) && !t.cancelled
    decreases Measure(c, s)
  {
    if Terminal(s) {
      steps, t := [], s;
    } else {
      var step := Progress(c, s);
      StepKeeps(c, s, step);
      StepLowers(c, s, step);
      var rest;
      rest, t := RunToEnd(c, Next(c, s, step));
      steps := [step] + rest;
      assert steps[1..] == rest;
    }
  }

  /** Every reachable uncancelled state can be continued to one in which the handler has answered 200. */
  lemma Answer200StaysPossible(c: Config, s: State) returns (steps: seq<Step>, t: State)
    requires c.Valid() && Reachable(c, s) && !s.cancelled
    ensures Run(c, s, steps, t) && Reachable(c, t) && t.handler.Responded200?
  {
    var before :| Run(c, Init(c), before, s);
    ReachableHolds(c, s);
    steps, t := RunToEnd(c, s);
    RunAppends(c, Init(c), before, s, steps, t);
    ReachableHolds(c, t);
    NilUnlessCancelled(c, t);
  }

  // ----- conservation -----

  /** How often x occurs with a worker: as the node it holds, or in its newlyRunnable. */
  function WithWorker(pc: Worker, x: nat): nat {
    One((pc.Holding? && pc.node == x) || IsActive(pc, x)) + multiset(Newly(pc))[x]
  }

  function WithWorkers(ws: seq<Worker>, x: nat): nat {
    if ws == [] then 0 else WithWorker(ws[0], x) + WithWorkers(ws[1..], x)
  }

  lemma {:induction false} WithWorkersIsTally(c: Config, ws: seq<Worker>, x: nat)
    ensures WithWorkers(ws, x) == Tally(c, Ready, ws, x) + Tally(c, Active, ws, x)
  {
    if ws != [] {
      WithWorkersIsTally(c, ws[1..], x);
    }
  }

  /** Every node is in exactly one place: waiting for predecessors, in the channel, with one worker, or
      finished; and `remaining` counts those whose final decrement has not happened. */
  lemma {:induction false} Conservation(c: Config, s: State, x: nat)
    requires c.Valid() && Reachable(c, s) && x < c.N()
    ensures |s.inDegree| == c.N()
    ensures One(s.inDegree[x] > 0) + multiset(s.workCh)[x] + WithWorkers(s.workers, x) + One(x in s.finished) == 1
    ensures s.remaining == c.N() - |s.finished|
  {
    ReachableHolds(c, s);
    WithWorkersIsTally(c, s.workers, x);
    assert Balanced(c, s, x);
  }

  predicate Executes(s: State, step: Step, x: nat) {
    step.Execute? && s.Has(step.w) && s.At(step.w).Holding? && s.At(step.w).node == x
  }

  /** How often a run executes x. */
  function Executions(c: Config, s: State, steps: seq<Step>, x: nat): nat
    decreases |steps|
  {
    if steps == [] || !Enabled(c, s, steps[0]) then 0
    else One(Executes(s, steps[0], x)) + Executions(c, Next(c, s, steps[0]), steps[1..], x)
  }

  lemma ExecutionStep(c: Config, s: State, step: Step, x: nat)
    requires c.Valid() && Inv(c, s) && Enabled(c, s, step)
    ensures One(x in s.completed) + One(Executes(s, step, x)) == One(x in Next(c, s, step).completed)
  {
    if step.Execute? {
      HeldIsReady(c, s, step.w);
    }
  }

  lemma {:induction false} ExecutionsCount(c: Config, s: State, steps: seq<Step>, t: State, x: nat)
    requires c.Valid() && Inv(c, s) && Run(c, s, steps, t)
    ensures One(x in s.completed) + Executions(c, s, steps, x) == One(x in t.completed)
    decreases |steps|
  {
    if steps != [] {
      ExecutionStep(c, s, steps[0], x);
      StepKeeps(c, s, steps[0]);
      ExecutionsCount(c, Next(c, s, steps[0]), steps[1..], t, x);
    }
  }

  /** No run executes an operation twice; one after which Run returned nil executed each exactly once. */
  lemma {:induction false} ExecutedOnce(c: Config, steps: seq<Step>, s: State, x: nat)
    requires c.Valid() && Run(c, Init(c), steps, s) && x < c.N()
    ensures Executions(c, Init(c), steps, x) <= 1
    ensures s.run.ReturnedNil? ==> Executions(c, Init(c), steps, x) == 1
  {
    InitHolds(c);
    ExecutionsCount(c, Init(c), steps, s, x);
    if s.run.ReturnedNil? {
      SerialEquivalenceAtEnd(c, s);
    }
  }

  // ----- release -----

  /** This step is the decrement that brings x to zero, so its Release returns x. */
  predicate Returns(c: Config, s: State, step: Step, x: nat) {
    Enabled(c, s, step) && step.Decrement? &&
    var pc := s.At(step.w);
    c.Deps(pc.node)[pc.next] == x && s.inDegree[x] == 1
  }

  /** How often a run's Release calls return x. */
  function ReturnCount(c: Config, s: State, steps: seq<Step>, x: nat): nat
    decreases |steps|
  {
    if steps == [] || !Enabled(c, s, steps[0]) then 0
    else One(Returns(c, s, steps[0], x)) + ReturnCount(c, Next(c, s, steps[0]), steps[1..], x)
  }

  lemma ReturnStep(c: Config, s: State, step: Step, x: nat)
    requires c.Valid() && Inv(c, s) && Enabled(c, s, step) && x < c.N()
    ensures |s.inDegree| == |Next(c, s, step).inDegree| == c.N()
    ensures One(s.inDegree[x] > 0) == One(Returns(c, s, step, x)) + One(Next(c, s, step).inDegree[x] > 0)
    ensures Returns(c, s, step, x) ==> forall i :: i in Predecessors(c.Batch(), x) ==> i in s.completed
  {
    var t := Next(c, s, step);
    StepKeeps(c, s, step);
    assert Balanced(c, s, x);
    assert Balanced(c, t, x);
    if Returns(c, s, step, x) {
      forall i | i in Predecessors(c.Batch(), x)
        ensures i in s.completed
      {
        ZeroMeansExecuted(c, t, i, x);
      }
    }
  }

  lemma {:induction false} ReturnsCount(c: Config, s: State, steps: seq<Step>, t: State, x: nat)
    requires c.Valid() && Inv(c, s) && Run(c, s, steps, t) && x < c.N()
    ensures |t.inDegree| == c.N()
    ensures One(s.inDegree[x] > 0) == ReturnCount(c, s, steps, x) + One(t.inDegree[x] > 0)
    decreases |steps|
  {
    if steps != [] {
      ReturnStep(c, s, steps[0], x);
      StepKeeps(c, s, steps[0]);
      ReturnsCount(c, Next(c, s, steps[0]), steps[1..], t, x);
    }
  }

  /** Over a whole run, the Release calls return a root never, and any other node exactly once if it ever
      became runnable, else not at all. */
  lemma {:induction false} ReleasedOnce(c: Config, steps: seq<Step>, s: State, x: nat)
    requires c.Valid() && Run(c, Init(c), steps, s) && x < c.N()
    ensures |s.inDegree| == c.N()
    ensures ReturnCount(c, Init(c), steps, x) == One(Predecessors(c.Batch(), x) != {} && s.inDegree[x] == 0)
  {
    InitHolds(c);
    ReturnsCount(c, Init(c), steps, s, x);
    RunKeeps(c, Init(c), steps, s);
    assert Balanced(c, s, x);
  }

  /** Worker pc is in the Release loop of some node and has x still ahead. */
  ghost predicate Owes(c: Config, pc: Worker, x: nat) {
    pc.Releasing? && pc.next <= |c.Deps(pc.node)| && x in c.Deps(pc.node)[pc.next..]
  }

  /** The predecessors of x whose Release loop has not reached x. */
  ghost function Unreleased(c: Config, s: State, x: nat): set<nat> {
    set i: nat | i < c.N() && Edge(c.Batch(), i, x) &&
      (i !in s.completed || exists w :: 0 <= w < |s.workers| && Owes(c, s.workers[w], x) && s.workers[w].node == i)
  }

  ghost function OwingNodes(c: Config, ws: seq<Worker>, x: nat): set<nat> {
    set w | 0 <= w < |ws| && Owes(c, ws[w], x) :: ws[w].node
  }

  ghost predicate HoldersDiffer(ws: seq<Worker>) {
    forall w, v :: 0 <= w < v < |ws| && ws[w].Releasing? && ws[v].Releasing? ==> ws[w].node != ws[v].node
  }

  lemma {:induction false} TallyTwo(c: Config, k: Kind, ws: seq<Worker>, w: nat, v: nat, x: nat)
    requires w < v < |ws|
    ensures Share(c, k, ws[w], x) + Share(c, k, ws[v], x) <= Tally(c, k, ws, x)
  {
    if w == 0 {
      TallyHas(c, k, ws[1..], v - 1, x);
    } else {
      TallyTwo(c, k, ws[1..], w - 1, v - 1, x);
    }
  }

  lemma OwesShare(c: Config, pc: Worker, x: nat)
    ensures Share(c, Owed, pc, x) == One(Owes(c, pc, x))
    ensures Owes(c, pc, x) ==> Edge(c.Batch(), pc.node, x)
  {
    if pc.Releasing? && pc.next <= |c.Deps(pc.node)| {
      var deps := c.Deps(pc.node);
      assert deps == deps[..pc.next] + deps[pc.next..];
      DependentsOnce(c.Batch(), pc.node, c.N(), x);
      if Owes(c, pc, x) {
        assert x in multiset(deps[pc.next..]);
        assert x in deps;
      }
    }
  }

  lemma HoldersDifferInRest(ws: seq<Worker>)
    requires ws != [] && HoldersDiffer(ws)
    ensures HoldersDiffer(ws[1..])
    ensures ws[0].Releasing? ==> forall w :: 0 < w < |ws| && ws[w].Releasing? ==> ws[w].node != ws[0].node
  {
    var rest := ws[1..];
    forall w, v | 0 <= w < v < |rest| && rest[w].Releasing? && rest[v].Releasing?
      ensures rest[w].node != rest[v].node
    {
      assert ws[w+1].Releasing? && ws[v+1].Releasing?;
    }
  }

  lemma OwingSplits(c: Config, ws: seq<Worker>, x: nat)
    requires ws != []
    ensures OwingNodes(c, ws, x) == (if Owes(c, ws[0], x) then {ws[0].node} else {}) + OwingNodes(c, ws[1..], x)
  {
    var rest := ws[1..];
    forall i | i in OwingNodes(c, rest, x)
      ensures i in OwingNodes(c, ws, x)
    {
      var w :| 0 <= w < |rest| && Owes(c, rest[w], x) && rest[w].node == i;
      assert ws[w+1] == rest[w];
    }
    forall i | i in OwingNodes(c, ws, x)
      ensures (Owes(c, ws[0], x) && i == ws[0].node) || i in OwingNodes(c, rest, x)
    {
      var w :| 0 <= w < |ws| && Owes(c, ws[w], x) && ws[w].node == i;
      if w > 0 {
        assert rest[w-1] == ws[w];
      }
    }
  }

  /** The number of owing nodes grows by one with each worker that owes. */
  lemma OwingGrows(c: Config, ws: seq<Worker>, x: nat)
    requires ws != [] && HoldersDiffer(ws)
    ensures |OwingNodes(c, ws, x)| == One(Owes(c, ws[0], x)) + |OwingNodes(c, ws[1..], x)|
  {
    HoldersDifferInRest(ws);
    OwingSplits(c, ws, x);
  }

  lemma {:induction false} OwingCount(c: Config, ws: seq<Worker>, x: nat)
    requires HoldersDiffer(ws)
    ensures |OwingNodes(c, ws, x)| == Tally(c, Owed, ws, x)
  {
    if ws == [] {
      assert OwingNodes(c, ws, x) == {};
    } else {
      HoldersDifferInRest(ws);
      OwingCount(c, ws[1..], x);
      OwesShare(c, ws[0], x);
      OwingGrows(c, ws, x);
    }
  }

  /** In every reachable state the counter of a node is the number of its predecessors whose Release loop
      has not reached it. */
  lemma InDegreeIsUnreleased(c: Config, s: State, x: nat)
    requires c.Valid() && Reachable(c, s) && x < c.N()
    ensures |s.inDegree| == c.N() && s.inDegree[x] == |Unreleased(c, s, x)|
  {
    ReachableHolds(c, s);
    forall w, v | 0 <= w < v < |s.workers| && s.workers[w].Releasing? && s.workers[v].Releasing?
      ensures s.workers[w].node != s.workers[v].node
    {
      TallyTwo(c, Active, s.workers, w, v, s.workers[w].node);
      assert Balanced(c, s, s.workers[w].node);
    }
    OwingCount(c, s.workers, x);
    var unexecuted := set i: nat | i < c.N() && i !in s.completed && Edge(c.Batch(), i, x);
    UnexecutedCount(c, s.completed.Keys, c.N(), x, unexecuted);
    assert Balanced(c, s, x);
    UnreleasedSplits(c, s, x, unexecuted);
  }

  lemma UnreleasedSplits(c: Config, s: State, x: nat, unexecuted: set<nat>)
    requires Typed(c, s) && Counted(c, s)
    requires unexecuted == set i: nat | i < c.N() && i !in s.completed && Edge(c.Batch(), i, x)
    ensures unexecuted !! OwingNodes(c, s.workers, x)
    ensures Unreleased(c, s, x) == unexecuted + OwingNodes(c, s.workers, x)
  {
    forall i | i in OwingNodes(c, s.workers, x)
      ensures i in s.completed && i in Unreleased(c, s, x)
    {
      var w :| 0 <= w < |s.workers| && Owes(c, s.workers[w], x) && s.workers[w].node == i;
      ReleasingIsUndone(c, s, w);
      OwesShare(c, s.workers[w], x);
    }
  }

  // ----- the work channel -----

  /** The nodes that a run receives from the work channel, in order. */
  ghost function Received(c: Config, s: State, steps: seq<Step>): seq<nat>
    decreases |steps|
  {
    if steps == [] || !Enabled(c, s, steps[0]) then []
    else
      var rest := Received(c, Next(c, s, steps[0]), steps[1..]);
      if steps[0].Recv? then [Next(c, s, steps[0]).At(steps[0].w).node] + rest else rest
  }

  /** The nodes that a run sends on it, in order. */
  ghost function Sent(c: Config, s: State, steps: seq<Step>): seq<nat>
    decreases |steps|
  {
    if steps == [] || !Enabled(c, s, steps[0]) then []
    else
      var rest := Sent(c, Next(c, s, steps[0]), steps[1..]);
      if steps[0].Push? then [s.At(steps[0].w).newly[0]] + rest else rest
  }

  /** The channel is first in, first out: the roots and what was sent are what was received and what is
      still in the channel. */
  lemma {:induction false} FirstInFirstOut(c: Config, steps: seq<Step>, s: State)
    requires Run(c, Init(c), steps, s)
    ensures Roots(c.Batch(), c.N()) + Sent(c, Init(c), steps) == Received(c, Init(c), steps) + s.workCh
  {
    Flow(c, Init(c), steps, s);
  }

  lemma {:induction false} Flow(c: Config, s: State, steps: seq<Step>, t: State)
    requires Run(c, s, steps, t)
    ensures s.workCh + Sent(c, s, steps) == Received(c, s, steps) + t.workCh
    decreases |steps|
  {
    if steps != [] {
      var next := Next(c, s, steps[0]);
      Flow(c, next, steps[1..], t);
      FlowStep(c, s, steps[0]);
      if steps[0].Recv? {
        assert s.workCh + Sent(c, s, steps) == [s.workCh[0]] + (next.workCh + Sent(c, next, steps[1..]));
      } else if steps[0].Push? {
        assert s.workCh + Sent(c, s, steps) == next.workCh + Sent(c, next, steps[1..]);
      }
    }
  }

  lemma FlowStep(c: Config, s: State, step: Step)
    requires Enabled(c, s, step)
    ensures var t := Next(c, s, step);
            if step.Recv? then t.Has(step.w) && t.At(step.w) == Holding(s.workCh[0]) && t.workCh == s.workCh[1..]
            else if step.Push? then t.workCh == s.workCh + [s.At(step.w).newly[0]]
            else t.workCh == s.workCh
  {
  }

  /** No panic: nothing is sent on or closed after a close, and no done channel is closed twice. The
      work channel never holds more than its capacity, a worker about to push always finds room, and
      when the channel is closed it is empty, every node is finished and no worker has one. */
  lemma ChannelSafety(c: Config, s: State)
    requires c.Valid() && Reachable(c, s)
    ensures !s.panicked && |s.workCh| <= c.N()
    ensures forall w :: 0 <= w < |s.workers| && s.workers[w].Pushing? ==> |s.workCh| < c.N() && !s.workClosed
    ensures s.workClosed ==> s.workCh == [] && s.remaining == 0
    ensures forall x :: s.workClosed && 0 <= x < c.N() ==> x in s.finished && WithWorkers(s.workers, x) == 0
  {
    ReachableHolds(c, s);
    forall w | 0 <= w < |s.workers| && s.workers[w].Pushing?
      ensures |s.workCh| < c.N() && !s.workClosed
    {
      RoomToPush(c, s, w);
      ActiveMeansOpen(c, s, w);
    }
    forall x: nat
      ensures multiset(s.workCh)[x] <= One(x in Positions(c.N()))
    {
      assert Balanced(c, s, x);
    }
    DistinctBelow(s.workCh, Positions(c.N()));
    if s.workClosed {
      ClosedMeansEmpty(c, s);
      forall x | 0 <= x < c.N()
        ensures x in s.finished && WithWorkers(s.workers, x) == 0
      {
        ClosedMeansFinished(c, s, x);
        WithWorkersIsTally(c, s.workers, x);
      }
    }
  }

  // ----- the reorder buffer in the pool -----

  /** No send is under way although the head was taken: it was abandoned. */
  ghost predicate Abandoned(s: State) {
    s.rob.taken && forall w :: 0 <= w < |s.workers| ==> !s.workers[w].Sending?
  }

  lemma AbandonedStep(c: Config, s: State, step: Step)
    requires Locked(c, s) && Abandoned(s) && Enabled(c, s, step)
    ensures Abandoned(Next(c, s, step)) && Next(c, s, step).rob.out == s.rob.out
  {
    assert !s.rob.HeadReady();
  }

  lemma {:induction false} AbandonedStays(c: Config, s: State, steps: seq<Step>, t: State)
    requires c.Valid() && Inv(c, s) && Abandoned(s) && Run(c, s, steps, t)
    ensures Abandoned(t) && t.rob.out == s.rob.out && Inv(c, t)
    decreases |steps|
  {
    if steps != [] {
      StepKeeps(c, s, steps[0]);
      AbandonedStep(c, s, steps[0]);
      AbandonedStays(c, Next(c, s, steps[0]), steps[1..], t);
    }
  }

  /** Once a worker abandons a send, the output is frozen: whatever happens later, nothing more is emitted
      and the output channel is not closed. */
  lemma {:induction false} AbandonFreezesOutput(c: Config, s: State, w: nat, steps: seq<Step>, t: State)
    requires c.Valid() && Reachable(c, s) && Enabled(c, s, Abandon(w)) && Run(c, Next(c, s, Abandon(w)), steps, t)
    ensures t.rob.out == s.rob.out && !t.rob.closed
  {
    ReachableHolds(c, s);
    StepKeeps(c, s, Abandon(w));
    AbandonedStays(c, Next(c, s, Abandon(w)), steps, t);
  }

  // ----- failures and cancellation, where comments in the code promise something else -----

  /** In every reachable state, cancelled or not, an executed operation has an error exactly when its own
      storage call failed, whatever happened to the operations it depends on. */
  lemma FailuresStayLocal(c: Config, s: State, i: nat)
    requires c.Valid() && Reachable(c, s) && i < c.N() && i in s.completed && c.Batch()[i].Blank()
    ensures s.completed[i].err == c.job.Fault(i)
  {
    ReachableHolds(c, s);
    OwnErrorOnly(c.Batch()[i], c.job.Serial(i), c.job.Fault(i));
  }

  lemma OwnErrorOnly(op: Operation, store: Store, fault: Option<string>)
    requires op.Known() && op.Blank()
    ensures Answer(op, store, fault).err == fault
  {
  }

  /** What the comment promises: among the executed operations, an error spreads along every hazard edge. */
  ghost predicate ErrorsSpread(c: Config, s: State) {
    forall i, j :: Edge(c.Batch(), i, j) && i in s.completed && j in s.completed && s.completed[i].err.Some? ==>
      s.completed[j].err.Some?
  }

  /** Among the executed operations, the failing storage calls are closed under hazard edges. */
  ghost predicate FaultsSpread(c: Config, s: State) {
    forall i, j :: Edge(c.Batch(), i, j) && i in s.completed && j in s.completed && i in c.job.faults ==>
      j in c.job.faults
  }

  /** Errors spread to dependents exactly when the storage calls of those happen to fail as well. */
  lemma ErrorsSpreadExactly(c: Config, s: State)
    requires c.Valid() && Reachable(c, s) && forall i :: 0 <= i < c.N() ==> c.Batch()[i].Blank()
    ensures ErrorsSpread(c, s) <==> FaultsSpread(c, s)
  {
    forall i | 0 <= i < c.N() && i in s.completed
      ensures s.completed[i].err.Some? <==> i in c.job.faults
    {
      FailuresStayLocal(c, s, i);
    }
  }

  /** A write that fails, and a read that depends on it and succeeds. */
  lemma DependentOfFailedSucceeds(key: Key, value: Value, error: string)
    returns (c: Config, s: State)
    ensures c.Valid() && Reachable(c, s) && s.handler.Responded200? && |s.rob.out| == 2
    ensures Edge(c.Batch(), 0, 1) && s.rob.out[0].err == Some(error) && s.rob.out[1].err == None
  {
    var batch := [Operation(0, key, OpWrite, value, Nil, None), Operation(1, key, OpRead, Nil, Nil, None)];
    c := Config(Job(batch, map[0 := error], map[]), 1);
    StartIsReachable(c);
    var steps;
    steps, s := Answer200StaysPossible(c, Init(c));
    Answer200(c, s);
  }

  /** Cancelled or not, the output channel is closed exactly when the whole batch has been sent. So a
      cancellation does not close it. */
  lemma OutputClosedExactly(c: Config, s: State)
    requires c.Valid() && Reachable(c, s)
    ensures s.rob.closed <==> |s.rob.out| == c.N()
    ensures Enabled(c, s, Cancel) ==> (Next(c, s, Cancel).rob.closed <==> |s.rob.out| == c.N())
  {
    ReachableHolds(c, s);
  }

  /** After a cancellation, idle workers can all leave. */
  lemma {:induction false} AllLeave(c: Config, s: State, w: nat) returns (t: State)
    requires Reachable(c, s) && s.cancelled && w <= |s.workers|
    requires forall v :: 0 <= v < |s.workers| ==> if v < w then s.workers[v].Exited? else s.workers[v].Idle?
    ensures Reachable(c, t) && t == s.(workers := t.workers) && t.AllExited()
    decreases |s.workers| - w
  {
    if w == |s.workers| {
      t := s;
    } else {
      StepIsReachable(c, s, SeeCancelled(w));
      t := AllLeave(c, Next(c, s, SeeCancelled(w)), w + 1);
    }
  }

  /** Every batch has a cancelled run that ends with its output channel open for good: no goroutine is
      left to close it. */
  lemma CancelledAndOpen(c: Config) returns (s: State)
    requires c.Valid()
    ensures Reachable(c, s) && s.cancelled && Terminal(s) && !s.rob.closed
  {
    StartIsReachable(c);
    StepIsReachable(c, Init(c), Cancel);
    var left := AllLeave(c, Next(c, Init(c), Cancel), 0);
    StepIsReachable(c, left, ReturnRun);
    var returned := Next(c, left, ReturnRun);
    StepIsReachable(c, returned, GiveUp);
    s := Next(c, returned, GiveUp);
  }
}
