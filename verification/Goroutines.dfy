/** The goroutines of a batch on the heap: where each one is, with nodes for positions, and where each
    atomic action leads in the transition system. */
module Goroutines {
  import opened Operations
  import opened Storage
  import opened DagNodes
  import W = WorkerPool
  import PoolInvariant
  import PoolSteps
  import PoolProgress
  import PoolTheorems

  /** Where a worker goroutine is, with its local variables. `newly` is what is left of newlyRunnable. */
  datatype Thread =
    | Idle
    | Holding(node: DAGNode)
    | Releasing(node: DAGNode, next: nat, newly: seq<DAGNode>)
    | Committing(node: DAGNode, newly: seq<DAGNode>)
    | Flushing(node: DAGNode, newly: seq<DAGNode>)
    | Sending(node: DAGNode, newly: seq<DAGNode>, op: Operation)
    | Pushing(node: DAGNode, newly: seq<DAGNode>)
    | Finishing(node: DAGNode)
    | ClosingWork
    | Exited

  /** The node at a position. */
  ghost predicate Is(nodes: seq<DAGNode>, node: DAGNode, i: nat) {
    i < |nodes| && nodes[i] == node
  }

  /** The goroutine is where the transition system says, with nodes for positions. */
  ghost predicate Same(nodes: seq<DAGNode>, t: Thread, pc: W.Worker) {
    match t
    case Idle => pc.Idle?
    case Holding(node) => pc.Holding? && Is(nodes, node, pc.node)
    case Releasing(node, next, newly) =>
      pc.Releasing? && Is(nodes, node, pc.node) && next == pc.next && Points(nodes, newly, pc.newly)
    case Committing(node, newly) => pc.Committing? && Is(nodes, node, pc.node) && Points(nodes, newly, pc.newly)
    case Flushing(node, newly) => pc.Flushing? && Is(nodes, node, pc.node) && Points(nodes, newly, pc.newly)
    case Sending(node, newly, op) =>
      pc.Sending? && Is(nodes, node, pc.node) && Points(nodes, newly, pc.newly) && op == pc.op
    case Pushing(node, newly) => pc.Pushing? && Is(nodes, node, pc.node) && Points(nodes, newly, pc.newly)
    case Finishing(node) => pc.Finishing? && Is(nodes, node, pc.node)
    case ClosingWork => pc.ClosingWork?
    case Exited => pc.Exited?
  }

  ghost predicate ThreadsAre(nodes: seq<DAGNode>, threads: seq<Thread>, workers: seq<W.Worker>) {
    |threads| == |workers| && forall w :: 0 <= w < |threads| ==> Same(nodes, threads[w], workers[w])
  }

  /** No node but this one is at position i, and it is nowhere else. */
  ghost predicate Alone(nodes: seq<DAGNode>, i: nat) {
    forall j :: 0 <= j < |nodes| && j != i && i < |nodes| ==> nodes[j] != nodes[i]
  }

  /** The nodes are as the transition system says. */
  ghost predicate NodesAre(c: W.Config, nodes: seq<DAGNode>, inDegree: seq<int>, done: set<nat>, completed: map<nat,
                           Operation>)
    reads nodes
  {
    && |nodes| == c.N() == |inDegree| && (forall i: nat :: Alone(nodes, i))
    && (forall i {:trigger nodes[i].inDegree} {:trigger inDegree[i]} ::
          0 <= i < |nodes| ==> nodes[i].inDegree == inDegree[i])
    && (forall i {:trigger nodes[i].done} :: 0 <= i < |nodes| ==> (nodes[i].done <==> i in done))
    && (forall i {:trigger nodes[i].op} :: 0 <= i < |nodes| ==>
          nodes[i].op == if i in completed then completed[i] else c.Batch()[i])
    && (forall i {:trigger nodes[i].dependents} :: 0 <= i < |nodes| ==> Points(nodes, nodes[i].dependents, c.Deps(i)))
  }

  /** t is what the step makes of s. */
  ghost predicate Follows(c: W.Config, s: W.State, step: W.Step, t: W.State) {
    W.Enabled(c, s, step) && t == W.Next(c, s, step)
  }

  lemma StartNodes(c: W.Config, nodes: seq<DAGNode>)
    requires Wired(c.Batch(), nodes)
    ensures NodesAre(c, nodes, W.Init(c).inDegree, {}, map[])
  {
    var lists := Lists(c.Batch(), c.N());
    forall i | 0 <= i < |nodes|
      ensures Points(nodes, nodes[i].dependents, c.Deps(i))
    {
      assert Points(nodes, nodes[i].dependents, lists[i]);
    }
  }

  /** A send on the work channel neither panics nor finds the channel full; nor is it ever closed twice. */
  lemma NoPanic(c: W.Config, s: W.State, w: nat)
    requires c.Valid() && W.Reachable(c, s) && s.Has(w)
    ensures s.At(w).Pushing? ==> |s.workCh| < c.N() && !s.workClosed
    ensures s.At(w).ClosingWork? ==> !s.workClosed
    ensures s.At(w).Sending? ==> !s.rob.closed
    ensures s.At(w).Releasing? ==> s.At(w).node !in s.done
  {
    PoolTheorems.ChannelSafety(c, s);
    PoolSteps.ReachableHolds(c, s);
    if s.At(w).ClosingWork? {
      PoolInvariant.TallyHas(c, PoolInvariant.Closers, s.workers, w, 0);
    }
    if s.At(w).Releasing? {
      PoolSteps.ReleasingIsUndone(c, s, w);
    }
  }

  /** s is reachable, and the goroutines are where it says. */
  ghost predicate Tracked(c: W.Config, nodes: seq<DAGNode>, s: W.State, threads: seq<Thread>) {
    c.Valid() && W.Reachable(c, s) && ThreadsAre(nodes, threads, s.workers)
  }

  /** The step leads to t, with the goroutines as given. */
  ghost predicate Leads(c: W.Config, nodes: seq<DAGNode>, s: W.State, step: W.Step, t: W.State, threads: seq<Thread>) {
    Follows(c, s, step, t) && W.Reachable(c, t) && ThreadsAre(nodes, threads, t.workers)
  }

  lemma Lead(c: W.Config, nodes: seq<DAGNode>, s: W.State, threads: seq<Thread>, w: nat,
             step: W.Step, to: Thread)
    returns (t: W.State)
    requires Tracked(c, nodes, s, threads) && w < |threads| && W.Enabled(c, s, step)
    requires var n := W.Next(c, s, step);
             |n.workers| == |s.workers| && n.workers == s.workers[w := n.workers[w]] && Same(nodes, to, n.workers[w])
    ensures t == W.Next(c, s, step) && Leads(c, nodes, s, step, t, threads[w := to])
  {
    t := W.Next(c, s, step);
    PoolTheorems.StepIsReachable(c, s, step);
    ThreadMoves(nodes, threads, s.workers, w, to, t.workers[w]);
  }

  lemma ThreadMoves(nodes: seq<DAGNode>, threads: seq<Thread>, workers: seq<W.Worker>, w: nat,
                    t: Thread, pc: W.Worker)
    requires ThreadsAre(nodes, threads, workers) && w < |threads| && Same(nodes, t, pc)
    ensures ThreadsAre(nodes, threads[w := t], workers[w := pc])
  {
  }

  // ----- the select -----

  lemma RecvStep(c: W.Config, nodes: seq<DAGNode>, s: W.State, threads: seq<Thread>, w: nat,
                 workCh: seq<DAGNode>)
    returns (t: W.State)
    requires Tracked(c, nodes, s, threads) && w < |threads| && threads[w].Idle?
    requires Points(nodes, workCh, s.workCh) && workCh != []
    ensures Leads(c, nodes, s, W.Recv(w), t, threads[w := Holding(workCh[0])])
    ensures t == s.(workCh := t.workCh, workers := t.workers) && Points(nodes, workCh[1..], t.workCh)
  {
    assert Same(nodes, threads[w], s.workers[w]);
    t := Lead(c, nodes, s, threads, w, W.Recv(w), Holding(workCh[0]));
  }

  lemma ExitStep(c: W.Config, nodes: seq<DAGNode>, s: W.State, threads: seq<Thread>, w: nat,
                 step: W.Step)
    returns (t: W.State)
    requires Tracked(c, nodes, s, threads) && w < |threads| && threads[w].Idle?
    requires || (step == W.SeeCancelled(w) && s.cancelled)
             || (step == W.SeeWorkClosed(w) && s.workCh == [] && s.workClosed)
    ensures Leads(c, nodes, s, step, t, threads[w := Exited]) && t == s.(workers := t.workers)
  {
    assert Same(nodes, threads[w], s.workers[w]);
    t := Lead(c, nodes, s, threads, w, step, Exited);
  }

  // ----- executing and releasing -----

  /** What a worker that is about to execute knows, and where the step leads. */
  lemma ExecuteStep(c: W.Config, nodes: seq<DAGNode>, s: W.State, threads: seq<Thread>, w: nat)
    returns (t: W.State)
    requires Tracked(c, nodes, s, threads) && |nodes| == c.N() && w < |threads| && threads[w].Holding?
    ensures s.At(w).Holding? && Is(nodes, threads[w].node, s.At(w).node)
    ensures var i := s.At(w).node; i !in s.completed && c.Batch()[i].seqId == i
    ensures Leads(c, nodes, s, W.Execute(w), t, threads[w := Releasing(threads[w].node, 0, [])])
    ensures var i := s.At(w).node;
            t == s.(completed := s.completed[i := Answer(c.Batch()[i], s.store, c.job.Fault(i))],
                    store := Effect(c.Batch()[i], s.store, c.job.Fault(i)), workers := t.workers)
  {
    assert Same(nodes, threads[w], s.workers[w]);
    PoolSteps.ReachableHolds(c, s);
    PoolSteps.HeldIsReady(c, s, w);
    t := Lead(c, nodes, s, threads, w, W.Execute(w), Releasing(threads[w].node, 0, []));
  }

  method ExecuteNode(node: DAGNode, fault: Option<string>, storage: ShardedMap, ghost c: W.Config,
                     ghost nodes: seq<DAGNode>,
                     ghost i: nat, ghost inDegree: seq<int>, ghost done: set<nat>, ghost completed: map<nat, Operation>)
    requires NodesAre(c, nodes, inDegree, done, completed) && Is(nodes, node, i) && i !in completed && storage.Valid()
    modifies node`op, storage.shards
    ensures NodesAre(c, nodes, inDegree, done, completed[i := Answer(c.Batch()[i], old(storage.Contents()), fault)])
    ensures storage.Valid() && storage.Contents() == Effect(c.Batch()[i], old(storage.Contents()), fault)
  {
    assert Alone(nodes, i);
    node.Execute(fault, storage);
  }

  /** The thread after its decrement of the counter of `dep`. */
  function AfterDecrement(from: Thread, dep: DAGNode, zero: bool): Thread
    requires from.Releasing?
  {
    Releasing(from.node, from.next + 1, if zero then from.newly + [dep] else from.newly)
  }

  ghost predicate Lowered(inDegree: seq<int>, inDegree': seq<int>, d: nat) {
    d < |inDegree| && inDegree' == inDegree[d := inDegree[d] - 1]
  }

  lemma DecrementMoves(c: W.Config, nodes: seq<DAGNode>, s: W.State, w: nat, from: Thread, d: nat,
                       t: W.State)
    requires W.Enabled(c, s, W.Decrement(w)) && t == W.DoDecrement(c, s, w) && d == c.Deps(s.At(w).node)[s.At(w).next]
    requires Same(nodes, from, s.At(w)) && d < |nodes| && from.Releasing?
    ensures t == s.(inDegree := s.inDegree[d := s.inDegree[d] - 1], workers := s.workers[w := t.workers[w]])
    ensures |t.workers| == |s.workers|
    ensures Same(nodes, AfterDecrement(from, nodes[d], s.inDegree[d] - 1 == 0), t.workers[w])
  {
    PointsGrow(nodes, from.newly, s.At(w).newly, d);
  }

  lemma DecrementStep(c: W.Config, nodes: seq<DAGNode>, s: W.State, threads: seq<Thread>, w: nat)
    returns (d: nat, to: Thread, t: W.State)
    requires Tracked(c, nodes, s, threads) && NodesAre(c, nodes, s.inDegree, s.done, s.completed)
    requires w < |threads| && threads[w].Releasing? && threads[w].next < |threads[w].node.dependents|
    ensures Is(nodes, threads[w].node.dependents[threads[w].next], d)
    ensures Lowered(s.inDegree, t.inDegree, d) && to == AfterDecrement(threads[w], nodes[d], t.inDegree[d] == 0)
    ensures Leads(c, nodes, s, W.Decrement(w), t, threads[w := to])
    ensures t == s.(inDegree := t.inDegree, workers := t.workers)
  {
    assert Same(nodes, threads[w], s.workers[w]);
    assert Points(nodes, nodes[s.At(w).node].dependents, c.Deps(s.At(w).node));
    d := c.Deps(s.At(w).node)[threads[w].next];
    DecrementMoves(c, nodes, s, w, threads[w], d, W.Next(c, s, W.Decrement(w)));
    to := AfterDecrement(threads[w], nodes[d], s.inDegree[d] - 1 == 0);
    t := Lead(c, nodes, s, threads, w, W.Decrement(w), to);
  }

  /** The atomic decrement of the next dependent, and its test against zero. */
  method AddMinusOne(from: Thread, ghost c: W.Config, ghost nodes: seq<DAGNode>,
                     ghost d: nat, ghost inDegree: seq<int>, ghost inDegree': seq<int>, ghost done: set<nat>,
                     ghost completed: map<nat, Operation>)
    returns (to: Thread)
    requires from.Releasing? && from.next < |from.node.dependents|
    requires NodesAre(c, nodes, inDegree, done, completed) && Is(nodes, from.node.dependents[from.next], d)
    requires Lowered(inDegree, inDegree', d)
    modifies nodes
    ensures NodesAre(c, nodes, inDegree', done, completed)
    ensures to == AfterDecrement(from, nodes[d], inDegree'[d] == 0)
  {
    assert Alone(nodes, d);
    var dep := from.node.dependents[from.next];
    dep.inDegree := dep.inDegree - 1;
    to := AfterDecrement(from, dep, dep.inDegree == 0);
  }

  lemma PublishDoneStep(c: W.Config, nodes: seq<DAGNode>, s: W.State, threads: seq<Thread>, w: nat)
    returns (t: W.State)
    requires Tracked(c, nodes, s, threads) && NodesAre(c, nodes, s.inDegree, s.done, s.completed)
    requires w < |threads| && threads[w].Releasing? && threads[w].next == |threads[w].node.dependents|
    ensures s.At(w).Releasing? && Is(nodes, threads[w].node, s.At(w).node) && !threads[w].node.done
    ensures Leads(c, nodes, s, W.PublishDone(w), t, threads[w := Committing(threads[w].node, threads[w].newly)])
    ensures t == s.(done := s.done + {s.At(w).node}, workers := t.workers)
  {
    var i := s.At(w).node;
    assert Same(nodes, threads[w], s.workers[w]);
    assert Points(nodes, nodes[i].dependents, c.Deps(i));
    NoPanic(c, s, w);
    t := Lead(c, nodes, s, threads, w, W.PublishDone(w), Committing(threads[w].node, threads[w].newly));
  }

  method CloseDone(node: DAGNode, ghost c: W.Config, ghost nodes: seq<DAGNode>,
                   ghost i: nat, ghost inDegree: seq<int>, ghost done: set<nat>, ghost completed: map<nat, Operation>)
    requires NodesAre(c, nodes, inDegree, done, completed) && Is(nodes, node, i)
    modifies node`done
    ensures NodesAre(c, nodes, inDegree, done + {i}, completed)
  {
    assert Alone(nodes, i);
    node.done := true;
  }

  // ----- committing, pushing and counting -----

  lemma LockAndStoreStep(c: W.Config, nodes: seq<DAGNode>, s: W.State, threads: seq<Thread>, w: nat)
    returns (t: W.State)
    requires Tracked(c, nodes, s, threads) && NodesAre(c, nodes, s.inDegree, s.done, s.completed)
    requires w < |threads| && threads[w].Committing? && s.lock == None
    ensures Leads(c, nodes, s, W.LockAndStore(w), t, threads[w := Flushing(threads[w].node, threads[w].newly)])
    ensures t == s.(lock := Some(w), rob := s.rob.Accept(threads[w].node.op), workers := t.workers)
  {
    assert Same(nodes, threads[w], s.workers[w]);
    PoolSteps.ReachableHolds(c, s);
    PoolSteps.CommittingIsNew(c, s, w);
    t := Lead(c, nodes, s, threads, w, W.LockAndStore(w), Flushing(threads[w].node, threads[w].newly));
  }

  lemma TakeHeadStep(c: W.Config, nodes: seq<DAGNode>, s: W.State, threads: seq<Thread>, w: nat)
    returns (t: W.State)
    requires Tracked(c, nodes, s, threads) && w < |threads| && threads[w].Flushing? && s.rob.HeadReady()
    ensures Leads(c, nodes, s, W.TakeHead(w), t,
                  threads[w := Sending(threads[w].node, threads[w].newly, s.rob.pending[s.rob.nextExpected])])
    ensures t == s.(rob := s.rob.TakeHead(), workers := t.workers)
  {
    assert Same(nodes, threads[w], s.workers[w]);
    t := Lead(c, nodes, s, threads, w, W.TakeHead(w),
              Sending(threads[w].node, threads[w].newly, s.rob.pending[s.rob.nextExpected]));
  }

  lemma SendStep(c: W.Config, nodes: seq<DAGNode>, s: W.State, threads: seq<Thread>, w: nat)
    returns (t: W.State)
    requires Tracked(c, nodes, s, threads) && w < |threads| && threads[w].Sending? && s.handler.Receiving?
    ensures Leads(c, nodes, s, W.Send(w), t, threads[w := Flushing(threads[w].node, threads[w].newly)])
    ensures !s.rob.closed && t == s.(rob := s.rob.Deliver(threads[w].op), workers := t.workers)
  {
    assert Same(nodes, threads[w], s.workers[w]);
    NoPanic(c, s, w);
    t := Lead(c, nodes, s, threads, w, W.Send(w), Flushing(threads[w].node, threads[w].newly));
  }

  lemma UnlockStep(c: W.Config, nodes: seq<DAGNode>, s: W.State, threads: seq<Thread>, w: nat)
    returns (t: W.State)
    requires Tracked(c, nodes, s, threads) && w < |threads| && threads[w].Flushing? && !s.rob.HeadReady()
    ensures Leads(c, nodes, s, W.Unlock(w), t, threads[w := Pushing(threads[w].node, threads[w].newly)])
    ensures t == s.(lock := None, workers := t.workers)
  {
    assert Same(nodes, threads[w], s.workers[w]);
    t := Lead(c, nodes, s, threads, w, W.Unlock(w), Pushing(threads[w].node, threads[w].newly));
  }

  lemma AbandonStep(c: W.Config, nodes: seq<DAGNode>, s: W.State, threads: seq<Thread>, w: nat)
    returns (t: W.State)
    requires Tracked(c, nodes, s, threads) && w < |threads| && threads[w].Sending? && s.cancelled
    ensures Leads(c, nodes, s, W.Abandon(w), t, threads[w := Pushing(threads[w].node, threads[w].newly)])
    ensures t == s.(lock := None, workers := t.workers)
  {
    assert Same(nodes, threads[w], s.workers[w]);
    t := Lead(c, nodes, s, threads, w, W.Abandon(w), Pushing(threads[w].node, threads[w].newly));
  }

  lemma PushStep(c: W.Config, nodes: seq<DAGNode>, s: W.State, threads: seq<Thread>, w: nat,
                 workCh: seq<DAGNode>)
    returns (t: W.State)
    requires Tracked(c, nodes, s, threads) && w < |threads| && threads[w].Pushing? && threads[w].newly != []
    requires Points(nodes, workCh, s.workCh)
    ensures Leads(c, nodes, s, W.Push(w), t, threads[w := Pushing(threads[w].node, threads[w].newly[1..])])
    ensures |workCh| < c.N() && !s.workClosed
    ensures t == s.(workCh := t.workCh, workers := t.workers) && Points(nodes, workCh + [threads[w].newly[0]], t.workCh)
  {
    assert Same(nodes, threads[w], s.workers[w]);
    NoPanic(c, s, w);
    t := Lead(c, nodes, s, threads, w, W.Push(w), Pushing(threads[w].node, threads[w].newly[1..]));
  }

  lemma EndPushingStep(c: W.Config, nodes: seq<DAGNode>, s: W.State, threads: seq<Thread>, w: nat)
    returns (t: W.State)
    requires Tracked(c, nodes, s, threads) && w < |threads| && threads[w].Pushing? && threads[w].newly == []
    ensures Leads(c, nodes, s, W.EndPushing(w), t, threads[w := Finishing(threads[w].node)])
    ensures t == s.(workers := t.workers)
  {
    assert Same(nodes, threads[w], s.workers[w]);
    t := Lead(c, nodes, s, threads, w, W.EndPushing(w), Finishing(threads[w].node));
  }

  lemma CountDownStep(c: W.Config, nodes: seq<DAGNode>, s: W.State, threads: seq<Thread>, w: nat)
    returns (t: W.State)
    requires Tracked(c, nodes, s, threads) && w < |threads| && threads[w].Finishing?
    ensures Leads(c, nodes, s, W.CountDown(w), t, threads[w := if s.remaining - 1 == 0 then ClosingWork else Idle])
    ensures t == s.(remaining := s.remaining - 1, finished := t.finished, workers := t.workers)
  {
    assert Same(nodes, threads[w], s.workers[w]);
    t := Lead(c, nodes, s, threads, w, W.CountDown(w), if s.remaining - 1 == 0 then ClosingWork else Idle);
  }

  lemma CloseWorkStep(c: W.Config, nodes: seq<DAGNode>, s: W.State, threads: seq<Thread>, w: nat)
    returns (t: W.State)
    requires Tracked(c, nodes, s, threads) && w < |threads| && threads[w].ClosingWork?
    ensures Leads(c, nodes, s, W.CloseWork(w), t, threads[w := Idle])
    ensures !s.workClosed && t == s.(workClosed := true, workers := t.workers)
  {
    assert Same(nodes, threads[w], s.workers[w]);
    NoPanic(c, s, w);
    t := Lead(c, nodes, s, threads, w, W.CloseWork(w), Idle);
  }

  // ----- outside the workers -----

  lemma OutsideStep(c: W.Config, nodes: seq<DAGNode>, s: W.State, threads: seq<Thread>, step: W.Step)
    returns (t: W.State)
    requires Tracked(c, nodes, s, threads) && W.Enabled(c, s, step)
    requires step.Cancel? || step.ReturnRun? || step.SeeOutClosed? || step.GiveUp? || step.Respond?
    ensures Leads(c, nodes, s, step, t, threads)
    ensures t == s.(cancelled := s.cancelled || step.Cancel?, run := t.run, handler := t.handler)
    ensures t.run == if step.ReturnRun? then (if s.cancelled then W.ReturnedErr else W.ReturnedNil) else s.run
    ensures t.handler == match step
                         case SeeOutClosed => W.AwaitingRun
                         case GiveUp => W.GaveUp
                         case Respond => if s.run.ReturnedNil? then W.Responded200 else W.Responded500
                         case _ => s.handler
  {
    t := W.Next(c, s, step);
    PoolTheorems.StepIsReachable(c, s, step);
  }

  /** All goroutines have exited exactly when the transition system says so. */
  lemma AllSame(nodes: seq<DAGNode>, threads: seq<Thread>, workers: seq<W.Worker>)
    requires ThreadsAre(nodes, threads, workers)
    ensures (forall w :: 0 <= w < |threads| ==> threads[w].Exited?) <==>
            (forall w :: 0 <= w < |workers| ==> workers[w].Exited?)
  {
    forall w | 0 <= w < |threads|
      ensures threads[w].Exited? <==> workers[w].Exited?
    {
      assert Same(nodes, threads[w], workers[w]);
    }
  }

  lemma InLoop(c: W.Config, nodes: seq<DAGNode>, s: W.State, threads: seq<Thread>, w: nat)
    requires Tracked(c, nodes, s, threads) && NodesAre(c, nodes, s.inDegree, s.done, s.completed)
    requires w < |threads| && threads[w].Releasing?
    ensures threads[w].next <= |threads[w].node.dependents|
  {
    assert Same(nodes, threads[w], s.workers[w]);
    assert Points(nodes, nodes[s.At(w).node].dependents, c.Deps(s.At(w).node));
    PoolSteps.ReachableHolds(c, s);
  }

  // ----- scheduling -----

  /** Which goroutine goes next. `other` prefers the other case of a select when both are ready. */
  datatype Choice = Worker(w: nat, other: bool) | Canceller | Waiter | Responder(other: bool)

  /** The goroutine that takes this kind of step. */
  predicate Belongs(step: W.Step, choice: Choice) {
    match step
    case Cancel => choice.Canceller?
    case ReturnRun => choice.Waiter?
    case SeeOutClosed => choice.Responder?
    case GiveUp => choice.Responder?
    case Respond => choice.Responder?
    case _ => choice.Worker? && step.w == choice.w
  }

  /** The goroutine has no step to take. */
  ghost predicate Blocked(c: W.Config, s: W.State, choice: Choice) {
    forall step :: Belongs(step, choice) ==> !W.Enabled(c, s, step)
  }

  /** The goroutine took one of its steps, from s to t, unless it has none. */
  ghost predicate Turned(c: W.Config, s: W.State, choice: Choice, moved: bool, t: W.State) {
    if moved then exists step :: Belongs(step, choice) && Follows(c, s, step, t)
    else t == s && Blocked(c, s, choice)
  }

  lemma WorkerBlocked(c: W.Config, nodes: seq<DAGNode>, s: W.State, threads: seq<Thread>, w: nat,
                      other: bool)
    requires ThreadsAre(nodes, threads, s.workers)
    requires w < |threads| ==>
      || threads[w].Exited?
      || (threads[w].Idle? && s.workCh == [] && !s.workClosed && !s.cancelled)
      || (threads[w].Committing? && s.lock.Some?)
      || (threads[w].Sending? && !s.handler.Receiving? && !s.cancelled)
    ensures Blocked(c, s, Worker(w, other))
  {
    if w < |threads| {
      assert Same(nodes, threads[w], s.workers[w]);
    }
  }

  lemma HandlerBlocked(c: W.Config, s: W.State, other: bool)
    requires s.handler.Receiving? ==> !s.cancelled && !s.rob.closed
    requires s.handler.AwaitingRun? ==> s.run.Running?
    ensures Blocked(c, s, Responder(other))
  {
  }

  /** Every goroutine is blocked, except for a cancellation: then the run has ended. */
  lemma AllBlocked(c: W.Config, s: W.State)
    requires c.Valid() && W.Reachable(c, s)
    requires forall w: nat :: w < |s.workers| ==> Blocked(c, s, Worker(w, false))
    requires Blocked(c, s, Waiter) && Blocked(c, s, Responder(false))
    ensures PoolProgress.Terminal(s)
  {
    if !PoolProgress.Terminal(s) {
      PoolSteps.ReachableHolds(c, s);
      var step := PoolProgress.Progress(c, s);
      if Belongs(step, Waiter) || Belongs(step, Responder(false)) {
      } else {
        assert Belongs(step, Worker(step.w, false));
      }
    }
  }

  lemma OnlyCancelCancels(c: W.Config, s: W.State, step: W.Step)
    requires W.Enabled(c, s, step) && !step.Cancel?
    ensures W.Next(c, s, step).cancelled == s.cancelled
  {
  }

  /** A turn that moves lowers the measure of the run, and only the canceller cancels. */
  lemma TurnLowers(c: W.Config, s: W.State, choice: Choice, moved: bool, t: W.State)
    requires c.Valid() && W.Reachable(c, s) && Turned(c, s, choice, moved, t)
    ensures moved ==> PoolProgress.Measure(c, t) < PoolProgress.Measure(c, s)
    ensures !choice.Canceller? ==> t.cancelled == s.cancelled
  {
    if moved {
      var step :| Belongs(step, choice) && Follows(c, s, step, t);
      FollowsLowers(c, s, step, t);
      if !choice.Canceller? {
        OnlyCancelCancels(c, s, step);
      }
    }
  }

  lemma FollowsLowers(c: W.Config, s: W.State, step: W.Step, t: W.State)
    requires c.Valid() && W.Reachable(c, s) && Follows(c, s, step, t)
    ensures PoolProgress.Measure(c, t) < PoolProgress.Measure(c, s)
  {
    PoolSteps.ReachableHolds(c, s);
    PoolProgress.StepLowers(c, s, step);
  }

  /** Short of cancellation a run can only end with the answer 200. */
  lemma EndsWell(c: W.Config, s: W.State)
    requires c.Valid() && W.Reachable(c, s) && PoolProgress.Terminal(s) && !s.cancelled
    ensures s.handler.Responded200?
  {
    PoolSteps.ReachableHolds(c, s);
    PoolTheorems.NilUnlessCancelled(c, s);
  }

  /** When Run has returned, the done channels of all executed nodes are closed. */
  lemma ExecutedIsDone(c: W.Config, s: W.State, i: nat)
    requires c.Valid() && W.Reachable(c, s) && !s.run.Running? && i in s.completed
    ensures i in s.done
  {
    PoolSteps.ReachableHolds(c, s);
    NoneUndone(c, s, i);
  }

  lemma NoneUndone(c: W.Config, s: W.State, i: nat)
    requires PoolInvariant.Counted(c, s) && s.AllExited() && i in s.completed
    ensures i in s.done
  {
    PoolInvariant.TallyNone(c, PoolInvariant.Undone, s.workers, i);
    assert PoolInvariant.Balanced(c, s, i);
  }
}
