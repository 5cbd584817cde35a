/** One batch under way, on the heap. Each method of the pool is one atomic action of one goroutine and
    is one step of the transition system; a goroutine blocks exactly where the transition system does;
    and whatever order the goroutines are scheduled in, the batch runs to its end. */
module BatchRun {
  import opened Operations
  import opened Hazards
  import opened Storage
  import opened DagNodes
  import opened Reorder
  import opened Goroutines
  import W = WorkerPool
  import PoolSteps
  import PoolProgress
  import PoolTheorems

  class Pool {
    ghost const c: W.Config
    ghost const nodes: seq<DAGNode>
    const faults: map<nat, string>
    const storage: ShardedMap
    const rob: InOrderReorderBuffer
    const capacity: nat
    var threads: seq<Thread>
    var workCh: seq<DAGNode>
    var workClosed: bool
    var remaining: int
    var lock: Option<nat>
    var cancelled: bool
    var run: W.RunReturn
    var handler: W.Handler
    ghost var s: W.State

    /** The heap is the state t of the transition system. */
    ghost predicate Mirrors(t: W.State)
      reads this, nodes, storage, storage.shards, rob
    {
      && NodesAre(c, nodes, t.inDegree, t.done, t.completed)
      && storage.Valid() && storage.Contents() == t.store
      && rob.View() == t.rob
      && ThreadsAre(nodes, threads, t.workers)
      && Points(nodes, workCh, t.workCh)
      && workClosed == t.workClosed && remaining == t.remaining && lock == t.lock && cancelled == t.cancelled
      && run == t.run && handler == t.handler
    }

    /** The heap is the reachable state s of the transition system. */
    ghost predicate Valid()
      reads this, nodes, storage, storage.shards, rob
    {
      c.Valid() && W.Reachable(c, s) && faults == c.job.faults && capacity == c.N() && Mirrors(s)
    }

    /** What Run and the handler set up before any goroutine runs. */
    constructor (batch: seq<Operation>, ghost nodes: seq<DAGNode>, workCh: seq<DAGNode>, capacity: nat,
                 faults: map<nat, string>, storage: ShardedMap, rob: InOrderReorderBuffer, workers: nat)
      requires W.Config(Job(batch, faults, map[]), workers).Valid()
      requires Wired(batch, nodes) && Points(nodes, workCh, Roots(batch, |batch|)) && capacity == |batch|
      requires storage.Valid() && rob.View() == Drained(|batch|)
      ensures Valid() && c == W.Config(Job(batch, faults, storage.Contents()), workers) && s == W.Init(c)
      ensures this.nodes == nodes && this.storage == storage && this.rob == rob
    {
      ghost var config := W.Config(Job(batch, faults, storage.Contents()), workers);
      c, s, this.nodes := config, W.Init(config), nodes;
      this.faults, this.storage, this.rob, this.capacity := faults, storage, rob, capacity;
      threads := seq(workers, _ => Idle);
      this.workCh, workClosed, remaining := workCh, false, capacity;
      lock, cancelled, run, handler := None, false, W.Running, W.Receiving;
      new;
      PoolTheorems.StartIsReachable(c);
      StartNodes(c, nodes);
    }

    // ----- the select -----

    method Recv(w: nat)
      requires Valid() && w < |threads| && threads[w].Idle? && workCh != []
      modifies this
      ensures Valid() && Follows(c, old(s), W.Recv(w), s)
    {
      ghost var t := RecvStep(c, nodes, s, threads, w, workCh);
      threads := threads[w := Holding(workCh[0])];
      workCh := workCh[1..];
      s := t;
    }

    method SeeWorkClosed(w: nat)
      requires Valid() && w < |threads| && threads[w].Idle? && workCh == [] && workClosed
      modifies this
      ensures Valid() && Follows(c, old(s), W.SeeWorkClosed(w), s)
    {
      ghost var t := ExitStep(c, nodes, s, threads, w, W.SeeWorkClosed(w));
      threads := threads[w := Exited];
      s := t;
    }

    method SeeCancelled(w: nat)
      requires Valid() && w < |threads| && threads[w].Idle? && cancelled
      modifies this
      ensures Valid() && Follows(c, old(s), W.SeeCancelled(w), s)
    {
      ghost var t := ExitStep(c, nodes, s, threads, w, W.SeeCancelled(w));
      threads := threads[w := Exited];
      s := t;
    }

    // ----- executing and releasing -----

    /** executeNode. */
    method Execute(w: nat)
      requires Valid() && w < |threads| && threads[w].Holding?
      modifies this, nodes, storage.shards
      ensures Valid() && Follows(c, old(s), W.Execute(w), s)
    {
      var node := threads[w].node;
      ghost var i := s.workers[w].node;
      ghost var t := ExecuteStep(c, nodes, s, threads, w);
      var fault := if node.op.seqId in faults then Some(faults[node.op.seqId]) else None;
      ExecuteNode(node, fault, storage, c, nodes, i, s.inDegree, s.done, s.completed);
      threads := threads[w := Releasing(node, 0, [])];
      s := t;
    }

    /** One turn of Release's loop. */
    method Decrement(w: nat)
      requires Valid() && w < |threads| && threads[w].Releasing? && threads[w].next < |threads[w].node.dependents|
      modifies this, nodes
      ensures Valid() && Follows(c, old(s), W.Decrement(w), s)
    {
      ghost var d, to, t := DecrementStep(c, nodes, s, threads, w);
      var after := AddMinusOne(threads[w], c, nodes, d, s.inDegree, t.inDegree, s.done, s.completed);
      threads := threads[w := after];
      s := t;
    }

    /** The end of Release; close of a closed channel would panic. */
    method PublishDone(w: nat)
      requires Valid() && w < |threads| && threads[w].Releasing? && threads[w].next == |threads[w].node.dependents|
      modifies this, nodes
      ensures Valid() && Follows(c, old(s), W.PublishDone(w), s)
    {
      var Releasing(node, _, newly) := threads[w];
      ghost var i := s.workers[w].node;
      ghost var t := PublishDoneStep(c, nodes, s, threads, w);
      assert !node.done;
      CloseDone(node, c, nodes, i, s.inDegree, s.done, s.completed);
      threads := threads[w := Committing(node, newly)];
      s := t;
    }

    // ----- committing -----

    method LockAndStore(w: nat)
      requires Valid() && w < |threads| && threads[w].Committing? && lock == None
      modifies this, rob
      ensures Valid() && Follows(c, old(s), W.LockAndStore(w), s)
    {
      var Committing(node, newly) := threads[w];
      ghost var t := LockAndStoreStep(c, nodes, s, threads, w);
      lock := Some(w);
      rob.Store(node.op);
      threads := threads[w := Flushing(node, newly)];
      s := t;
    }

    method TakeHead(w: nat)
      requires Valid() && w < |threads| && threads[w].Flushing? && rob.nextExpected in rob.pending
      modifies this, rob
      ensures Valid() && Follows(c, old(s), W.TakeHead(w), s)
    {
      var Flushing(node, newly) := threads[w];
      ghost var t := TakeHeadStep(c, nodes, s, threads, w);
      var head := rob.TakeHead();
      threads := threads[w := Sending(node, newly, head)];
      s := t;
    }

    /** The handler receives the head; a send on a closed channel would panic. */
    method Send(w: nat)
      requires Valid() && w < |threads| && threads[w].Sending? && handler.Receiving?
      modifies this, rob
      ensures Valid() && Follows(c, old(s), W.Send(w), s)
    {
      var Sending(node, newly, op) := threads[w];
      ghost var t := Goroutines.SendStep(c, nodes, s, threads, w);
      assert !rob.closed;
      rob.Deliver(op);
      threads := threads[w := Flushing(node, newly)];
      s := t;
    }

    method Abandon(w: nat)
      requires Valid() && w < |threads| && threads[w].Sending? && cancelled
      modifies this
      ensures Valid() && Follows(c, old(s), W.Abandon(w), s)
    {
      var Sending(node, newly, _) := threads[w];
      ghost var t := AbandonStep(c, nodes, s, threads, w);
      lock := None;
      threads := threads[w := Pushing(node, newly)];
      s := t;
    }

    method Unlock(w: nat)
      requires Valid() && w < |threads| && threads[w].Flushing? && rob.nextExpected !in rob.pending
      modifies this
      ensures Valid() && Follows(c, old(s), W.Unlock(w), s)
    {
      var Flushing(node, newly) := threads[w];
      ghost var t := UnlockStep(c, nodes, s, threads, w);
      lock := None;
      threads := threads[w := Pushing(node, newly)];
      s := t;
    }

    // ----- pushing and counting -----

    /** The send on the work channel neither blocks nor panics. */
    method Push(w: nat)
      requires Valid() && w < |threads| && threads[w].Pushing? && threads[w].newly != []
      modifies this
      ensures Valid() && Follows(c, old(s), W.Push(w), s)
    {
      var Pushing(node, newly) := threads[w];
      ghost var t := PushStep(c, nodes, s, threads, w, workCh);
      assert |workCh| < capacity && !workClosed;
      workCh := workCh + [newly[0]];
      threads := threads[w := Pushing(node, newly[1..])];
      s := t;
    }

    method EndPushing(w: nat)
      requires Valid() && w < |threads| && threads[w].Pushing? && threads[w].newly == []
      modifies this
      ensures Valid() && Follows(c, old(s), W.EndPushing(w), s)
    {
      ghost var t := EndPushingStep(c, nodes, s, threads, w);
      threads := threads[w := Finishing(threads[w].node)];
      s := t;
    }

    method CountDown(w: nat)
      requires Valid() && w < |threads| && threads[w].Finishing?
      modifies this
      ensures Valid() && Follows(c, old(s), W.CountDown(w), s)
    {
      ghost var t := CountDownStep(c, nodes, s, threads, w);
      remaining := remaining - 1;
      threads := threads[w := if remaining == 0 then ClosingWork else Idle];
      s := t;
    }

    /** Close of a closed channel would panic. */
    method CloseWork(w: nat)
      requires Valid() && w < |threads| && threads[w].ClosingWork?
      modifies this
      ensures Valid() && Follows(c, old(s), W.CloseWork(w), s)
    {
      ghost var t := CloseWorkStep(c, nodes, s, threads, w);
      assert !workClosed;
      workClosed := true;
      threads := threads[w := Idle];
      s := t;
    }

    // ----- outside the workers -----

    method Cancel()
      requires Valid() && !cancelled
      modifies this
      ensures Valid() && Follows(c, old(s), W.Cancel, s)
    {
      ghost var t := OutsideStep(c, nodes, s, threads, W.Cancel);
      cancelled := true;
      s := t;
    }

    /** wg.Wait has returned. */
    method ReturnRun()
      requires Valid() && run.Running? && AllExited()
      modifies this
      ensures Valid() && Follows(c, old(s), W.ReturnRun, s)
    {
      AllSame(nodes, threads, s.workers);
      ghost var t := OutsideStep(c, nodes, s, threads, W.ReturnRun);
      run := if cancelled then W.ReturnedErr else W.ReturnedNil;
      s := t;
    }

    predicate AllExited()
      reads this
    {
      forall w :: 0 <= w < |threads| ==> threads[w].Exited?
    }

    method SeeOutClosed()
      requires Valid() && handler.Receiving? && rob.closed
      modifies this
      ensures Valid() && Follows(c, old(s), W.SeeOutClosed, s)
    {
      ghost var t := OutsideStep(c, nodes, s, threads, W.SeeOutClosed);
      handler := W.AwaitingRun;
      s := t;
    }

    method GiveUp()
      requires Valid() && handler.Receiving? && cancelled
      modifies this
      ensures Valid() && Follows(c, old(s), W.GiveUp, s)
    {
      ghost var t := OutsideStep(c, nodes, s, threads, W.GiveUp);
      handler := W.GaveUp;
      s := t;
    }

    method Respond()
      requires Valid() && handler.AwaitingRun? && !run.Running?
      modifies this
      ensures Valid() && Follows(c, old(s), W.Respond, s)
    {
      ghost var t := OutsideStep(c, nodes, s, threads, W.Respond);
      handler := if run.ReturnedNil? then W.Responded200 else W.Responded500;
      s := t;
    }

    // ----- scheduling -----

    /** A worker's select. */
    method Select(w: nat, other: bool) returns (moved: bool)
      requires Valid() && w < |threads| && threads[w].Idle?
      modifies this
      ensures Valid() && Turned(c, old(s), Worker(w, other), moved, s)
    {
      moved := true;
      if cancelled && (other || (workCh == [] && !workClosed)) {
        SeeCancelled(w);
      } else if workCh != [] {
        Recv(w);
      } else if workClosed {
        SeeWorkClosed(w);
      } else {
        moved := false;
        WorkerBlocked(c, nodes, s, threads, w, other);
      }
    }

    /** A worker inside Commit. */
    method CommitTurn(w: nat, other: bool) returns (moved: bool)
      requires Valid() && w < |threads| && (threads[w].Committing? || threads[w].Flushing? || threads[w].Sending?)
      modifies this, rob
      ensures Valid() && Turned(c, old(s), Worker(w, other), moved, s)
    {
      moved := true;
      if threads[w].Committing? && lock == None {
        LockAndStore(w);
      } else if threads[w].Flushing? {
        if rob.nextExpected in rob.pending {
          TakeHead(w);
        } else {
          Unlock(w);
        }
      } else if threads[w].Sending? && cancelled && (other || !handler.Receiving?) {
        Abandon(w);
      } else if threads[w].Sending? && handler.Receiving? {
        Send(w);
      } else {
        moved := false;
        WorkerBlocked(c, nodes, s, threads, w, other);
      }
    }

    /** A worker that never blocks. */
    method BusyTurn(w: nat, other: bool)
      requires Valid() && w < |threads| && !threads[w].Idle? && !threads[w].Exited?
      requires !threads[w].Committing? && !threads[w].Flushing? && !threads[w].Sending?
      modifies this, nodes, storage.shards
      ensures Valid() && Turned(c, old(s), Worker(w, other), true, s)
    {
      match threads[w] {
        case Holding(_) =>
          Execute(w);
        case Releasing(node, next, _) =>
          InLoop(c, nodes, s, threads, w);
          if next < |node.dependents| {
            Decrement(w);
          } else {
            PublishDone(w);
          }
        case Pushing(_, newly) =>
          if newly != [] {
            Push(w);
          } else {
            EndPushing(w);
          }
        case Finishing(_) =>
          CountDown(w);
        case ClosingWork =>
          CloseWork(w);
      }
    }

    /** The next atomic action of worker w. */
    method WorkerTurn(w: nat, other: bool) returns (moved: bool)
      requires Valid()
      modifies this, nodes, storage.shards, rob
      ensures Valid() && Turned(c, old(s), Worker(w, other), moved, s)
    {
      if w >= |threads| || threads[w].Exited? {
        moved := false;
        WorkerBlocked(c, nodes, s, threads, w, other);
      } else if threads[w].Idle? {
        moved := Select(w, other);
      } else if threads[w].Committing? || threads[w].Flushing? || threads[w].Sending? {
        moved := CommitTurn(w, other);
      } else {
        moved := true;
        BusyTurn(w, other);
      }
    }

    /** The handler's select: the output channel is closed, or the context is done; receiving is the other
        half of a send. */
    method DrainTurn(other: bool) returns (moved: bool)
      requires Valid() && handler.Receiving?
      modifies this
      ensures Valid() && Turned(c, old(s), Responder(other), moved, s)
    {
      moved := true;
      if cancelled && (other || !rob.closed) {
        GiveUp();
      } else if rob.closed {
        SeeOutClosed();
      } else {
        moved := false;
        HandlerBlocked(c, s, other);
      }
    }

    /** The next atomic action of the handler. */
    method HandlerTurn(other: bool) returns (moved: bool)
      requires Valid()
      modifies this
      ensures Valid() && Turned(c, old(s), Responder(other), moved, s)
    {
      if handler.Receiving? {
        moved := DrainTurn(other);
      } else if handler.AwaitingRun? && !run.Running? {
        moved := true;
        Respond();
      } else {
        moved := false;
        HandlerBlocked(c, s, other);
      }
    }

    method CancelTurn() returns (moved: bool)
      requires Valid()
      modifies this
      ensures Valid() && Turned(c, old(s), Canceller, moved, s)
    {
      moved := !cancelled;
      if moved {
        Cancel();
      }
    }

    /** The wait for the workers, at the end of Run. */
    method WaitTurn() returns (moved: bool)
      requires Valid()
      modifies this
      ensures Valid() && Turned(c, old(s), Waiter, moved, s)
    {
      AllSame(nodes, threads, s.workers);
      moved := run.Running? && AllExited();
      if moved {
        ReturnRun();
      }
    }

    /** The next atomic action of the chosen goroutine: a step of the transition system, unless the
        goroutine has none. */
    method Turn(choice: Choice) returns (moved: bool)
      requires Valid()
      modifies this, nodes, storage.shards, rob
      ensures Valid() && Turned(c, old(s), choice, moved, s)
    {
      match choice {
        case Worker(w, other) => moved := WorkerTurn(w, other);
        case Canceller => moved := CancelTurn();
        case Waiter => moved := WaitTurn();
        case Responder(other) => moved := HandlerTurn(other);
      }
    }

    /** Give every goroutine but the canceller a turn, until one moves. */
    method TurnAny() returns (moved: bool)
      requires Valid()
      modifies this, nodes, storage.shards, rob
      ensures Valid() && s.cancelled == old(s.cancelled)
      ensures if moved then PoolProgress.Measure(c, s) < PoolProgress.Measure(c, old(s))
              else s == old(s) && PoolProgress.Terminal(s)
    {
      for w := 0 to |threads|
        invariant Valid() && s == old(s)
        invariant forall v: nat :: v < w ==> Blocked(c, s, Worker(v, false))
      {
        moved := Turn(Worker(w, false));
        TurnLowers(c, old(s), Worker(w, false), moved, s);
        if moved {
          return;
        }
      }
      moved := Turn(Waiter);
      TurnLowers(c, old(s), Waiter, moved, s);
      if !moved {
        moved := Turn(Responder(false));
        TurnLowers(c, old(s), Responder(false), moved, s);
        if !moved {
          AllBlocked(c, s);
        }
      }
    }

    /** The output, the nodes and the store are those of the one-by-one run. */
    ghost predicate Serial()
      reads this, nodes, storage, storage.shards, rob
    {
      && |rob.out| == |nodes| == c.N() && storage.Valid() && storage.Contents() == c.job.Serial(c.N())
      && forall i {:trigger nodes[i].op} {:trigger rob.out[i]} :: 0 <= i < |nodes| ==>
           nodes[i].op == rob.out[i] == c.job.SerialAnswer(i) && nodes[i].done
    }

    /** The batch under any scheduler: each time, any goroutine may be the first to get a turn. It ends,
        cancelled or not; without cancellation the handler answers 200; and whenever it does, output,
        nodes and store are those of the one-by-one run. */
    method RunToEnd(mayCancel: bool)
      requires Valid() && (cancelled ==> mayCancel)
      modifies this, nodes, storage.shards, rob
      ensures Valid() && PoolProgress.Terminal(s)
      ensures !mayCancel ==> handler.Responded200?
      ensures handler.Responded200? ==> Serial()
    {
      var live := true;
      while live
        invariant Valid() && (live || PoolProgress.Terminal(s)) && (cancelled ==> mayCancel)
        decreases PoolProgress.Measure(c, s), live
      {
        ghost var before := s;
        var first: Choice := *;
        if first.Canceller? && !mayCancel {
          first := Waiter;
        }
        live := Turn(first);
        TurnLowers(c, before, first, live, s);
        if !live {
          live := TurnAny();
        }
      }
      Finish();
    }

    ghost method Finish()
      requires Valid() && PoolProgress.Terminal(s)
      ensures !cancelled ==> handler.Responded200?
      ensures handler.Responded200? ==> Serial()
    {
      if !cancelled {
        EndsWell(c, s);
      }
      if handler.Responded200? {
        PoolSteps.ReachableHolds(c, s);
        PoolTheorems.Answer200(c, s);
        PoolTheorems.SerialEquivalenceAtEnd(c, s);
        forall i | 0 <= i < |nodes|
          ensures nodes[i].op == rob.out[i] == c.job.SerialAnswer(i) && nodes[i].done
        {
          ExecutedIsDone(c, s, i);
        }
      }
    }
  }
}
