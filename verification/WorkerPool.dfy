/** The worker pool as a transition system: any number of workers, the work channel, the counters, the
    lock of the reorder buffer, the handler that receives the results, and cancellation. Each atomic
    action of each goroutine is one step, and steps interleave arbitrarily. */
module WorkerPool {
  import opened Operations
  import opened Hazards
  import opened Reorder

  datatype Config = Config(job: Job, workers: nat)
  {
    function Batch(): seq<Operation> {
      job.batch
    }

    /** The batch size, which is also the capacity of the work channel. */
    function N(): nat {
      |job.batch|
    }

    function Deps(i: nat): seq<nat> {
      Dependents(job.batch, i, |job.batch|)
    }

    /** Run only starts workers for a batch that Build accepted and that is not empty. */
    ghost predicate Valid() {
      N() > 0 && workers > 0 && Buildable(job.batch, N())
    }
  }

  /** Where a worker goroutine is, with its locals. `newly` is what is left of newlyRunnable. */
  datatype Worker =
    | Idle                                                        // in the select
    | Holding(node: nat)                                          // received, not executed
    | Releasing(node: nat, next: nat, newly: seq<nat>)            // before dependent `next` of Release's loop
    | Committing(node: nat, newly: seq<nat>)                      // before rob.mu.Lock
    | Flushing(node: nat, newly: seq<nat>)                        // has the lock, at the top of the flush loop
    | Sending(node: nat, newly: seq<nat>, op: Operation)          // has the lock, in the select that sends
    | Pushing(node: nat, newly: seq<nat>)                         // sending newlyRunnable to the work channel
    | Finishing(node: nat)                                        // before the decrement of remaining
    | ClosingWork                                                 // drove remaining to zero, before close
    | Exited

  datatype Handler = Receiving | AwaitingRun | Responded200 | Responded500 | GaveUp

  datatype RunReturn = Running | ReturnedNil | ReturnedErr

  /** `completed` are the executed operations with their Result and Err; `done` the closed done channels.
      `finished` (a history variable) are the nodes whose final decrement has happened. `panicked` is set
      by a send on or a close of a closed channel. */
  datatype State = State(
    workCh: seq<nat>, workClosed: bool, remaining: int, inDegree: seq<int>, done: set<nat>,
    completed: map<nat, Operation>, store: Store, workers: seq<Worker>, lock: Option<nat>, rob: Rob,
    cancelled: bool, run: RunReturn, handler: Handler, finished: set<nat>, panicked: bool)
  {
    predicate Has(w: nat) {
      w < |workers|
    }

    function At(w: nat): Worker
      requires Has(w)
    {
      workers[w]
    }

    function Move(w: nat, to: Worker): State
      requires Has(w)
    {
      this.(workers := workers[w := to])
    }

    predicate AllExited() {
      forall w :: 0 <= w < |workers| ==> workers[w].Exited?
    }
  }

  function Init(c: Config): State {
    State(Roots(c.Batch(), c.N()), false, c.N(),
          seq(c.N(), i requires 0 <= i < c.N() => |Predecessors(c.Batch(), i)|),
          {}, map[], c.job.store, seq(c.workers, w => Idle), None, Drained(c.N()),
          false, Running, Receiving, {}, false)
  }

  datatype Step =
    | Recv(w: nat) | SeeWorkClosed(w: nat) | SeeCancelled(w: nat)
    | Execute(w: nat) | Decrement(w: nat) | PublishDone(w: nat)
    | LockAndStore(w: nat) | TakeHead(w: nat) | Send(w: nat) | Abandon(w: nat) | Unlock(w: nat)
    | Push(w: nat) | EndPushing(w: nat) | CountDown(w: nat) | CloseWork(w: nat)
    | Cancel | ReturnRun | SeeOutClosed | GiveUp | Respond
  {
    predicate ByWorker() {
      !Cancel? && !ReturnRun? && !SeeOutClosed? && !GiveUp? && !Respond?
    }
  }

  predicate Enabled(c: Config, s: State, step: Step) {
    match step
    case Recv(w) => s.Has(w) && s.At(w).Idle? && s.workCh != []
    case SeeWorkClosed(w) => s.Has(w) && s.At(w).Idle? && s.workCh == [] && s.workClosed
    case SeeCancelled(w) => s.Has(w) && s.At(w).Idle? && s.cancelled
    case Execute(w) => s.Has(w) && s.At(w).Holding? && s.At(w).node < c.N()
    case Decrement(w) =>
      && s.Has(w) && s.At(w).Releasing? && s.At(w).next < |c.Deps(s.At(w).node)|
      && c.Deps(s.At(w).node)[s.At(w).next] < |s.inDegree|
    case PublishDone(w) => s.Has(w) && s.At(w).Releasing? && s.At(w).next == |c.Deps(s.At(w).node)|
    case LockAndStore(w) => s.Has(w) && s.At(w).Committing? && s.lock == None && s.At(w).node in s.completed
    case TakeHead(w) => s.Has(w) && s.At(w).Flushing? && s.rob.HeadReady()
    case Unlock(w) => s.Has(w) && s.At(w).Flushing? && !s.rob.HeadReady()
    case Send(w) => s.Has(w) && s.At(w).Sending? && s.handler.Receiving?
    case Abandon(w) => s.Has(w) && s.At(w).Sending? && s.cancelled
    case Push(w) => s.Has(w) && s.At(w).Pushing? && s.At(w).newly != [] && |s.workCh| < c.N()
    case EndPushing(w) => s.Has(w) && s.At(w).Pushing? && s.At(w).newly == []
    case CountDown(w) => s.Has(w) && s.At(w).Finishing?
    case CloseWork(w) => s.Has(w) && s.At(w).ClosingWork?
    case Cancel => !s.cancelled
    case ReturnRun => s.run.Running? && s.AllExited()
    case SeeOutClosed => s.handler.Receiving? && s.rob.closed
    case GiveUp => s.handler.Receiving? && s.cancelled
    case Respond => s.handler.AwaitingRun? && !s.run.Running?
  }

  function Next(c: Config, s: State, step: Step): State
    requires Enabled(c, s, step)
  {
    match step
    case Recv(w) => s.(workCh := s.workCh[1..]).Move(w, Holding(s.workCh[0]))
    case SeeWorkClosed(w) => s.Move(w, Exited)
    case SeeCancelled(w) => s.Move(w, Exited)
    case Execute(w) => DoExecute(c, s, w)
    case Decrement(w) => DoDecrement(c, s, w)
    case PublishDone(w) =>
      var Releasing(node, _, newly) := s.At(w);
      s.(done := s.done + {node}, panicked := s.panicked || node in s.done).Move(w, Committing(node, newly))
    case LockAndStore(w) =>
      var Committing(node, newly) := s.At(w);
      s.(lock := Some(w), rob := s.rob.Accept(s.completed[node])).Move(w, Flushing(node, newly))
    case TakeHead(w) =>
      var Flushing(node, newly) := s.At(w);
      s.(rob := s.rob.TakeHead()).Move(w, Sending(node, newly, s.rob.pending[s.rob.nextExpected]))
    case Send(w) =>
      var Sending(node, newly, op) := s.At(w);
      s.(rob := s.rob.Deliver(op), panicked := s.panicked || s.rob.closed).Move(w, Flushing(node, newly))
    case Abandon(w) =>
      var Sending(node, newly, _) := s.At(w);
      s.(lock := None).Move(w, Pushing(node, newly))
    case Unlock(w) =>
      var Flushing(node, newly) := s.At(w);
      s.(lock := None).Move(w, Pushing(node, newly))
    case Push(w) =>
      var Pushing(node, newly) := s.At(w);
      s.(workCh := s.workCh + [newly[0]], panicked := s.panicked || s.workClosed).Move(w, Pushing(node, newly[1..]))
    case EndPushing(w) => s.Move(w, Finishing(s.At(w).node))
    case CountDown(w) =>
      s.(remaining := s.remaining - 1, finished := s.finished + {s.At(w).node})
       .Move(w, if s.remaining - 1 == 0 then ClosingWork else Idle)
    case CloseWork(w) => s.(workClosed := true, panicked := s.panicked || s.workClosed).Move(w, Idle)
    case Cancel => s.(cancelled := true)
    case ReturnRun => s.(run := if s.cancelled then ReturnedErr else ReturnedNil)
    case SeeOutClosed => s.(handler := AwaitingRun)
    case GiveUp => s.(handler := GaveUp)
    case Respond => s.(handler := if s.run.ReturnedNil? then Responded200 else Responded500)
  }

  /** executeNode: the storage call, then Result and Err. */
  function DoExecute(c: Config, s: State, w: nat): State
    requires Enabled(c, s, Execute(w))
  {
    var i := s.At(w).node;
    var op := c.Batch()[i];
    s.(completed := s.completed[i := Answer(op, s.store, c.job.Fault(i))],
       store := Effect(op, s.store, c.job.Fault(i)))
     .Move(w, Releasing(i, 0, []))
  }

  /** One turn of Release's loop: an atomic decrement and its test against zero. */
  function DoDecrement(c: Config, s: State, w: nat): State
    requires Enabled(c, s, Decrement(w))
  {
    var Releasing(node, next, newly) := s.At(w);
    var dep := c.Deps(node)[next];
    var left := s.inDegree[dep] - 1;
    s.(inDegree := s.inDegree[dep := left])
     .Move(w, Releasing(node, next + 1, if left == 0 then newly + [dep] else newly))
  }

  /** A run: a sequence of steps from the initial state, each enabled where it is taken. */
  ghost predicate Run(c: Config, s: State, steps: seq<Step>, t: State)
    decreases |steps|
  {
    if steps == [] then s == t
    else Enabled(c, s, steps[0]) && Run(c, Next(c, s, steps[0]), steps[1..], t)
  }

  /** Some interleaving leads to s. */
  ghost predicate Reachable(c: Config, s: State) {
    exists steps :: Run(c, Init(c), steps, s)
  }
}
