/** The inductive invariant of the worker pool, as integer balances: for every operation, how often it
    occurs at each place of the pool adds up to a constant. */
module PoolInvariant {
  import opened Operations
  import opened Hazards
  import opened WorkerPool

  /** What is counted: nodes ready to run (`newly`, or received); nodes executed and still with a worker;
      those whose done channel is open; those not committed; decrements still owed to a node; workers
      about to close the work channel; and the work a worker has left. */
  datatype Kind = Ready | Active | Undone | Uncommitted | Owed | Closers | Potential

  predicate IsActive(pc: Worker, x: nat) {
    (pc.Releasing? || pc.Committing? || pc.Flushing? || pc.Sending? || pc.Pushing? || pc.Finishing?) && pc.node == x
  }

  function Newly(pc: Worker): seq<nat> {
    if pc.Releasing? || pc.Committing? || pc.Flushing? || pc.Sending? || pc.Pushing? then pc.newly else []
  }

  function One(b: bool): nat {
    if b then 1 else 0
  }

  function Share(c: Config, k: Kind, pc: Worker, x: nat): nat {
    match k
    case Ready => One(pc.Holding? && pc.node == x) + multiset(Newly(pc))[x]
    case Active => One(IsActive(pc, x))
    case Undone => One(pc.Releasing? && pc.node == x)
    case Uncommitted => One((pc.Releasing? || pc.Committing?) && pc.node == x)
    case Owed =>
      if pc.Releasing? && pc.next <= |c.Deps(pc.node)| then multiset(c.Deps(pc.node)[pc.next..])[x] else 0
    case Closers => One(pc.ClosingWork?)
    case Potential => Work(c, pc)
  }

  /** An upper bound on the steps this worker takes before it is back in its select, and one more to exit. */
  function Work(c: Config, pc: Worker): nat {
    match pc
    case Exited => 0
    case Idle => 1
    case Holding(_) => 2
    case ClosingWork => 2
    case Finishing(_) => 3
    case Pushing(_, newly) => 4 + 3 * |newly|
    case Flushing(_, newly) => 5 + 3 * |newly|
    case Sending(_, newly, _) => 6 + 3 * |newly|
    case Committing(_, newly) => 8 + 3 * |newly|
    case Releasing(node, next, newly) =>
      9 + 3 * |newly| + if next <= |c.Deps(node)| then 4 * (|c.Deps(node)| - next) else 0
  }

  function Tally(c: Config, k: Kind, ws: seq<Worker>, x: nat): nat {
    if ws == [] then 0 else Share(c, k, ws[0], x) + Tally(c, k, ws[1..], x)
  }

  lemma {:induction false} TallyMoves(c: Config, k: Kind, ws: seq<Worker>, w: nat, to: Worker, x: nat)
    requires w < |ws|
    ensures Tally(c, k, ws[w := to], x) + Share(c, k, ws[w], x) == Tally(c, k, ws, x) + Share(c, k, to, x)
  {
    if w == 0 {
      assert ws[w := to][1..] == ws[1..];
    } else {
      TallyMoves(c, k, ws[1..], w - 1, to, x);
      assert ws[w := to][1..] == ws[1..][w - 1 := to];
    }
  }

  lemma {:induction false} TallyHas(c: Config, k: Kind, ws: seq<Worker>, w: nat, x: nat)
    requires w < |ws|
    ensures Share(c, k, ws[w], x) <= Tally(c, k, ws, x)
  {
    if w > 0 {
      TallyHas(c, k, ws[1..], w - 1, x);
    }
  }

  lemma {:induction false} TallyNone(c: Config, k: Kind, ws: seq<Worker>, x: nat)
    requires forall w :: 0 <= w < |ws| ==> Share(c, k, ws[w], x) == 0
    ensures Tally(c, k, ws, x) == 0
  {
    if ws != [] {
      TallyNone(c, k, ws[1..], x);
    }
  }

  lemma TallyIdle(c: Config, k: Kind, n: nat, x: nat)
    requires !k.Potential?
    ensures Tally(c, k, seq(n, w => Idle), x) == 0
  {
    var ws := seq(n, w => Idle);
    assert forall w :: 0 <= w < |ws| ==> Share(c, k, ws[w], x) == 0;
    TallyNone(c, k, ws, x);
  }

  /** Edges into x from those of the first n positions that have not executed. */
  function Unexecuted(c: Config, executed: set<nat>, n: nat, x: nat): nat {
    if n == 0 then 0
    else Unexecuted(c, executed, n - 1, x) + One(n - 1 !in executed && Edge(c.Batch(), n - 1, x))
  }

  lemma {:induction false} UnexecutedDrops(c: Config, executed: set<nat>, n: nat, i: nat, x: nat)
    requires i !in executed
    ensures Unexecuted(c, executed + {i}, n, x) + One(i < n && Edge(c.Batch(), i, x)) == Unexecuted(c, executed, n, x)
  {
    if n > 0 {
      UnexecutedDrops(c, executed, n - 1, i, x);
    }
  }

  lemma {:induction false} UnexecutedHas(c: Config, executed: set<nat>, n: nat, i: nat, x: nat)
    requires i < n && i !in executed && Edge(c.Batch(), i, x)
    ensures Unexecuted(c, executed, n, x) > 0
  {
    if i < n - 1 {
      UnexecutedHas(c, executed, n - 1, i, x);
    }
  }

  lemma {:induction false} UnexecutedFrom(c: Config, executed: set<nat>, n: nat, x: nat) returns (i: nat)
    requires Unexecuted(c, executed, n, x) > 0
    ensures i < n && i !in executed && Edge(c.Batch(), i, x)
  {
    if n - 1 !in executed && Edge(c.Batch(), n - 1, x) {
      i := n - 1;
    } else {
      i := UnexecutedFrom(c, executed, n - 1, x);
    }
  }

  lemma {:induction false} UnexecutedCount(c: Config, executed: set<nat>, n: nat, x: nat, preds: set<nat>)
    requires forall i :: i in preds <==> 0 <= i < n && i !in executed && Edge(c.Batch(), i, x)
    ensures Unexecuted(c, executed, n, x) == |preds|
  {
    if n == 0 {
      assert preds == {};
    } else {
      UnexecutedCount(c, executed, n - 1, x, preds - {n - 1});
    }
  }

  // ----- the invariant -----

  ghost predicate WorkerTyped(c: Config, pc: Worker) {
    && (pc.Holding? || pc.Releasing? || pc.Committing? || pc.Flushing? || pc.Sending? || pc.Pushing? || pc.Finishing?
        ==> pc.node < c.N())
    && Within(Newly(pc), c.N())
    && (pc.Releasing? ==> pc.next <= |c.Deps(pc.node)|)
  }

  ghost predicate Typed(c: Config, s: State) {
    && |s.workers| == c.workers && |s.inDegree| == c.N() && Within(s.workCh, c.N())
    && (forall w :: 0 <= w < |s.workers| ==> WorkerTyped(c, s.workers[w]))
  }

  /** The balances for position x. */
  ghost predicate Balanced(c: Config, s: State, x: nat) {
    && multiset(s.workCh)[x] + Tally(c, Ready, s.workers, x) + One(x in s.completed)
         + One(x < |s.inDegree| && s.inDegree[x] > 0) == One(x < c.N())
    && Tally(c, Active, s.workers, x) + One(x in s.finished) == One(x in s.completed)
    && Tally(c, Undone, s.workers, x) + One(x in s.done) == One(x in s.completed)
    && Tally(c, Uncommitted, s.workers, x) + One(x in s.rob.accepted) == One(x in s.completed)
    && (x < |s.inDegree| ==>
          s.inDegree[x] == Unexecuted(c, s.completed.Keys, c.N(), x) + Tally(c, Owed, s.workers, x))
  }

  ghost predicate Counted(c: Config, s: State) {
    && (forall x: nat :: Balanced(c, s, x))
    && s.remaining == c.N() - |s.finished|
    && Tally(c, Closers, s.workers, 0) + One(s.workClosed) == One(s.remaining == 0)
  }

  /** The lock and the reorder buffer. */
  ghost predicate Locked(c: Config, s: State) {
    && s.rob.Consistent() && s.rob.total == c.N()
    && (s.lock == None ==> !s.rob.HeadReady())
    && (s.lock.Some? ==> s.Has(s.lock.value) && (s.At(s.lock.value).Flushing? || s.At(s.lock.value).Sending?))
    && (forall w :: 0 <= w < |s.workers| && (s.workers[w].Flushing? || s.workers[w].Sending?) ==> s.lock == Some(w))
    && (forall w :: 0 <= w < |s.workers| && s.workers[w].Sending? ==>
          s.rob.taken && s.workers[w].op == s.rob.accepted[s.rob.nextExpected])
    && (s.rob.taken && !s.cancelled ==> s.lock.Some? && s.At(s.lock.value).Sending?)
  }

  /** The store and all results are those of the sequential run. */
  ghost predicate Correct(c: Config, s: State) {
    && (forall i :: i in s.completed ==> i < c.N() && s.completed[i] == c.job.SerialAnswer(i))
    && s.store == c.job.Partial(s.completed.Keys, c.N())
    && (forall i :: i in s.rob.accepted ==> i in s.completed && s.rob.accepted[i] == s.completed[i])
  }

  /** How goroutines end. */
  ghost predicate Ended(c: Config, s: State) {
    && !s.panicked
    && (forall w :: 0 <= w < |s.workers| && s.workers[w].Exited? ==> s.cancelled || (s.workClosed && s.workCh == []))
    && (!s.run.Running? ==> s.AllExited())
    && (s.run.ReturnedNil? ==> s.workClosed)
    && (s.handler.AwaitingRun? || s.handler.Responded200? || s.handler.Responded500? ==> s.rob.closed)
    && (s.handler.GaveUp? ==> s.cancelled)
    && (s.handler.Responded200? || s.handler.Responded500? ==> !s.run.Running?)
    && (s.handler.Responded200? ==> s.run.ReturnedNil?)
  }

  ghost predicate Inv(c: Config, s: State) {
    Typed(c, s) && Counted(c, s) && Locked(c, s) && Correct(c, s) && Ended(c, s)
  }

  lemma InitHolds(c: Config)
    requires c.Valid()
    ensures Inv(c, Init(c))
  {
    var s := Init(c);
    forall x: nat
      ensures Balanced(c, s, x)
    {
      RootsOnce(c.Batch(), c.N(), x);
      TallyIdle(c, Ready, c.workers, x);
      TallyIdle(c, Active, c.workers, x);
      TallyIdle(c, Undone, c.workers, x);
      TallyIdle(c, Uncommitted, c.workers, x);
      TallyIdle(c, Owed, c.workers, x);
      UnexecutedCount(c, {}, c.N(), x, Predecessors(c.Batch(), x));
      assert s.completed.Keys == {};
    }
    TallyIdle(c, Closers, c.workers, 0);
    NothingExecuted(c.job, c.N());
    assert s.completed.Keys == {};
  }

  lemma {:induction false} NothingExecuted(job: Job, n: nat)
    requires n <= |job.batch|
    ensures job.Partial({}, n) == job.store
  {
    if n > 0 {
      NothingExecuted(job, n - 1);
    }
  }
}
