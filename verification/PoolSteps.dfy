/** Every step of the worker pool keeps the invariant. */
module PoolSteps {
  import opened Operations
  import opened Hazards
  import opened Reorder
  import opened WorkerPool
  import opened PoolInvariant

  // ----- frames: what a step leaves alone -----

  /** t differs from s in where worker w is, among other things that are not about workers. */
  ghost predicate Moves(s: State, t: State, w: nat, to: Worker) {
    s.Has(w) && t.workers == s.workers[w := to]
  }

  /** One tally, when worker w moves. */
  ghost predicate Shifted(c: Config, k: Kind, s: State, t: State, w: nat, to: Worker, x: nat)
    requires s.Has(w)
  {
    Tally(c, k, t.workers, x) + Share(c, k, s.workers[w], x) == Tally(c, k, s.workers, x) + Share(c, k, to, x)
  }

  lemma Shift(c: Config, s: State, t: State, w: nat, to: Worker, x: nat)
    requires Moves(s, t, w, to)
    ensures Shifted(c, Ready, s, t, w, to, x) && Shifted(c, Active, s, t, w, to, x)
    ensures Shifted(c, Undone, s, t, w, to, x) && Shifted(c, Uncommitted, s, t, w, to, x)
    ensures Shifted(c, Owed, s, t, w, to, x)
  {
    TallyMoves(c, Ready, s.workers, w, to, x);
    TallyMoves(c, Active, s.workers, w, to, x);
    TallyMoves(c, Undone, s.workers, w, to, x);
    TallyMoves(c, Uncommitted, s.workers, w, to, x);
    TallyMoves(c, Owed, s.workers, w, to, x);
  }

  lemma TypedFrame(c: Config, s: State, t: State, w: nat, to: Worker)
    requires Typed(c, s) && Moves(s, t, w, to) && WorkerTyped(c, to)
    requires |t.inDegree| == |s.inDegree| && Within(t.workCh, c.N())
    ensures Typed(c, t)
  {
  }

  predicate HasLock(pc: Worker) {
    pc.Flushing? || pc.Sending?
  }

  lemma LockedFrame(c: Config, s: State, t: State, w: nat, to: Worker)
    requires Locked(c, s) && Moves(s, t, w, to) && !HasLock(s.workers[w]) && !HasLock(to)
    requires t.rob == s.rob && t.lock == s.lock && t.cancelled == s.cancelled
    ensures Locked(c, t)
  {
  }

  lemma CorrectFrame(c: Config, s: State, t: State)
    requires Correct(c, s) && t.completed == s.completed && t.store == s.store && t.rob.accepted == s.rob.accepted
    ensures Correct(c, t)
  {
  }

  lemma EndedFrame(c: Config, s: State, t: State, w: nat, to: Worker)
    requires Ended(c, s) && Moves(s, t, w, to) && !s.workers[w].Exited?
    requires !t.panicked && t.run == s.run && t.handler == s.handler && t.cancelled == s.cancelled
    requires s.rob.closed ==> t.rob.closed
    requires s.workClosed && s.workCh == [] ==> t.workClosed && t.workCh == []
    requires to.Exited? ==> t.cancelled || (t.workClosed && t.workCh == [])
    ensures Ended(c, t)
  {
  }

  // ----- receiving and leaving -----

  lemma RecvBalanced(c: Config, s: State, w: nat, x: nat)
    requires Balanced(c, s, x) && Enabled(c, s, Recv(w))
    ensures Balanced(c, Next(c, s, Recv(w)), x)
  {
    var t := Next(c, s, Recv(w));
    assert s.workCh == [s.workCh[0]] + t.workCh;
    Shift(c, s, t, w, Holding(s.workCh[0]), x);
  }

  lemma RecvCounted(c: Config, s: State, w: nat)
    requires Counted(c, s) && Enabled(c, s, Recv(w))
    ensures Counted(c, Next(c, s, Recv(w)))
  {
    forall x: nat
      ensures Balanced(c, Next(c, s, Recv(w)), x)
    {
      RecvBalanced(c, s, w, x);
    }
    TallyMoves(c, Closers, s.workers, w, Holding(s.workCh[0]), 0);
  }

  lemma RecvKeeps(c: Config, s: State, w: nat)
    requires c.Valid() && Inv(c, s) && Enabled(c, s, Recv(w))
    ensures Inv(c, Next(c, s, Recv(w)))
  {
    var t := Next(c, s, Recv(w));
    var to := Holding(s.workCh[0]);
    TypedFrame(c, s, t, w, to);
    RecvCounted(c, s, w);
    LockedFrame(c, s, t, w, to);
    CorrectFrame(c, s, t);
    EndedFrame(c, s, t, w, to);
  }

  ghost predicate SameShares(c: Config, a: Worker, b: Worker) {
    forall k: Kind, x: nat :: !k.Potential? ==> Share(c, k, a, x) == Share(c, k, b, x)
  }

  /** Waiting and gone; having the lock, sending, and having let go of the lock; nothing left to push and
      about to count down. */
  predicate SamePlace(a: Worker, b: Worker) {
    || (a.Idle? && b.Exited?)
    || (HasLock(a) && (HasLock(b) || b.Pushing?) && a.node == b.node && a.newly == b.newly)
    || (a.Pushing? && a.newly == [] && b.Finishing? && a.node == b.node)
  }

  /** These count the same. */
  lemma SamePlaceShares(c: Config, a: Worker, b: Worker)
    requires SamePlace(a, b)
    ensures SameShares(c, a, b) && (WorkerTyped(c, a) ==> WorkerTyped(c, b))
  {
  }

  /** A move that changes nothing but the worker, between places that count the same. */
  lemma SameSharesCounted(c: Config, s: State, t: State, w: nat, to: Worker)
    requires Counted(c, s) && Moves(s, t, w, to) && SameShares(c, s.workers[w], to)
    requires t.workCh == s.workCh && t.completed == s.completed && t.inDegree == s.inDegree && t.done == s.done
    requires t.finished == s.finished && t.rob.accepted == s.rob.accepted
    requires t.remaining == s.remaining && t.workClosed == s.workClosed
    ensures Counted(c, t)
  {
    forall x: nat
      ensures Balanced(c, t, x)
    {
      assert Balanced(c, s, x);
      Shift(c, s, t, w, to, x);
    }
    TallyMoves(c, Closers, s.workers, w, to, 0);
  }

  /** Such a move keeps the invariant if what it does to the lock and the reorder buffer is right. */
  lemma SamePlacesKeeps(c: Config, s: State, t: State, w: nat, to: Worker)
    requires Inv(c, s) && Moves(s, t, w, to) && SamePlace(s.workers[w], to)
    requires t == s.(workers := t.workers, lock := t.lock, rob := t.rob)
    requires t.rob.accepted == s.rob.accepted && (s.rob.closed ==> t.rob.closed) && Locked(c, t)
    requires to.Exited? ==> t.cancelled || (t.workClosed && t.workCh == [])
    ensures Inv(c, t)
  {
    SamePlaceShares(c, s.workers[w], to);
    TypedFrame(c, s, t, w, to);
    SameSharesCounted(c, s, t, w, to);
    CorrectFrame(c, s, t);
    EndedFrame(c, s, t, w, to);
  }

  lemma ExitKeeps(c: Config, s: State, w: nat, step: Step)
    requires c.Valid() && Inv(c, s) && Enabled(c, s, step) && (step == SeeWorkClosed(w) || step == SeeCancelled(w))
    ensures Inv(c, Next(c, s, step))
  {
    var t := Next(c, s, step);
    LockedFrame(c, s, t, w, Exited);
    SamePlacesKeeps(c, s, t, w, Exited);
  }

  // ----- executing -----

  /** A received node has no predecessor left to execute, and executing it keeps the executed set closed. */
  lemma HeldIsReady(c: Config, s: State, w: nat)
    requires Typed(c, s) && Counted(c, s) && Enabled(c, s, Execute(w))
    ensures var i := s.At(w).node; i !in s.completed && s.inDegree[i] == 0
  {
    var i := s.At(w).node;
    TallyHas(c, Ready, s.workers, w, i);
    assert Balanced(c, s, i);
  }

  /** Every predecessor of a node with in-degree zero has executed. */
  lemma ZeroMeansExecuted(c: Config, s: State, i: nat, j: nat)
    requires Typed(c, s) && Counted(c, s) && j < c.N() && s.inDegree[j] <= 0 && Edge(c.Batch(), i, j)
    ensures i in s.completed
  {
    assert Balanced(c, s, j);
    if i !in s.completed {
      UnexecutedHas(c, s.completed.Keys, c.N(), i, j);
    }
  }

  /** The executed set is closed under hazard predecessors. */
  lemma ExecutedIsClosed(c: Config, s: State)
    requires Typed(c, s) && Counted(c, s)
    ensures ClosedUnderPredecessors(c.Batch(), s.completed.Keys)
  {
    forall i, j | Edge(c.Batch(), i, j) && j in s.completed.Keys
      ensures i in s.completed.Keys
    {
      assert Balanced(c, s, j);
      ZeroMeansExecuted(c, s, i, j);
    }
  }

  lemma ExecuteHazards(c: Config, s: State, w: nat)
    requires Typed(c, s) && Counted(c, s) && Enabled(c, s, Execute(w))
    ensures var i := s.At(w).node;
            && (forall j :: Hazard(c.Batch(), j, i) ==> j in s.completed.Keys)
            && (forall j :: Hazard(c.Batch(), i, j) ==> j !in s.completed.Keys)
  {
    var i := s.At(w).node;
    var executed := s.completed.Keys;
    HeldIsReady(c, s, w);
    ExecutedIsClosed(c, s);
    forall j | Hazard(c.Batch(), j, i)
      ensures j in executed
    {
      forall a, b | Edge(c.Batch(), a, b) && b in executed + {i}
        ensures a in executed + {i}
      {
        if b == i {
          ZeroMeansExecuted(c, s, a, b);
        }
      }
      ClosedUnderHazards(c.Batch(), executed + {i}, j, i);
    }
    forall j | Hazard(c.Batch(), i, j)
      ensures j !in executed
    {
      if j in executed {
        ClosedUnderHazards(c.Batch(), executed, i, j);
      }
    }
  }

  lemma ExecuteCorrect(c: Config, s: State, w: nat)
    requires Typed(c, s) && Counted(c, s) && Correct(c, s) && Enabled(c, s, Execute(w))
    ensures Correct(c, Next(c, s, Execute(w)))
  {
    var t := Next(c, s, Execute(w));
    var i := s.At(w).node;
    HeldIsReady(c, s, w);
    ExecuteHazards(c, s, w);
    ExecuteNext(c.job, s.completed.Keys, i);
    assert t.completed.Keys == s.completed.Keys + {i};
  }

  lemma ExecuteShares(c: Config, i: nat, x: nat)
    requires i < c.N()
    ensures var from, to := Holding(i), Releasing(i, 0, []);
            && Share(c, Ready, from, x) == One(x == i) && Share(c, Ready, to, x) == 0
            && Share(c, Active, from, x) == 0 && Share(c, Active, to, x) == One(x == i)
            && Share(c, Undone, from, x) == 0 && Share(c, Undone, to, x) == One(x == i)
            && Share(c, Uncommitted, from, x) == 0 && Share(c, Uncommitted, to, x) == One(x == i)
            && Share(c, Owed, from, x) == 0 && Share(c, Owed, to, x) == One(Edge(c.Batch(), i, x))
  {
    assert c.Deps(i)[0..] == c.Deps(i);
    DependentsOnce(c.Batch(), i, c.N(), x);
  }

  /** Worker w has executed the node i that it held. */
  ghost predicate Executed(c: Config, s: State, w: nat, i: nat, t: State) {
    && s.Has(w) && s.At(w) == Holding(i) && i < c.N()
    && t == s.(completed := t.completed, store := t.store, workers := s.workers[w := Releasing(i, 0, [])])
    && t.completed.Keys == s.completed.Keys + {i}
  }

  lemma ExecutedBalanced(c: Config, s: State, w: nat, i: nat, t: State, x: nat)
    requires Balanced(c, s, x) && Executed(c, s, w, i, t) && i !in s.completed
    ensures Balanced(c, t, x)
  {
    Shift(c, s, t, w, Releasing(i, 0, []), x);
    ExecuteShares(c, i, x);
    UnexecutedDrops(c, s.completed.Keys, c.N(), i, x);
    assert x in t.completed <==> x in t.completed.Keys;
  }

  lemma ExecuteBalanced(c: Config, s: State, w: nat, x: nat)
    requires Typed(c, s) && Balanced(c, s, x) && Enabled(c, s, Execute(w)) && s.At(w).node !in s.completed
    ensures Balanced(c, Next(c, s, Execute(w)), x)
  {
    var t := Next(c, s, Execute(w));
    assert t.completed.Keys == s.completed.Keys + {s.At(w).node};
    ExecutedBalanced(c, s, w, s.At(w).node, t, x);
  }

  lemma ExecuteCounted(c: Config, s: State, w: nat)
    requires Typed(c, s) && Counted(c, s) && Enabled(c, s, Execute(w))
    ensures Counted(c, Next(c, s, Execute(w)))
  {
    HeldIsReady(c, s, w);
    forall x: nat
      ensures Balanced(c, Next(c, s, Execute(w)), x)
    {
      ExecuteBalanced(c, s, w, x);
    }
    TallyMoves(c, Closers, s.workers, w, Releasing(s.At(w).node, 0, []), 0);
  }

  lemma ExecuteKeeps(c: Config, s: State, w: nat)
    requires c.Valid() && Inv(c, s) && Enabled(c, s, Execute(w))
    ensures Inv(c, Next(c, s, Execute(w)))
  {
    var t := Next(c, s, Execute(w));
    var to := Releasing(s.At(w).node, 0, []);
    TypedFrame(c, s, t, w, to);
    ExecuteCounted(c, s, w);
    LockedFrame(c, s, t, w, to);
    ExecuteCorrect(c, s, w);
    EndedFrame(c, s, t, w, to);
  }

  // ----- releasing -----

  lemma DecrementShares(c: Config, node: nat, next: nat, newly: seq<nat>, x: nat, zero: bool)
    requires next < |c.Deps(node)|
    ensures var dep := c.Deps(node)[next];
            var from := Releasing(node, next, newly);
            var to := Releasing(node, next + 1, if zero then newly + [dep] else newly);
            && Share(c, Ready, to, x) == Share(c, Ready, from, x) + One(zero && x == dep)
            && Share(c, Active, to, x) == Share(c, Active, from, x)
            && Share(c, Undone, to, x) == Share(c, Undone, from, x)
            && Share(c, Uncommitted, to, x) == Share(c, Uncommitted, from, x)
            && Share(c, Owed, to, x) + One(x == dep) == Share(c, Owed, from, x)
  {
    assert c.Deps(node)[next..] == [c.Deps(node)[next]] + c.Deps(node)[next+1..];
  }

  /** The state after a decrement of the counter of `dep`, with the worker gone on to `to`. */
  ghost predicate Decremented(c: Config, s: State, w: nat, dep: nat, to: Worker, t: State) {
    && s.Has(w) && s.At(w).Releasing? && s.At(w).next < |c.Deps(s.At(w).node)|
    && dep == c.Deps(s.At(w).node)[s.At(w).next] && dep < |s.inDegree|
    && var Releasing(node, next, newly) := s.At(w);
       && to == Releasing(node, next + 1, if s.inDegree[dep] - 1 == 0 then newly + [dep] else newly)
       && t == s.(inDegree := s.inDegree[dep := s.inDegree[dep] - 1], workers := s.workers[w := to])
  }

  lemma DecrementedBalanced(c: Config, s: State, w: nat, dep: nat, to: Worker, t: State, x: nat)
    requires Balanced(c, s, x) && Decremented(c, s, w, dep, to, t)
    ensures Balanced(c, t, x)
  {
    Shift(c, s, t, w, to, x);
    DecrementShares(c, s.At(w).node, s.At(w).next, s.At(w).newly, x, s.inDegree[dep] - 1 == 0);
    if x == dep {
      TallyHas(c, Owed, s.workers, w, x);
      assert t.inDegree[x] == s.inDegree[x] - 1 >= 0;
    } else {
      assert x < |s.inDegree| ==> t.inDegree[x] == s.inDegree[x];
    }
  }

  lemma DecrementBalanced(c: Config, s: State, w: nat, x: nat)
    requires Balanced(c, s, x) && Enabled(c, s, Decrement(w))
    ensures Balanced(c, Next(c, s, Decrement(w)), x)
  {
    var t := Next(c, s, Decrement(w));
    var dep := c.Deps(s.At(w).node)[s.At(w).next];
    assert Decremented(c, s, w, dep, t.At(w), t);
    DecrementedBalanced(c, s, w, dep, t.At(w), t, x);
  }

  lemma DecrementCounted(c: Config, s: State, w: nat)
    requires Typed(c, s) && Counted(c, s) && Enabled(c, s, Decrement(w))
    ensures Counted(c, Next(c, s, Decrement(w)))
  {
    var t := Next(c, s, Decrement(w));
    forall x: nat
      ensures Balanced(c, t, x)
    {
      DecrementBalanced(c, s, w, x);
    }
    TallyMoves(c, Closers, s.workers, w, t.workers[w], 0);
  }

  lemma DecrementKeeps(c: Config, s: State, w: nat)
    requires c.Valid() && Inv(c, s) && Enabled(c, s, Decrement(w))
    ensures Inv(c, Next(c, s, Decrement(w)))
  {
    var t := Next(c, s, Decrement(w));
    var to := t.workers[w];
    TypedFrame(c, s, t, w, to);
    DecrementCounted(c, s, w);
    LockedFrame(c, s, t, w, to);
    CorrectFrame(c, s, t);
    EndedFrame(c, s, t, w, to);
  }

  /** A node's done channel is open while its Release runs. */
  lemma ReleasingIsUndone(c: Config, s: State, w: nat)
    requires Counted(c, s) && s.Has(w) && s.At(w).Releasing?
    ensures s.At(w).node !in s.done && s.At(w).node in s.completed
  {
    var i := s.At(w).node;
    TallyHas(c, Undone, s.workers, w, i);
    assert Balanced(c, s, i);
  }

  lemma PublishDoneShares(c: Config, node: nat, newly: seq<nat>, x: nat)
    ensures var from, to := Releasing(node, |c.Deps(node)|, newly), Committing(node, newly);
            && Share(c, Ready, to, x) == Share(c, Ready, from, x)
            && Share(c, Active, to, x) == Share(c, Active, from, x)
            && Share(c, Undone, from, x) == One(x == node) && Share(c, Undone, to, x) == 0
            && Share(c, Uncommitted, to, x) == Share(c, Uncommitted, from, x)
            && Share(c, Owed, to, x) == 0 && Share(c, Owed, from, x) == 0
  {
    assert c.Deps(node)[|c.Deps(node)|..] == [];
  }

  lemma PublishDoneBalanced(c: Config, s: State, w: nat, x: nat)
    requires Balanced(c, s, x) && Enabled(c, s, PublishDone(w)) && s.At(w).node !in s.done
    ensures Balanced(c, Next(c, s, PublishDone(w)), x)
  {
    var t := Next(c, s, PublishDone(w));
    var Releasing(node, next, newly) := s.At(w);
    Shift(c, s, t, w, Committing(node, newly), x);
    PublishDoneShares(c, node, newly, x);
  }

  lemma PublishDoneCounted(c: Config, s: State, w: nat)
    requires Counted(c, s) && Enabled(c, s, PublishDone(w))
    ensures Counted(c, Next(c, s, PublishDone(w)))
  {
    var t := Next(c, s, PublishDone(w));
    ReleasingIsUndone(c, s, w);
    forall x: nat
      ensures Balanced(c, t, x)
    {
      PublishDoneBalanced(c, s, w, x);
    }
    TallyMoves(c, Closers, s.workers, w, t.workers[w], 0);
  }

  lemma PublishDoneKeeps(c: Config, s: State, w: nat)
    requires c.Valid() && Inv(c, s) && Enabled(c, s, PublishDone(w))
    ensures Inv(c, Next(c, s, PublishDone(w)))
  {
    var t := Next(c, s, PublishDone(w));
    var to := t.workers[w];
    TypedFrame(c, s, t, w, to);
    PublishDoneCounted(c, s, w);
    LockedFrame(c, s, t, w, to);
    CorrectFrame(c, s, t);
    ReleasingIsUndone(c, s, w);
    EndedFrame(c, s, t, w, to);
  }

  // ----- committing -----

  lemma CommittingIsNew(c: Config, s: State, w: nat)
    requires c.Valid() && Typed(c, s) && Counted(c, s) && Correct(c, s) && s.Has(w) && s.At(w).Committing?
    ensures var i := s.At(w).node;
            i in s.completed && s.completed[i].seqId == i && i !in s.rob.accepted && i < c.N()
  {
    var i := s.At(w).node;
    TallyHas(c, Uncommitted, s.workers, w, i);
    assert Balanced(c, s, i);
  }

  lemma LockAndStoreShares(c: Config, node: nat, newly: seq<nat>, x: nat)
    ensures var from, to := Committing(node, newly), Flushing(node, newly);
            && Share(c, Ready, to, x) == Share(c, Ready, from, x)
            && Share(c, Active, to, x) == Share(c, Active, from, x)
            && Share(c, Undone, to, x) == Share(c, Undone, from, x)
            && Share(c, Uncommitted, from, x) == One(x == node) && Share(c, Uncommitted, to, x) == 0
            && Share(c, Owed, to, x) == Share(c, Owed, from, x)
  {
  }

  lemma LockAndStoreBalanced(c: Config, s: State, w: nat, x: nat)
    requires Balanced(c, s, x) && Enabled(c, s, LockAndStore(w))
    requires var i := s.At(w).node; i !in s.rob.accepted && s.completed[i].seqId == i
    ensures Balanced(c, Next(c, s, LockAndStore(w)), x)
  {
    var t := Next(c, s, LockAndStore(w));
    var Committing(node, newly) := s.At(w);
    Shift(c, s, t, w, Flushing(node, newly), x);
    LockAndStoreShares(c, node, newly, x);
  }

  lemma LockAndStoreCounted(c: Config, s: State, w: nat)
    requires Counted(c, s) && Enabled(c, s, LockAndStore(w))
    requires var i := s.At(w).node; i !in s.rob.accepted && s.completed[i].seqId == i
    ensures Counted(c, Next(c, s, LockAndStore(w)))
  {
    var t := Next(c, s, LockAndStore(w));
    forall x: nat
      ensures Balanced(c, t, x)
    {
      LockAndStoreBalanced(c, s, w, x);
    }
    TallyMoves(c, Closers, s.workers, w, t.workers[w], 0);
  }

  lemma LockAndStoreCorrect(c: Config, s: State, w: nat)
    requires Correct(c, s) && Enabled(c, s, LockAndStore(w)) && s.completed[s.At(w).node].seqId == s.At(w).node
    ensures Correct(c, Next(c, s, LockAndStore(w)))
  {
  }

  lemma LockAndStoreLocked(c: Config, s: State, w: nat)
    requires Locked(c, s) && Enabled(c, s, LockAndStore(w))
    requires var i := s.At(w).node; i !in s.rob.accepted && s.completed[i].seqId == i && i < c.N()
    ensures Locked(c, Next(c, s, LockAndStore(w)))
  {
    AcceptKeeps(s.rob, s.completed[s.At(w).node]);
  }

  lemma LockAndStoreKeeps(c: Config, s: State, w: nat)
    requires c.Valid() && Inv(c, s) && Enabled(c, s, LockAndStore(w))
    ensures Inv(c, Next(c, s, LockAndStore(w)))
  {
    var t := Next(c, s, LockAndStore(w));
    var to := t.workers[w];
    CommittingIsNew(c, s, w);
    TypedFrame(c, s, t, w, to);
    LockAndStoreCounted(c, s, w);
    LockAndStoreLocked(c, s, w);
    LockAndStoreCorrect(c, s, w);
    EndedFrame(c, s, t, w, to);
  }

  lemma TakeHeadLocked(c: Config, s: State, w: nat)
    requires Locked(c, s) && Enabled(c, s, TakeHead(w))
    ensures Locked(c, Next(c, s, TakeHead(w)))
  {
    TakeKeeps(s.rob);
  }

  lemma TakeHeadKeeps(c: Config, s: State, w: nat)
    requires c.Valid() && Inv(c, s) && Enabled(c, s, TakeHead(w))
    ensures Inv(c, Next(c, s, TakeHead(w)))
  {
    var t := Next(c, s, TakeHead(w));
    var to := t.workers[w];
    TakeHeadLocked(c, s, w);
    SamePlacesKeeps(c, s, t, w, to);
  }

  lemma SendLocked(c: Config, s: State, w: nat)
    requires Locked(c, s) && Enabled(c, s, Send(w))
    ensures Locked(c, Next(c, s, Send(w))) && !s.rob.closed
  {
    DeliverKeeps(s.rob);
  }

  lemma SendKeeps(c: Config, s: State, w: nat)
    requires c.Valid() && Inv(c, s) && Enabled(c, s, Send(w))
    ensures Inv(c, Next(c, s, Send(w)))
  {
    var t := Next(c, s, Send(w));
    var to := t.workers[w];
    SendLocked(c, s, w);
    SamePlacesKeeps(c, s, t, w, to);
  }

  lemma ReleaseLockLocked(c: Config, s: State, w: nat, step: Step)
    requires Locked(c, s) && Enabled(c, s, step) && (step == Abandon(w) || step == Unlock(w))
    ensures Locked(c, Next(c, s, step))
  {
  }

  lemma ReleaseLockKeeps(c: Config, s: State, w: nat, step: Step)
    requires c.Valid() && Inv(c, s) && Enabled(c, s, step) && (step == Abandon(w) || step == Unlock(w))
    ensures Inv(c, Next(c, s, step))
  {
    var t := Next(c, s, step);
    var to := t.workers[w];
    ReleaseLockLocked(c, s, w, step);
    SamePlacesKeeps(c, s, t, w, to);
  }

  // ----- dispatching and finishing -----

  lemma {:induction false} FinishedBound(c: Config, s: State, i: nat)
    requires Counted(c, s) && i !in s.finished && i < c.N()
    ensures |s.finished| < c.N() && s.remaining > 0 && !s.workClosed && Tally(c, Closers, s.workers, 0) == 0
  {
    forall x | x in s.finished
      ensures x in Positions(c.N()) - {i}
    {
      assert Balanced(c, s, x);
    }
    SubsetCount(s.finished, Positions(c.N()) - {i});
  }

  /** While a worker still has an executed node, that node is not finished and the work channel is open. */
  lemma {:induction false} ActiveMeansOpen(c: Config, s: State, w: nat)
    requires Typed(c, s) && Counted(c, s) && s.Has(w)
    requires s.At(w).Releasing? || s.At(w).Committing? || HasLock(s.At(w)) || s.At(w).Pushing? || s.At(w).Finishing?
    ensures s.At(w).node !in s.finished && s.remaining > 0 && !s.workClosed && Tally(c, Closers, s.workers, 0) == 0
  {
    var i := s.At(w).node;
    TallyHas(c, Active, s.workers, w, i);
    assert Balanced(c, s, i);
    FinishedBound(c, s, i);
  }

  lemma PushShares(c: Config, node: nat, newly: seq<nat>, x: nat)
    requires newly != []
    ensures var from, to := Pushing(node, newly), Pushing(node, newly[1..]);
            && Share(c, Ready, from, x) == Share(c, Ready, to, x) + One(x == newly[0])
            && Share(c, Active, to, x) == Share(c, Active, from, x)
            && Share(c, Undone, to, x) == Share(c, Undone, from, x)
            && Share(c, Uncommitted, to, x) == Share(c, Uncommitted, from, x)
            && Share(c, Owed, to, x) == Share(c, Owed, from, x)
  {
    assert newly == [newly[0]] + newly[1..];
  }

  lemma PushBalanced(c: Config, s: State, w: nat, x: nat)
    requires Balanced(c, s, x) && Enabled(c, s, Push(w))
    ensures Balanced(c, Next(c, s, Push(w)), x)
  {
    var t := Next(c, s, Push(w));
    var Pushing(node, newly) := s.At(w);
    Shift(c, s, t, w, Pushing(node, newly[1..]), x);
    PushShares(c, node, newly, x);
    assert multiset(t.workCh)[x] == multiset(s.workCh)[x] + One(x == newly[0]);
  }

  lemma PushCounted(c: Config, s: State, w: nat)
    requires Counted(c, s) && Enabled(c, s, Push(w))
    ensures Counted(c, Next(c, s, Push(w)))
  {
    var t := Next(c, s, Push(w));
    forall x: nat
      ensures Balanced(c, t, x)
    {
      PushBalanced(c, s, w, x);
    }
    TallyMoves(c, Closers, s.workers, w, t.workers[w], 0);
  }

  lemma PushKeeps(c: Config, s: State, w: nat)
    requires c.Valid() && Inv(c, s) && Enabled(c, s, Push(w))
    ensures Inv(c, Next(c, s, Push(w)))
  {
    var t := Next(c, s, Push(w));
    var to := t.workers[w];
    ActiveMeansOpen(c, s, w);
    assert WorkerTyped(c, s.workers[w]);
    TypedFrame(c, s, t, w, to);
    PushCounted(c, s, w);
    LockedFrame(c, s, t, w, to);
    CorrectFrame(c, s, t);
    EndedFrame(c, s, t, w, to);
  }

  lemma EndPushingKeeps(c: Config, s: State, w: nat)
    requires c.Valid() && Inv(c, s) && Enabled(c, s, EndPushing(w))
    ensures Inv(c, Next(c, s, EndPushing(w)))
  {
    var t := Next(c, s, EndPushing(w));
    var to := Finishing(s.At(w).node);
    LockedFrame(c, s, t, w, to);
    SamePlacesKeeps(c, s, t, w, to);
  }

  lemma CountDownShares(c: Config, node: nat, to: Worker, x: nat)
    requires to.Idle? || to.ClosingWork?
    ensures var from := Finishing(node);
            && Share(c, Ready, from, x) == 0 && Share(c, Ready, to, x) == 0
            && Share(c, Active, from, x) == One(x == node) && Share(c, Active, to, x) == 0
            && Share(c, Undone, from, x) == 0 && Share(c, Undone, to, x) == 0
            && Share(c, Uncommitted, from, x) == 0 && Share(c, Uncommitted, to, x) == 0
            && Share(c, Owed, from, x) == 0 && Share(c, Owed, to, x) == 0
  {
  }

  lemma CountDownBalanced(c: Config, s: State, w: nat, x: nat)
    requires Balanced(c, s, x) && Enabled(c, s, CountDown(w)) && s.At(w).node !in s.finished
    ensures Balanced(c, Next(c, s, CountDown(w)), x)
  {
    var t := Next(c, s, CountDown(w));
    Shift(c, s, t, w, t.workers[w], x);
    CountDownShares(c, s.At(w).node, t.workers[w], x);
  }

  lemma {:induction false} CountDownCounted(c: Config, s: State, w: nat)
    requires Counted(c, s) && Enabled(c, s, CountDown(w)) && s.At(w).node !in s.finished
    requires s.remaining > 0 && !s.workClosed && Tally(c, Closers, s.workers, 0) == 0
    ensures Counted(c, Next(c, s, CountDown(w)))
  {
    var t := Next(c, s, CountDown(w));
    forall x: nat
      ensures Balanced(c, t, x)
    {
      CountDownBalanced(c, s, w, x);
    }
    TallyMoves(c, Closers, s.workers, w, t.workers[w], 0);
  }

  lemma CountDownKeeps(c: Config, s: State, w: nat)
    requires c.Valid() && Inv(c, s) && Enabled(c, s, CountDown(w))
    ensures Inv(c, Next(c, s, CountDown(w)))
  {
    var t := Next(c, s, CountDown(w));
    var to := t.workers[w];
    ActiveMeansOpen(c, s, w);
    TypedFrame(c, s, t, w, to);
    CountDownCounted(c, s, w);
    LockedFrame(c, s, t, w, to);
    CorrectFrame(c, s, t);
    EndedFrame(c, s, t, w, to);
  }

  /** A worker without a node counts for none. */
  lemma NoShares(c: Config, x: nat)
    ensures Share(c, Ready, Idle, x) == Share(c, Ready, ClosingWork, x)
    ensures Share(c, Active, Idle, x) == Share(c, Active, ClosingWork, x)
    ensures Share(c, Undone, Idle, x) == Share(c, Undone, ClosingWork, x)
    ensures Share(c, Uncommitted, Idle, x) == Share(c, Uncommitted, ClosingWork, x)
    ensures Share(c, Owed, Idle, x) == Share(c, Owed, ClosingWork, x)
  {
  }

  lemma CloseWorkBalanced(c: Config, s: State, w: nat, x: nat)
    requires Balanced(c, s, x) && Enabled(c, s, CloseWork(w))
    ensures Balanced(c, Next(c, s, CloseWork(w)), x)
  {
    var t := Next(c, s, CloseWork(w));
    NoShares(c, x);
    Shift(c, s, t, w, Idle, x);
  }

  lemma CloseWorkCounted(c: Config, s: State, w: nat)
    requires Counted(c, s) && Enabled(c, s, CloseWork(w))
    ensures Counted(c, Next(c, s, CloseWork(w))) && !s.workClosed
  {
    forall x: nat
      ensures Balanced(c, Next(c, s, CloseWork(w)), x)
    {
      CloseWorkBalanced(c, s, w, x);
    }
    TallyHas(c, Closers, s.workers, w, 0);
    TallyMoves(c, Closers, s.workers, w, Idle, 0);
  }

  lemma CloseWorkKeeps(c: Config, s: State, w: nat)
    requires c.Valid() && Inv(c, s) && Enabled(c, s, CloseWork(w))
    ensures Inv(c, Next(c, s, CloseWork(w)))
  {
    var t := Next(c, s, CloseWork(w));
    TypedFrame(c, s, t, w, Idle);
    CloseWorkCounted(c, s, w);
    LockedFrame(c, s, t, w, Idle);
    CorrectFrame(c, s, t);
    EndedFrame(c, s, t, w, Idle);
  }

  // ----- steps outside the workers -----

  lemma SameCounted(c: Config, s: State, t: State)
    requires Counted(c, s)
    requires t == s.(cancelled := t.cancelled, run := t.run, handler := t.handler)
    ensures Counted(c, t)
  {
    forall x: nat
      ensures Balanced(c, t, x)
    {
      assert Balanced(c, s, x);
    }
  }

  lemma SameLocked(c: Config, s: State, t: State)
    requires Locked(c, s) && (s.cancelled ==> t.cancelled)
    requires t == s.(cancelled := t.cancelled, run := t.run, handler := t.handler)
    ensures Locked(c, t)
  {
  }

  lemma OutsideEnded(c: Config, s: State, step: Step)
    requires c.Valid() && Typed(c, s) && Ended(c, s) && Enabled(c, s, step)
    requires !step.ByWorker()
    ensures Ended(c, Next(c, s, step))
  {
    if step.ReturnRun? {
      assert s.workers[0].Exited?;
    }
  }

  lemma OutsideKeeps(c: Config, s: State, step: Step)
    requires c.Valid() && Inv(c, s) && Enabled(c, s, step)
    requires !step.ByWorker()
    ensures Inv(c, Next(c, s, step))
  {
    var t := Next(c, s, step);
    SameCounted(c, s, t);
    SameLocked(c, s, t);
    CorrectFrame(c, s, t);
    OutsideEnded(c, s, step);
  }

  lemma CommitStepKeeps(c: Config, s: State, step: Step)
    requires c.Valid() && Inv(c, s) && Enabled(c, s, step)
    requires step.LockAndStore? || step.TakeHead? || step.Send? || step.Abandon? || step.Unlock?
    ensures Inv(c, Next(c, s, step))
  {
    match step
    case LockAndStore(w) => LockAndStoreKeeps(c, s, w);
    case TakeHead(w) => TakeHeadKeeps(c, s, w);
    case Send(w) => SendKeeps(c, s, w);
    case Abandon(w) => ReleaseLockKeeps(c, s, w, step);
    case Unlock(w) => ReleaseLockKeeps(c, s, w, step);
  }

  lemma LockFreeStepKeeps(c: Config, s: State, step: Step)
    requires c.Valid() && Inv(c, s) && Enabled(c, s, step) && step.ByWorker()
    requires !step.LockAndStore? && !step.TakeHead? && !step.Send? && !step.Abandon? && !step.Unlock?
    ensures Inv(c, Next(c, s, step))
  {
    match step
    case Recv(w) => RecvKeeps(c, s, w);
    case SeeWorkClosed(w) => ExitKeeps(c, s, w, step);
    case SeeCancelled(w) => ExitKeeps(c, s, w, step);
    case Execute(w) => ExecuteKeeps(c, s, w);
    case Decrement(w) => DecrementKeeps(c, s, w);
    case PublishDone(w) => PublishDoneKeeps(c, s, w);
    case Push(w) => PushKeeps(c, s, w);
    case EndPushing(w) => EndPushingKeeps(c, s, w);
    case CountDown(w) => CountDownKeeps(c, s, w);
    case CloseWork(w) => CloseWorkKeeps(c, s, w);
  }

  /** Every step keeps the invariant. */
  lemma StepKeeps(c: Config, s: State, step: Step)
    requires c.Valid() && Inv(c, s) && Enabled(c, s, step)
    ensures Inv(c, Next(c, s, step))
  {
    if step.LockAndStore? || step.TakeHead? || step.Send? || step.Abandon? || step.Unlock? {
      CommitStepKeeps(c, s, step);
    } else if step.ByWorker() {
      LockFreeStepKeeps(c, s, step);
    } else {
      OutsideKeeps(c, s, step);
    }
  }

  lemma {:induction false} RunKeeps(c: Config, s: State, steps: seq<Step>, t: State)
    requires c.Valid() && Inv(c, s) && Run(c, s, steps, t)
    ensures Inv(c, t)
    decreases |steps|
  {
    if steps != [] {
      StepKeeps(c, s, steps[0]);
      RunKeeps(c, Next(c, s, steps[0]), steps[1..], t);
    }
  }

  /** The invariant holds in every reachable state, whatever the interleaving. */
  lemma ReachableHolds(c: Config, s: State)
    requires c.Valid() && Reachable(c, s)
    ensures Inv(c, s)
  {
    var steps :| Run(c, Init(c), steps, s);
    InitHolds(c);
    RunKeeps(c, Init(c), steps, s);
  }
}
